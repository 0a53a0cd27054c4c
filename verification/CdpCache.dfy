/** The KV-backed CDP cache: keys, lookups, freshness, writes. Times are in milliseconds. */
module CdpCache {
  import opened PersonaModel
  import opened CdpSlugs

  const FRESH_THRESHOLD: nat := 10 * 60 * 1000
  const MEMBER_ID_KEY_PREFIX := "cdp.member_id."
  const AFFILIATIONS_KEY_PREFIX := "cdp.affiliations."

  function MemberIdKey(username: string): string {
    MEMBER_ID_KEY_PREFIX + username
  }

  function AffiliationsKey(memberId: string): string {
    AFFILIATIONS_KEY_PREFIX + memberId
  }

  /** The two key families are injective and do not meet. */
  lemma KeysDistinct(a: string, b: string)
    ensures MemberIdKey(a) == MemberIdKey(b) ==> a == b
    ensures AffiliationsKey(a) == AffiliationsKey(b) ==> a == b
    ensures MemberIdKey(a) != AffiliationsKey(b)
  {
    assert MemberIdKey(a)[|MEMBER_ID_KEY_PREFIX|..] == a && MemberIdKey(b)[|MEMBER_ID_KEY_PREFIX|..] == b;
    assert AffiliationsKey(a)[|AFFILIATIONS_KEY_PREFIX|..] == a && AffiliationsKey(b)[|AFFILIATIONS_KEY_PREFIX|..] == b;
    assert MemberIdKey(a)[4] == 'm' && AffiliationsKey(b)[4] == 'a';
  }

  /** A stored value and the time the store gave it. */
  datatype Entry = Entry(value: string, created: nat)

  type Store = map<string, Entry>

  /** The bucket: it drops entries at age `ttl`, and refuses keys that are not `accepts`ed. */
  datatype Bucket = Bucket(ttl: nat, accepts: string -> bool)

  /** JSON, as a pair of functions. */
  datatype Codec = Codec(encode: seq<Affiliation> -> string, decode: string -> Option<seq<Affiliation>>)

  ghost predicate Faithful(c: Codec) {
    forall l :: c.decode(c.encode(l)) == Some(l)
  }

  datatype GetReply = Found(entry: Entry) | NotFound | GetError

  /** kv.Get at time `now`; `fault` is a failure of the store or of the way to it. */
  function Read(b: Bucket, store: Store, key: string, now: nat, fault: bool): GetReply {
    if fault || !b.accepts(key) then GetError
    else if key in store && now < store[key].created + b.ttl then Found(store[key])
    else NotFound
  }

  /** kv.Put at time `now`. */
  function Write(b: Bucket, store: Store, key: string, value: string, now: nat, fault: bool): Store {
    if fault || !b.accepts(key) then store else store[key := Entry(value, now)]
  }

  predicate IsStale(e: Entry, now: nat) {
    now >= e.created + FRESH_THRESHOLD
  }

  datatype CacheResult = CacheResult(hit: bool, stale: bool)

  const MISS := CacheResult(false, false)

  class Cache {
    const enabled: bool
    const bucket: Bucket
    const codec: Codec
    var store: Store

    constructor (enabled: bool, bucket: Bucket, codec: Codec)
      ensures this.enabled == enabled && this.bucket == bucket && this.codec == codec && store == map[]
    {
      this.enabled, this.bucket, this.codec, store := enabled, bucket, codec, map[];
    }

    /** The entry is read at `readAt` and its age taken at `checkAt`. */
    method GetMemberId(username: string, readAt: nat, checkAt: nat, fault: bool)
      returns (memberId: string, result: CacheResult, failed: bool)
      ensures result.hit ==>
        && enabled && MemberIdKey(username) in store && readAt < store[MemberIdKey(username)].created + bucket.ttl
        && memberId == store[MemberIdKey(username)].value
        && (result.stale <==> checkAt >= store[MemberIdKey(username)].created + 600_000)
      ensures !result.hit ==> memberId == "" && result == MISS
      ensures result.hit <==> enabled && Read(bucket, store, MemberIdKey(username), readAt, fault).Found?
      ensures failed <==> enabled && Read(bucket, store, MemberIdKey(username), readAt, fault).GetError?
    {
      if !enabled {
        return "", MISS, false;
      }
      match Read(bucket, store, MemberIdKey(username), readAt, fault)
      case NotFound => return "", MISS, false;
      case GetError => return "", MISS, true;
      case Found(entry) => return entry.value, CacheResult(true, IsStale(entry, checkAt)), false;
    }

    method PutMemberId(username: string, memberId: string, now: nat, fault: bool)
      modifies this`store
      ensures store == if enabled then Write(bucket, old(store), MemberIdKey(username), memberId, now, fault)
                       else old(store)
      ensures forall key :: key != MemberIdKey(username) ==>
        (key in store <==> key in old(store)) && (key in store ==> store[key] == old(store)[key])
    {
      if !enabled {
        return;
      }
      store := Write(bucket, store, MemberIdKey(username), memberId, now, fault);
    }

    /** An entry that does not decode counts as a miss, not as a failure. */
    method GetAffiliations(memberId: string, readAt: nat, checkAt: nat, fault: bool)
      returns (affiliations: seq<Affiliation>, result: CacheResult, failed: bool)
      ensures result.hit ==>
        && enabled && AffiliationsKey(memberId) in store
        && readAt < store[AffiliationsKey(memberId)].created + bucket.ttl
        && codec.decode(store[AffiliationsKey(memberId)].value) == Some(affiliations)
        && (result.stale <==> checkAt >= store[AffiliationsKey(memberId)].created + 600_000)
      ensures !result.hit ==> affiliations == [] && result == MISS
      ensures var r := Read(bucket, store, AffiliationsKey(memberId), readAt, fault);
              && (result.hit <==> enabled && r.Found? && codec.decode(r.entry.value).Some?)
              && (failed <==> enabled && r.GetError?)
    {
      if !enabled {
        return [], MISS, false;
      }
      match Read(bucket, store, AffiliationsKey(memberId), readAt, fault)
      case NotFound => return [], MISS, false;
      case GetError => return [], MISS, true;
      case Found(entry) =>
        match codec.decode(entry.value)
        case None => return [], MISS, false;
        case Some(list) => return list, CacheResult(true, IsStale(entry, checkAt)), false;
    }

    method PutAffiliations(memberId: string, affiliations: seq<Affiliation>, now: nat, fault: bool)
      modifies this`store
      ensures store ==
        if enabled then Write(bucket, old(store), AffiliationsKey(memberId), codec.encode(affiliations), now, fault)
        else old(store)
      ensures forall key :: key != AffiliationsKey(memberId) ==>
        (key in store <==> key in old(store)) && (key in store ==> store[key] == old(store)[key])
    {
      if !enabled {
        return;
      }
      store := Write(bucket, store, AffiliationsKey(memberId), codec.encode(affiliations), now, fault);
    }
  }

  /** What is put is what a fresh read gets, under the key it was put and no other of either family. */
  lemma PutThenGet(b: Bucket, store: Store, c: Codec, username: string, memberId: string, list: seq<Affiliation>,
                   now: nat)
    requires Faithful(c) && b.ttl > 0 && b.accepts(MemberIdKey(username)) && b.accepts(AffiliationsKey(memberId))
    ensures var s1 := Write(b, store, MemberIdKey(username), memberId, now, false);
            var s2 := Write(b, s1, AffiliationsKey(memberId), c.encode(list), now, false);
            && Read(b, s2, MemberIdKey(username), now, false) == Found(Entry(memberId, now))
            && Read(b, s2, AffiliationsKey(memberId), now, false).Found?
            && c.decode(Read(b, s2, AffiliationsKey(memberId), now, false).entry.value) == Some(list)
  {
    KeysDistinct(username, memberId);
  }
}
