/**
 sourceCDPRoles with its cache as a transition system: any number of requests and background
 refreshes interleave over one store while the clock runs, entries expire, and reads, writes
 and CDP calls fail.
 */
module CacheSystem {
  import opened PersonaModel
  import opened CdpSlugs
  import opened CdpCache

  /**
   The environment. `resolve` and `affiliations` say what CDP would answer at a given time;
   `lag` bounds the time between a CDP answer and the write that stores it.
   */
  datatype Env = Env(
    enabled: bool,
    bucket: Bucket,
    codec: Codec,
    lag: nat,
    resolve: (nat, string, string) -> string,
    affiliations: (nat, string) -> seq<Affiliation>)

  /** The affiliations a request ends with (none when CDP knows no such member), or an error. */
  datatype Result = Error | Answer(affiliations: seq<Affiliation>)

  /** Where a request is. A value fetched from CDP carries the time of the fetch. */
  datatype Pc =
    | ReadMember
    | CheckMember(entry: Entry, readAt: nat)
    | Resolve
    | PutMember(id: string, fetched: nat)
    | ReadAffs(id: string)
    | CheckAffs(id: string, list: seq<Affiliation>, entry: Entry, readAt: nat)
    | FetchAffs(id: string)
    | PutAffs(id: string, list: seq<Affiliation>, fetched: nat)
    | Finished(result: Result)

  /** A request and the time it began. */
  datatype Request = Request(username: string, email: string, begun: nat, pc: Pc)

  /** A background refresh goroutine. */
  datatype Refresh =
    | RefreshMember(username: string, email: string)
    | StoreMember(username: string, id: string, fetched: nat)
    | RefreshAffs(id: string)
    | StoreAffs(id: string, list: seq<Affiliation>, fetched: nat)
    | Ended

  datatype State = State(store: Store, now: nat, requests: seq<Request>, refreshes: seq<Refresh>)

  datatype Action =
    | Begin(username: string, email: string)
    | Tick(millis: nat)
    | Evict(key: string)
    | Advance(i: nat, fault: bool)
    | AdvanceRefresh(j: nat, fault: bool)

  const INIT := State(map[], 0, [], [])

  function Put(v: Env, store: Store, key: string, value: string, now: nat, fault: bool): Store {
    if v.enabled then Write(v.bucket, store, key, value, now, fault) else store
  }

  function Get(v: Env, store: Store, key: string, now: nat, fault: bool): GetReply {
    if v.enabled then Read(v.bucket, store, key, now, fault) else NotFound
  }

  /** One step of a request: where it goes, what it does to the store, and the refresh it starts. */
  datatype Effect = Effect(pc: Pc, store: Store, started: Option<Refresh>)

  function RequestEffect(v: Env, r: Request, store: Store, now: nat, fault: bool): Effect {
    match r.pc
    case ReadMember =>
      Effect(match Get(v, store, MemberIdKey(r.username), now, fault)
             case Found(e) => CheckMember(e, now) case _ => Resolve,
             store, None)
    case CheckMember(e, _) =>
      Effect(if e.value == "" then Finished(Answer([])) else ReadAffs(e.value),
             store, if IsStale(e, now) then Some(RefreshMember(r.username, r.email)) else None)
    case Resolve =>
      if fault then Effect(Finished(Error), store, None) else
        var id := v.resolve(now, r.username, r.email);
        Effect(if id == "" then Finished(Answer([])) else PutMember(id, now), store, None)
    case PutMember(id, _) =>
      Effect(ReadAffs(id), Put(v, store, MemberIdKey(r.username), id, now, fault), None)
    case ReadAffs(id) =>
      Effect(match Get(v, store, AffiliationsKey(id), now, fault)
             case Found(e) =>
               (match v.codec.decode(e.value) case None => FetchAffs(id) case Some(l) => CheckAffs(id, l, e, now))
             case _ => FetchAffs(id),
             store, None)
    case CheckAffs(id, list, e, _) =>
      Effect(Finished(Answer(list)), store, if IsStale(e, now) then Some(RefreshAffs(id)) else None)
    case FetchAffs(id) =>
      Effect(if fault then Finished(Error) else PutAffs(id, v.affiliations(now, id), now), store, None)
    case PutAffs(id, list, _) =>
      Effect(Finished(Answer(list)), Put(v, store, AffiliationsKey(id), v.codec.encode(list), now, fault), None)
    case Finished(_) =>
      Effect(r.pc, store, None)
  }

  datatype RefreshEffect = RefreshEffect(refresh: Refresh, store: Store)

  function RefreshStep(v: Env, g: Refresh, store: Store, now: nat, fault: bool): RefreshEffect {
    match g
    case RefreshMember(u, e) =>
      var id := v.resolve(now, u, e);
      RefreshEffect(if fault || id == "" then Ended else StoreMember(u, id, now), store)
    case StoreMember(u, id, _) =>
      RefreshEffect(Ended, Put(v, store, MemberIdKey(u), id, now, fault))
    case RefreshAffs(id) =>
      RefreshEffect(if fault then Ended else StoreAffs(id, v.affiliations(now, id), now), store)
    case StoreAffs(id, list, _) =>
      RefreshEffect(Ended, Put(v, store, AffiliationsKey(id), v.codec.encode(list), now, fault))
    case Ended =>
      RefreshEffect(Ended, store)
  }

  /** A write that succeeds does so within `lag` of the fetch. */
  predicate Enabled(v: Env, s: State, a: Action) {
    match a
    case Begin(_, _) => true
    case Tick(_) => true
    case Evict(_) => true
    case Advance(i, fault) =>
      i < |s.requests| && !s.requests[i].pc.Finished? &&
      (match s.requests[i].pc
       case PutMember(_, fetched) => fault || s.now <= fetched + v.lag
       case PutAffs(_, _, fetched) => fault || s.now <= fetched + v.lag
       case _ => true)
    case AdvanceRefresh(j, fault) =>
      j < |s.refreshes| && !s.refreshes[j].Ended? &&
      (match s.refreshes[j]
       case StoreMember(_, _, fetched) => fault || s.now <= fetched + v.lag
       case StoreAffs(_, _, fetched) => fault || s.now <= fetched + v.lag
       case _ => true)
  }

  function Step(v: Env, s: State, a: Action): State
    requires Enabled(v, s, a)
  {
    match a
    case Begin(u, e) => s.(requests := s.requests + [Request(u, e, s.now, ReadMember)])
    case Tick(d) => s.(now := s.now + d)
    case Evict(key) => s.(store := s.store - {key})
    case Advance(i, fault) =>
      var f := RequestEffect(v, s.requests[i], s.store, s.now, fault);
      s.(requests := s.requests[i := s.requests[i].(pc := f.pc)], store := f.store,
         refreshes := match f.started case None => s.refreshes case Some(g) => s.refreshes + [g])
    case AdvanceRefresh(j, fault) =>
      var f := RefreshStep(v, s.refreshes[j], s.store, s.now, fault);
      s.(refreshes := s.refreshes[j := f.refresh], store := f.store)
  }

  ghost predicate IsRun(v: Env, acts: seq<Action>)
    decreases |acts|, 0
  {
    acts == [] ||
    (IsRun(v, acts[..|acts| - 1]) && Enabled(v, After(v, acts[..|acts| - 1]), acts[|acts| - 1]))
  }

  ghost function After(v: Env, acts: seq<Action>): State
    requires IsRun(v, acts)
    decreases |acts|, 1
  {
    if acts == [] then INIT else Step(v, After(v, acts[..|acts| - 1]), acts[|acts| - 1])
  }

  lemma RunSnoc(v: Env, acts: seq<Action>, a: Action) returns (longer: seq<Action>)
    requires IsRun(v, acts) && Enabled(v, After(v, acts), a)
    ensures longer == acts + [a] && IsRun(v, longer) && After(v, longer) == Step(v, After(v, acts), a)
  {
    longer := acts + [a];
    assert longer[..|acts|] == acts;
  }

  /** A prefix of a run is a run. */
  lemma {:induction false} RunPrefix(v: Env, acts: seq<Action>, rest: seq<Action>)
    requires IsRun(v, acts + rest)
    ensures IsRun(v, acts)
    decreases |rest|
  {
    if rest == [] {
      assert acts + rest == acts;
    } else {
      assert (acts + rest)[..|acts + rest| - 1] == acts + rest[..|rest| - 1];
      RunPrefix(v, acts, rest[..|rest| - 1]);
    }
  }

  // ---------- the invariant: where every value came from ----------

  /** CDP answered `id` for this username at time `t`. */
  ghost predicate ResolvedAt(v: Env, username: string, id: string, t: nat) {
    id != "" && exists e :: v.resolve(t, username, e) == id
  }

  /** The entry was written within `lag` of a CDP answer for this username. */
  ghost predicate MemberEntry(v: Env, username: string, e: Entry) {
    exists t: nat :: t <= e.created <= t + v.lag && ResolvedAt(v, username, e.value, t)
  }

  /** CDP listed the affiliations behind `value` for this member at time `t`. */
  ghost predicate ListedAt(v: Env, id: string, value: string, t: nat) {
    value == v.codec.encode(v.affiliations(t, id))
  }

  ghost predicate AffsEntry(v: Env, id: string, e: Entry) {
    exists t: nat :: t <= e.created <= t + v.lag && ListedAt(v, id, e.value, t)
  }

  ghost predicate KeyOf(v: Env, key: string, e: Entry) {
    || (exists u :: key == MemberIdKey(u) && MemberEntry(v, u, e))
    || (exists id :: key == AffiliationsKey(id) && AffsEntry(v, id, e))
  }

  /** Every stored value came from CDP, for the very key it is stored under. */
  ghost predicate Sourced(v: Env, s: State) {
    forall key :: key in s.store ==>
      v.enabled && v.bucket.accepts(key) && s.store[key].created <= s.now && KeyOf(v, key, s.store[key])
  }

  /** The request may use the cache for its username. */
  predicate Cacheable(v: Env, username: string) {
    v.enabled && v.bucket.accepts(MemberIdKey(username))
  }

  /** A CDP answer of time `t` that the request may still get: recent enough when the request began. */
  predicate Recent(v: Env, r: Request, t: nat, now: nat) {
    r.begun <= t + v.bucket.ttl + v.lag && t <= now
  }

  /**
   CDP answered `id` for this username at `t`, and for the request's own email unless the answer may
   have come through the cache.
   */
  ghost predicate IdentifiedAt(v: Env, r: Request, id: string, t: nat) {
    id != "" && exists e :: v.resolve(t, r.username, e) == id && (e == r.email || Cacheable(v, r.username))
  }

  ghost predicate Identified(v: Env, r: Request, id: string, now: nat) {
    exists t: nat :: Recent(v, r, t, now) && IdentifiedAt(v, r, id, t)
  }

  ghost predicate ListedAnswer(v: Env, r: Request, id: string, list: seq<Affiliation>, now: nat) {
    Identified(v, r, id, now) && exists t: nat :: Recent(v, r, t, now) && list == v.affiliations(t, id)
  }

  /** CDP knew no member while the request ran. */
  ghost predicate Unknown(v: Env, r: Request, now: nat) {
    exists t: nat :: r.begun <= t <= now && v.resolve(t, r.username, r.email) == ""
  }

  ghost predicate Answered(v: Env, r: Request, list: seq<Affiliation>, now: nat) {
    (list == [] && Unknown(v, r, now)) || exists id :: ListedAnswer(v, r, id, list, now)
  }

  ghost predicate Genuine(v: Env, r: Request, now: nat) {
    r.begun <= now &&
    match r.pc
    case CheckMember(e, readAt) =>
      Cacheable(v, r.username) && MemberEntry(v, r.username, e)
      && e.created <= readAt <= now && r.begun <= readAt < e.created + v.bucket.ttl
    case PutMember(id, fetched) =>
      r.begun <= fetched <= now && id != "" && id == v.resolve(fetched, r.username, r.email)
    case ReadAffs(id) => Identified(v, r, id, now)
    case CheckAffs(id, list, e, readAt) =>
      Identified(v, r, id, now) && AffsEntry(v, id, e) && v.codec.decode(e.value) == Some(list)
      && e.created <= readAt <= now && r.begun <= readAt < e.created + v.bucket.ttl
    case FetchAffs(id) => Identified(v, r, id, now)
    case PutAffs(id, list, fetched) =>
      Identified(v, r, id, now) && r.begun <= fetched <= now && list == v.affiliations(fetched, id)
    case Finished(Answer(list)) => Answered(v, r, list, now)
    case _ => true
  }

  ghost predicate GenuineRefresh(v: Env, g: Refresh, now: nat) {
    match g
    case StoreMember(u, id, fetched) => fetched <= now && ResolvedAt(v, u, id, fetched)
    case StoreAffs(id, list, fetched) => fetched <= now && list == v.affiliations(fetched, id)
    case _ => true
  }

  ghost predicate Inv(v: Env, s: State) {
    && Sourced(v, s)
    && (forall i :: 0 <= i < |s.requests| ==> Genuine(v, s.requests[i], s.now))
    && (forall j :: 0 <= j < |s.refreshes| ==> GenuineRefresh(v, s.refreshes[j], s.now))
  }

  // ---------- every step keeps it ----------

  lemma MemberRead(v: Env, s: State, u: string)
    requires Sourced(v, s) && MemberIdKey(u) in s.store
    ensures MemberEntry(v, u, s.store[MemberIdKey(u)])
  {
    var key := MemberIdKey(u);
    assert KeyOf(v, key, s.store[key]);
    if u' :| key == MemberIdKey(u') && MemberEntry(v, u', s.store[key]) {
      KeysDistinct(u, u');
    } else {
      var id :| key == AffiliationsKey(id) && AffsEntry(v, id, s.store[key]);
      KeysDistinct(u, id);
      assert false;
    }
  }

  lemma AffsRead(v: Env, s: State, id: string)
    requires Sourced(v, s) && AffiliationsKey(id) in s.store
    ensures AffsEntry(v, id, s.store[AffiliationsKey(id)])
  {
    var key := AffiliationsKey(id);
    assert KeyOf(v, key, s.store[key]);
    if id' :| key == AffiliationsKey(id') && AffsEntry(v, id', s.store[key]) {
      KeysDistinct(id, id');
    } else {
      var u :| key == MemberIdKey(u) && MemberEntry(v, u, s.store[key]);
      KeysDistinct(u, id);
      assert false;
    }
  }

  lemma MemberWrite(v: Env, s: State, u: string, id: string, fetched: nat, fault: bool)
    requires Sourced(v, s) && ResolvedAt(v, u, id, fetched) && fetched <= s.now && (fault || s.now <= fetched + v.lag)
    ensures Sourced(v, s.(store := Put(v, s.store, MemberIdKey(u), id, s.now, fault)))
  {
    if v.enabled && !fault && v.bucket.accepts(MemberIdKey(u)) {
      assert MemberEntry(v, u, Entry(id, s.now));
      assert KeyOf(v, MemberIdKey(u), Entry(id, s.now));
    }
  }

  lemma AffsWrite(v: Env, s: State, id: string, list: seq<Affiliation>, fetched: nat, fault: bool)
    requires Sourced(v, s) && list == v.affiliations(fetched, id)
    requires fetched <= s.now && (fault || s.now <= fetched + v.lag)
    ensures Sourced(v, s.(store := Put(v, s.store, AffiliationsKey(id), v.codec.encode(list), s.now, fault)))
  {
    if v.enabled && !fault && v.bucket.accepts(AffiliationsKey(id)) {
      var e := Entry(v.codec.encode(list), s.now);
      assert ListedAt(v, id, e.value, fetched);
      assert AffsEntry(v, id, e);
      assert KeyOf(v, AffiliationsKey(id), e);
    }
  }

  /** A member hit identifies the member: its CDP answer is at most ttl + lag older than the request. */
  lemma HitIdentifies(v: Env, r: Request, e: Entry, now: nat)
    requires r.pc.CheckMember? && r.pc.entry == e && Genuine(v, r, now)
    ensures e.value != "" && Identified(v, r.(pc := ReadAffs(e.value)), e.value, now)
  {
    var t: nat :| t <= e.created <= t + v.lag && ResolvedAt(v, r.username, e.value, t);
    var r' := r.(pc := ReadAffs(e.value));
    assert IdentifiedAt(v, r', e.value, t);
    assert Recent(v, r', t, now);
  }

  lemma FetchIdentifies(v: Env, r: Request, id: string, now: nat)
    requires r.pc.PutMember? && r.pc.id == id && Genuine(v, r, now)
    ensures Identified(v, r.(pc := ReadAffs(id)), id, now)
  {
    var r' := r.(pc := ReadAffs(id));
    assert IdentifiedAt(v, r', id, r.pc.fetched);
    assert Recent(v, r', r.pc.fetched, now);
  }

  lemma SameIdentity(v: Env, r: Request, pc: Pc, id: string, now: nat)
    requires Identified(v, r, id, now)
    ensures Identified(v, r.(pc := pc), id, now)
  {
    var t: nat :| Recent(v, r, t, now) && IdentifiedAt(v, r, id, t);
    assert IdentifiedAt(v, r.(pc := pc), id, t) && Recent(v, r.(pc := pc), t, now);
  }

  /** An affiliations hit answers with CDP's list of some recent enough time. */
  lemma HitAnswers(v: Env, r: Request, now: nat)
    requires Faithful(v.codec) && r.pc.CheckAffs? && Genuine(v, r, now)
    ensures Answered(v, r.(pc := Finished(Answer(r.pc.list))), r.pc.list, now)
  {
    var t: nat :| t <= r.pc.entry.created <= t + v.lag && ListedAt(v, r.pc.id, r.pc.entry.value, t);
    var r' := r.(pc := Finished(Answer(r.pc.list)));
    SameIdentity(v, r, r'.pc, r.pc.id, now);
    assert Recent(v, r', t, now) && r.pc.list == v.affiliations(t, r.pc.id);
    assert ListedAnswer(v, r', r.pc.id, r.pc.list, now);
  }

  lemma FetchAnswers(v: Env, r: Request, now: nat)
    requires r.pc.PutAffs? && Genuine(v, r, now)
    ensures Answered(v, r.(pc := Finished(Answer(r.pc.list))), r.pc.list, now)
  {
    var r' := r.(pc := Finished(Answer(r.pc.list)));
    SameIdentity(v, r, r'.pc, r.pc.id, now);
    assert Recent(v, r', r.pc.fetched, now);
    assert ListedAnswer(v, r', r.pc.id, r.pc.list, now);
  }

  /** Time passing keeps what a request holds genuine. */
  lemma LaterGenuine(v: Env, r: Request, now: nat, later: nat)
    requires Genuine(v, r, now) && now <= later
    ensures Genuine(v, r, later)
  {
    match r.pc
    case ReadAffs(id) => LaterIdentified(v, r, now, later);
    case CheckAffs(id, _, _, _) => LaterIdentified(v, r, now, later);
    case FetchAffs(id) => LaterIdentified(v, r, now, later);
    case PutAffs(id, _, _) => LaterIdentified(v, r, now, later);
    case Finished(Answer(list)) => LaterAnswered(v, r, list, now, later);
    case _ =>
  }

  lemma LaterIdentified(v: Env, r: Request, now: nat, later: nat)
    requires now <= later
    ensures forall id :: Identified(v, r, id, now) ==> Identified(v, r, id, later)
  {
    forall id | Identified(v, r, id, now)
      ensures Identified(v, r, id, later)
    {
      var t: nat :| Recent(v, r, t, now) && IdentifiedAt(v, r, id, t);
      assert Recent(v, r, t, later);
    }
  }

  lemma LaterAnswered(v: Env, r: Request, list: seq<Affiliation>, now: nat, later: nat)
    requires now <= later && Answered(v, r, list, now)
    ensures Answered(v, r, list, later)
  {
    if id :| ListedAnswer(v, r, id, list, now) {
      LaterIdentified(v, r, now, later);
      var t: nat :| Recent(v, r, t, now) && list == v.affiliations(t, id);
      assert Recent(v, r, t, later);
      assert ListedAnswer(v, r, id, list, later);
    } else {
      var t: nat :| r.begun <= t <= now && v.resolve(t, r.username, r.email) == "";
      assert Unknown(v, r, later);
    }
  }

  lemma ReadMemberGenuine(v: Env, s: State, r: Request, fault: bool)
    requires Sourced(v, s) && r.begun <= s.now && r.pc.ReadMember?
    ensures Genuine(v, r.(pc := RequestEffect(v, r, s.store, s.now, fault).pc), s.now)
  {
    if MemberIdKey(r.username) in s.store {
      MemberRead(v, s, r.username);
    }
  }

  lemma ReadAffsGenuine(v: Env, s: State, r: Request, fault: bool)
    requires Sourced(v, s) && Genuine(v, r, s.now) && r.pc.ReadAffs?
    ensures Genuine(v, r.(pc := RequestEffect(v, r, s.store, s.now, fault).pc), s.now)
  {
    if AffiliationsKey(r.pc.id) in s.store {
      AffsRead(v, s, r.pc.id);
    }
    SameIdentity(v, r, RequestEffect(v, r, s.store, s.now, fault).pc, r.pc.id, s.now);
  }

  lemma ResolveGenuine(v: Env, s: State, r: Request, fault: bool)
    requires r.begun <= s.now && r.pc.Resolve?
    ensures Genuine(v, r.(pc := RequestEffect(v, r, s.store, s.now, fault).pc), s.now)
  {
    assert v.resolve(s.now, r.username, r.email) == "" ==> Unknown(v, r.(pc := Finished(Answer([]))), s.now);
  }

  /** The request's half of one step: what it holds afterwards is genuine. */
  lemma RequestMoveGenuine(v: Env, s: State, r: Request, fault: bool)
    requires Faithful(v.codec) && Sourced(v, s) && Genuine(v, r, s.now)
    ensures Genuine(v, r.(pc := RequestEffect(v, r, s.store, s.now, fault).pc), s.now)
  {
    match r.pc
    case ReadMember => ReadMemberGenuine(v, s, r, fault);
    case CheckMember(e, _) => HitIdentifies(v, r, e, s.now);
    case Resolve => ResolveGenuine(v, s, r, fault);
    case PutMember(id, _) => FetchIdentifies(v, r, id, s.now);
    case ReadAffs(_) => ReadAffsGenuine(v, s, r, fault);
    case CheckAffs(_, _, _, _) => HitAnswers(v, r, s.now);
    case FetchAffs(id) => SameIdentity(v, r, RequestEffect(v, r, s.store, s.now, fault).pc, id, s.now);
    case PutAffs(_, _, _) => FetchAnswers(v, r, s.now);
    case Finished(_) =>
  }

  /** The store's half: a request's write is of a value it got from CDP in time. */
  lemma RequestWriteSourced(v: Env, s: State, i: nat, fault: bool)
    requires Inv(v, s) && Enabled(v, s, Advance(i, fault))
    ensures Sourced(v, s.(store := RequestEffect(v, s.requests[i], s.store, s.now, fault).store))
  {
    var r := s.requests[i];
    assert Genuine(v, r, s.now);
    match r.pc
    case PutMember(id, fetched) =>
      assert ResolvedAt(v, r.username, id, fetched);
      MemberWrite(v, s, r.username, id, fetched, fault);
    case PutAffs(id, list, fetched) => AffsWrite(v, s, id, list, fetched, fault);
    case _ =>
  }

  lemma RefreshStepGenuine(v: Env, s: State, j: nat, fault: bool)
    requires Inv(v, s) && Enabled(v, s, AdvanceRefresh(j, fault))
    ensures var f := RefreshStep(v, s.refreshes[j], s.store, s.now, fault);
            GenuineRefresh(v, f.refresh, s.now) && Sourced(v, s.(store := f.store))
  {
    assert GenuineRefresh(v, s.refreshes[j], s.now);
    match s.refreshes[j]
    case RefreshMember(_, _) =>
    case StoreMember(u, id, fetched) => MemberWrite(v, s, u, id, fetched, fault);
    case RefreshAffs(_) =>
    case StoreAffs(id, list, fetched) => AffsWrite(v, s, id, list, fetched, fault);
  }

  lemma TickGenuine(v: Env, s: State, later: nat)
    requires Inv(v, s) && s.now <= later
    ensures forall i :: 0 <= i < |s.requests| ==> Genuine(v, s.requests[i], later)
  {
    forall i | 0 <= i < |s.requests|
      ensures Genuine(v, s.requests[i], later)
    {
      LaterGenuine(v, s.requests[i], s.now, later);
    }
  }

  lemma TickKeeps(v: Env, s: State, d: nat)
    requires Inv(v, s)
    ensures Inv(v, Step(v, s, Tick(d)))
  {
    TickGenuine(v, s, s.now + d);
  }

  lemma AdvanceKeeps(v: Env, s: State, i: nat, fault: bool)
    requires Faithful(v.codec) && Inv(v, s) && Enabled(v, s, Advance(i, fault))
    ensures Inv(v, Step(v, s, Advance(i, fault)))
  {
    RequestMoveGenuine(v, s, s.requests[i], fault);
    RequestWriteSourced(v, s, i, fault);
  }

  lemma AdvanceRefreshKeeps(v: Env, s: State, j: nat, fault: bool)
    requires Inv(v, s) && Enabled(v, s, AdvanceRefresh(j, fault))
    ensures Inv(v, Step(v, s, AdvanceRefresh(j, fault)))
  {
    RefreshStepGenuine(v, s, j, fault);
  }

  lemma EvictKeeps(v: Env, s: State, key: string)
    requires Inv(v, s)
    ensures Inv(v, Step(v, s, Evict(key)))
  {}

  lemma BeginKeeps(v: Env, s: State, u: string, e: string)
    requires Inv(v, s)
    ensures Inv(v, Step(v, s, Begin(u, e)))
  {}

  lemma InvStep(v: Env, s: State, a: Action)
    requires Faithful(v.codec) && Inv(v, s) && Enabled(v, s, a)
    ensures Inv(v, Step(v, s, a))
  {
    match a
    case Begin(u, e) => BeginKeeps(v, s, u, e);
    case Tick(d) => TickKeeps(v, s, d);
    case Evict(key) => EvictKeeps(v, s, key);
    case Advance(i, fault) => AdvanceKeeps(v, s, i, fault);
    case AdvanceRefresh(j, fault) => AdvanceRefreshKeeps(v, s, j, fault);
  }

  lemma {:induction false} InvAlways(v: Env, acts: seq<Action>)
    requires Faithful(v.codec) && IsRun(v, acts)
    ensures Inv(v, After(v, acts))
    decreases |acts|
  {
    if acts != [] {
      InvAlways(v, acts[..|acts| - 1]);
      InvStep(v, After(v, acts[..|acts| - 1]), acts[|acts| - 1]);
    }
  }
}
