/** What the cache guarantees over all runs: provenance, age, and agreement with the uncached flow. */
module CacheTheorems {
  import opened PersonaModel
  import opened CdpSlugs
  import opened CdpCache
  import opened CacheSystem

  // ---------- provenance and age ----------

  /** CDP answered this member ID for this username at `t`, at most `lag` before the entry was stored. */
  ghost predicate MemberSource(v: Env, username: string, e: Entry, t: nat) {
    t <= e.created <= t + v.lag && e.value != "" && exists email :: v.resolve(t, username, email) == e.value
  }

  ghost predicate AffsSource(v: Env, id: string, e: Entry, t: nat) {
    t <= e.created <= t + v.lag && v.codec.decode(e.value) == Some(v.affiliations(t, id))
  }

  /** Every stored value was CDP's answer for the key it is under; no empty member ID is ever stored. */
  lemma CacheProvenance(v: Env, acts: seq<Action>, username: string, id: string)
    requires Faithful(v.codec) && IsRun(v, acts)
    ensures var store := After(v, acts).store;
            && (MemberIdKey(username) in store ==>
                  exists t: nat :: MemberSource(v, username, store[MemberIdKey(username)], t))
            && (AffiliationsKey(id) in store ==>
                  exists t: nat :: AffsSource(v, id, store[AffiliationsKey(id)], t))
  {
    InvAlways(v, acts);
    var s := After(v, acts);
    if MemberIdKey(username) in s.store {
      MemberRead(v, s, username);
      MemberEntrySource(v, username, s.store[MemberIdKey(username)]);
    }
    if AffiliationsKey(id) in s.store {
      AffsRead(v, s, id);
      AffsEntrySource(v, id, s.store[AffiliationsKey(id)]);
    }
  }

  lemma MemberEntrySource(v: Env, username: string, e: Entry)
    requires MemberEntry(v, username, e)
    ensures exists t: nat :: MemberSource(v, username, e, t)
  {
    var t: nat :| t <= e.created <= t + v.lag && ResolvedAt(v, username, e.value, t);
    assert MemberSource(v, username, e, t);
  }

  lemma AffsEntrySource(v: Env, id: string, e: Entry)
    requires Faithful(v.codec) && AffsEntry(v, id, e)
    ensures exists t: nat :: AffsSource(v, id, e, t)
  {
    var t: nat :| t <= e.created <= t + v.lag && ListedAt(v, id, e.value, t);
    assert AffsSource(v, id, e, t);
  }

  /**
   A hit is CDP's answer of less than ttl + lag before the read; and one that is served
   without a refresh is CDP's answer of less than ten minutes + lag before the check.
   */
  lemma MemberHitAge(v: Env, acts: seq<Action>, i: nat)
    requires Faithful(v.codec) && IsRun(v, acts)
    requires i < |After(v, acts).requests| && After(v, acts).requests[i].pc.CheckMember?
    ensures var s := After(v, acts);
            var r := s.requests[i];
            exists t: nat ::
              && MemberSource(v, r.username, r.pc.entry, t)
              && t <= r.pc.readAt < t + v.bucket.ttl + v.lag
              && (!IsStale(r.pc.entry, s.now) ==> s.now < t + FRESH_THRESHOLD + v.lag)
  {
    InvAlways(v, acts);
    var r := After(v, acts).requests[i];
    assert Genuine(v, r, After(v, acts).now);
    var t: nat :| t <= r.pc.entry.created <= t + v.lag && ResolvedAt(v, r.username, r.pc.entry.value, t);
    assert MemberSource(v, r.username, r.pc.entry, t);
  }

  lemma AffiliationsHitAge(v: Env, acts: seq<Action>, i: nat)
    requires Faithful(v.codec) && IsRun(v, acts)
    requires i < |After(v, acts).requests| && After(v, acts).requests[i].pc.CheckAffs?
    ensures var s := After(v, acts);
            var pc := s.requests[i].pc;
            exists t: nat ::
              && AffsSource(v, pc.id, pc.entry, t) && pc.list == v.affiliations(t, pc.id)
              && t <= pc.readAt < t + v.bucket.ttl + v.lag
              && (!IsStale(pc.entry, s.now) ==> s.now < t + FRESH_THRESHOLD + v.lag)
  {
    InvAlways(v, acts);
    var r := After(v, acts).requests[i];
    assert Genuine(v, r, After(v, acts).now);
    var t: nat :| t <= r.pc.entry.created <= t + v.lag && ListedAt(v, r.pc.id, r.pc.entry.value, t);
    assert AffsSource(v, r.pc.id, r.pc.entry, t);
  }

  /**
   End to end, with answers that change over time: the affiliations a request ends with are CDP's
   list, of a time at most ttl + lag before the request began, for a member ID that CDP gave this
   username at such a time; or CDP knew no member while the request ran.
   */
  lemma AnswerAge(v: Env, acts: seq<Action>, i: nat) returns (id: string, t1: nat, t2: nat)
    requires Faithful(v.codec) && IsRun(v, acts) && i < |After(v, acts).requests|
    requires After(v, acts).requests[i].pc.Finished? && After(v, acts).requests[i].pc.result.Answer?
    ensures AnswerOf(v, After(v, acts).requests[i], After(v, acts).now, id, t1, t2)
  {
    InvAlways(v, acts);
    var r, now := After(v, acts).requests[i], After(v, acts).now;
    var list := r.pc.result.affiliations;
    assert Genuine(v, r, now);
    if id' :| ListedAnswer(v, r, id', list, now) {
      id := id';
      t1 :| Recent(v, r, t1, now) && IdentifiedAt(v, r, id, t1);
      t2 :| Recent(v, r, t2, now) && list == v.affiliations(t2, id);
    } else {
      id, t2 := "", 0;
      t1 :| r.begun <= t1 <= now && v.resolve(t1, r.username, r.email) == "";
    }
  }

  /** `id` and the answer are what CDP said at `t1` and `t2`; an empty `id` is an unknown member. */
  ghost predicate AnswerOf(v: Env, r: Request, now: nat, id: string, t1: nat, t2: nat)
    requires r.pc.Finished? && r.pc.result.Answer?
  {
    if id == "" then
      r.begun <= t1 <= now && v.resolve(t1, r.username, r.email) == "" && r.pc.result.affiliations == []
    else
      && r.begun <= t1 + v.bucket.ttl + v.lag && t1 <= now
      && r.begun <= t2 + v.bucket.ttl + v.lag && t2 <= now
      && (exists e :: v.resolve(t1, r.username, e) == id && (e == r.email || Cacheable(v, r.username)))
      && r.pc.result.affiliations == v.affiliations(t2, id)
  }

  // ---------- stale while revalidate ----------

  /** Request `i` is about to find its entry stale. */
  ghost predicate AtStaleHit(s: State, i: nat) {
    i < |s.requests| &&
    match s.requests[i].pc
    case CheckMember(e, _) => IsStale(e, s.now)
    case CheckAffs(_, _, e, _) => IsStale(e, s.now)
    case _ => false
  }

  /** What is refreshed on behalf of a request at a stale hit. */
  function RefreshFor(r: Request): Refresh {
    match r.pc
    case CheckMember(_, _) => RefreshMember(r.username, r.email)
    case CheckAffs(id, _, _, _) => RefreshAffs(id)
    case _ => Ended
  }

  /** What the cached entry lets the request do. */
  function ServedPc(r: Request): Pc {
    match r.pc
    case CheckMember(e, _) => if e.value == "" then Finished(Answer([])) else ReadAffs(e.value)
    case CheckAffs(_, list, _, _) => Finished(Answer(list))
    case _ => r.pc
  }

  /** Only request `i` has moved, to `pc`; the store is as it was. */
  ghost predicate Served(s: State, s': State, i: nat, pc: Pc) {
    && s'.store == s.store && s'.now == s.now && i < |s.requests|
    && s'.requests == s.requests[i := s.requests[i].(pc := pc)]
  }

  /** `g` is the refresh `start`, at some later point of its life: what it holds, CDP said at or after `since`. */
  ghost predicate Pursues(v: Env, g: Refresh, start: Refresh, since: nat) {
    || g == start || g.Ended?
    || (start.RefreshMember? && g.StoreMember? && g.username == start.username && since <= g.fetched
        && g.id == v.resolve(g.fetched, start.username, start.email) && g.id != "")
    || (start.RefreshAffs? && g.StoreAffs? && g.id == start.id && since <= g.fetched
        && g.list == v.affiliations(g.fetched, start.id))
  }

  /** The refresh writes CDP's answer of a time since `since` under the key it was started for, fresh as of now. */
  ghost predicate Renews(v: Env, s: State, s': State, start: Refresh, since: nat) {
    exists fetched: nat :: since <= fetched <= s.now <= fetched + v.lag && RenewsAt(v, s, s', start, fetched)
  }

  ghost predicate RenewsAt(v: Env, s: State, s': State, start: Refresh, fetched: nat) {
    match start
    case RefreshMember(u, e) =>
      s'.store == s.store[MemberIdKey(u) := Entry(v.resolve(fetched, u, e), s.now)]
      && !IsStale(s'.store[MemberIdKey(u)], s'.now)
    case RefreshAffs(id) =>
      s'.store == s.store[AffiliationsKey(id) := Entry(v.codec.encode(v.affiliations(fetched, id)), s.now)]
      && !IsStale(s'.store[AffiliationsKey(id)], s'.now)
    case _ => false
  }

  function KeyFor(start: Refresh): string {
    match start
    case RefreshMember(u, _) => MemberIdKey(u)
    case RefreshAffs(id) => AffiliationsKey(id)
    case _ => ""
  }

  /** Whatever happens in between, refresh number `j` goes on pursuing what it was started for. */
  lemma {:induction false} RefreshGoesOn(v: Env, acts: seq<Action>, rest: seq<Action>, j: nat, start: Refresh,
                                         since: nat)
    requires IsRun(v, acts) && IsRun(v, acts + rest)
    requires j < |After(v, acts).refreshes| && Pursues(v, After(v, acts).refreshes[j], start, since)
    requires since <= After(v, acts).now
    ensures j < |After(v, acts + rest).refreshes| && Pursues(v, After(v, acts + rest).refreshes[j], start, since)
    ensures since <= After(v, acts + rest).now
    decreases |rest|
  {
    if rest == [] {
      assert acts + rest == acts;
    } else {
      var front, a := rest[..|rest| - 1], rest[|rest| - 1];
      assert (acts + rest)[..|acts + rest| - 1] == acts + front;
      RefreshGoesOn(v, acts, front, j, start, since);
      PursuitStep(v, After(v, acts + front), a, j, start, since);
    }
  }

  lemma PursuitStep(v: Env, s: State, a: Action, j: nat, start: Refresh, since: nat)
    requires Enabled(v, s, a)
    requires j < |s.refreshes| && Pursues(v, s.refreshes[j], start, since) && since <= s.now
    ensures j < |Step(v, s, a).refreshes| && Pursues(v, Step(v, s, a).refreshes[j], start, since)
    ensures since <= Step(v, s, a).now
  {}

  /** A stale hit is served from the cache at once and starts the refresh for its own key. */
  lemma StaleHitServes(v: Env, acts: seq<Action>, i: nat, fault: bool)
    requires IsRun(v, acts + [Advance(i, fault)]) && IsRun(v, acts) && AtStaleHit(After(v, acts), i)
    ensures var s, s' := After(v, acts), After(v, acts + [Advance(i, fault)]);
            && Served(s, s', i, ServedPc(s.requests[i]))
            && s'.refreshes == s.refreshes + [RefreshFor(s.requests[i])]
  {
    assert (acts + [Advance(i, fault)])[..|acts|] == acts;
  }

  /**
   A stale hit never waits for CDP: whatever fails, the request goes on at once. From a member hit it
   takes the member ID, from an affiliations hit its final answer; either is what CDP said, less
   than ttl + lag before the entry was read.
   */
  lemma StaleHitAnswers(v: Env, acts: seq<Action>, i: nat, fault: bool) returns (longer: seq<Action>)
    requires Faithful(v.codec) && IsRun(v, acts) && AtStaleHit(After(v, acts), i)
    ensures longer == acts + [Advance(i, fault)] && IsRun(v, longer)
    ensures var r, r' := After(v, acts).requests[i], After(v, longer).requests[i];
            match r.pc
            case CheckMember(e, readAt) =>
              && r'.pc == ReadAffs(e.value)
              && exists t: nat :: MemberSource(v, r.username, e, t) && t <= readAt < t + v.bucket.ttl + v.lag
            case CheckAffs(id, list, e, readAt) =>
              && r'.pc == Finished(Answer(list))
              && exists t: nat :: list == v.affiliations(t, id) && t <= readAt < t + v.bucket.ttl + v.lag
            case _ => false
  {
    longer := RunSnoc(v, acts, Advance(i, fault));
    StaleHitServes(v, acts, i, fault);
    if After(v, acts).requests[i].pc.CheckMember? {
      MemberHitAge(v, acts, i);
    } else {
      AffiliationsHitAge(v, acts, i);
    }
  }

  /**
   In every run that follows a stale hit, the refresh it started still pursues the same key with
   the same username and email; and wherever its write goes through, the key's entry becomes
   CDP's answer of a time since the hit, and is not stale.
   */
  lemma StaleHitRevalidates(v: Env, acts: seq<Action>, i: nat, fault: bool, rest: seq<Action>)
    requires Faithful(v.codec) && v.enabled
    requires IsRun(v, acts) && AtStaleHit(After(v, acts), i)
    requires IsRun(v, acts + [Advance(i, fault)] + rest)
    ensures var j, s := |After(v, acts).refreshes|, After(v, acts + [Advance(i, fault)] + rest);
            var start, since := RefreshFor(After(v, acts).requests[i]), After(v, acts).now;
            && j < |s.refreshes| && Pursues(v, s.refreshes[j], start, since)
            && ((s.refreshes[j].StoreMember? || s.refreshes[j].StoreAffs?) && v.bucket.accepts(KeyFor(start))
                && Enabled(v, s, AdvanceRefresh(j, false)) ==>
                  Renews(v, s, Step(v, s, AdvanceRefresh(j, false)), start, since))
  {
    var first := acts + [Advance(i, fault)];
    RunPrefix(v, first, rest);
    StaleHitServes(v, acts, i, fault);
    var j, start, since := |After(v, acts).refreshes|, RefreshFor(After(v, acts).requests[i]), After(v, acts).now;
    RefreshGoesOn(v, first, rest, j, start, since);
    InvAlways(v, first + rest);
    var s := After(v, first + rest);
    assert GenuineRefresh(v, s.refreshes[j], s.now);
    if (s.refreshes[j].StoreMember? || s.refreshes[j].StoreAffs?) && v.bucket.accepts(KeyFor(start))
       && Enabled(v, s, AdvanceRefresh(j, false)) {
      assert RenewsAt(v, s, Step(v, s, AdvanceRefresh(j, false)), start, s.refreshes[j].fetched);
    }
  }

  /** And the write can go through: two steps of the refresh renew the entry. */
  lemma RefreshCanComplete(v: Env, acts: seq<Action>, j: nat) returns (renewed: seq<Action>)
    requires IsRun(v, acts) && v.enabled && j < |After(v, acts).refreshes|
    requires After(v, acts).refreshes[j].RefreshMember? || After(v, acts).refreshes[j].RefreshAffs?
    requires After(v, acts).refreshes[j].RefreshMember? ==>
      v.resolve(After(v, acts).now, After(v, acts).refreshes[j].username, After(v, acts).refreshes[j].email) != ""
    requires v.bucket.accepts(KeyFor(After(v, acts).refreshes[j]))
    ensures IsRun(v, renewed) && acts < renewed
    ensures Renews(v, After(v, acts), After(v, renewed), After(v, acts).refreshes[j], After(v, acts).now)
  {
    renewed := RunSnoc(v, acts, AdvanceRefresh(j, false));
    renewed := RunSnoc(v, renewed, AdvanceRefresh(j, false));
    assert RenewsAt(v, After(v, acts), After(v, renewed), After(v, acts).refreshes[j], After(v, acts).now);
  }

  // ---------- what a miss leaves behind, and what it saves ----------

  /** The write at the end of a member miss stores CDP's answer of the fetch, stamped now, and nothing else. */
  lemma MissStoresMember(v: Env, acts: seq<Action>, i: nat)
    requires Faithful(v.codec) && IsRun(v, acts) && IsRun(v, acts + [Advance(i, false)])
    requires i < |After(v, acts).requests| && After(v, acts).requests[i].pc.PutMember?
    requires Cacheable(v, After(v, acts).requests[i].username)
    ensures var s, r := After(v, acts), After(v, acts).requests[i];
            var id := v.resolve(r.pc.fetched, r.username, r.email);
            && id != "" && r.begun <= r.pc.fetched <= s.now
            && After(v, acts + [Advance(i, false)]).store == s.store[MemberIdKey(r.username) := Entry(id, s.now)]
  {
    InvAlways(v, acts);
    assert Genuine(v, After(v, acts).requests[i], After(v, acts).now);
    assert (acts + [Advance(i, false)])[..|acts|] == acts;
  }

  /** The write at the end of an affiliations miss stores CDP's list of the fetch. */
  lemma MissStoresAffiliations(v: Env, acts: seq<Action>, i: nat)
    requires Faithful(v.codec) && IsRun(v, acts) && IsRun(v, acts + [Advance(i, false)])
    requires i < |After(v, acts).requests| && After(v, acts).requests[i].pc.PutAffs?
    requires v.enabled && v.bucket.accepts(AffiliationsKey(After(v, acts).requests[i].pc.id))
    ensures var s, r := After(v, acts), After(v, acts).requests[i];
            var list := v.affiliations(r.pc.fetched, r.pc.id);
            && r.begun <= r.pc.fetched <= s.now
            && After(v, acts + [Advance(i, false)]).store ==
               s.store[AffiliationsKey(r.pc.id) := Entry(v.codec.encode(list), s.now)]
  {
    InvAlways(v, acts);
    assert Genuine(v, After(v, acts).requests[i], After(v, acts).now);
    assert (acts + [Advance(i, false)])[..|acts|] == acts;
  }

  /** The store can serve this member ID for the username. */
  predicate MemberCached(v: Env, store: Store, username: string, now: nat, id: string) {
    && Cacheable(v, username) && MemberIdKey(username) in store
    && now < store[MemberIdKey(username)].created + v.bucket.ttl && store[MemberIdKey(username)].value == id
  }

  predicate ListCached(v: Env, store: Store, id: string, now: nat, list: seq<Affiliation>) {
    && v.enabled && v.bucket.accepts(AffiliationsKey(id)) && AffiliationsKey(id) in store
    && now < store[AffiliationsKey(id)].created + v.bucket.ttl
    && v.codec.decode(store[AffiliationsKey(id)].value) == Some(list)
  }

  /** The store can serve the whole flow of this username. */
  predicate Cached(v: Env, store: Store, username: string, now: nat, id: string, list: seq<Affiliation>) {
    id != "" && MemberCached(v, store, username, now, id) && ListCached(v, store, id, now, list)
  }

  /** The request asks CDP for nothing, and what it has so far is `id` and `list`. */
  predicate OnHitPath(r: Request, id: string, list: seq<Affiliation>) {
    match r.pc
    case ReadMember => true
    case CheckMember(e, _) => e.value == id
    case ReadAffs(x) => x == id
    case CheckAffs(x, l, _, _) => x == id && l == list
    case Finished(result) => result == Answer(list)
    case _ => false
  }

  /** From position `since` on, the store could always serve `username`, and no step of request `i` failed. */
  ghost predicate Sustained(v: Env, run: seq<Action>, since: nat, i: nat, username: string, id: string,
                            list: seq<Affiliation>)
    requires IsRun(v, run)
    decreases |run|
  {
    |run| <= since ||
    var front, a := run[..|run| - 1], run[|run| - 1];
    && Sustained(v, front, since, i, username, id, list)
    && Cached(v, After(v, front).store, username, After(v, front).now, id, list)
    && (a.Advance? && a.i == i ==> !a.fault)
  }

  /**
   While the store can serve a username, whatever else goes on, a request of that username never comes
   to a call of CDP, and if it ends, it ends with the cached list.
   */
  lemma {:induction false} CachedNeedsNoCdp(v: Env, run: seq<Action>, since: nat, i: nat, username: string, id: string,
                                            list: seq<Affiliation>)
    requires IsRun(v, run) && since <= |run| && IsRun(v, run[..since])
    requires Sustained(v, run, since, i, username, id, list)
    requires i < |After(v, run[..since]).requests| && After(v, run[..since]).requests[i].username == username
    requires OnHitPath(After(v, run[..since]).requests[i], id, list)
    ensures i < |After(v, run).requests| && After(v, run).requests[i].username == username
    ensures OnHitPath(After(v, run).requests[i], id, list)
    decreases |run|
  {
    if |run| == since {
      assert run[..since] == run;
    } else {
      var front := run[..|run| - 1];
      assert front[..since] == run[..since];
      CachedNeedsNoCdp(v, front, since, i, username, id, list);
      HitPathStep(v, After(v, front), run[|run| - 1], i, username, id, list);
    }
  }

  lemma HitPathStep(v: Env, s: State, a: Action, i: nat, username: string, id: string, list: seq<Affiliation>)
    requires Enabled(v, s, a) && (a.Advance? && a.i == i ==> !a.fault)
    requires Cached(v, s.store, username, s.now, id, list)
    requires i < |s.requests| && s.requests[i].username == username && OnHitPath(s.requests[i], id, list)
    ensures i < |Step(v, s, a).requests| && Step(v, s, a).requests[i].username == username
    ensures OnHitPath(Step(v, s, a).requests[i], id, list)
  {}

  // ---------- transparency ----------

  /** CDP's answers do not change over time. */
  ghost predicate Constant(v: Env) {
    && (forall t, u, e :: v.resolve(t, u, e) == v.resolve(0, u, e))
    && (forall t, id :: v.affiliations(t, id) == v.affiliations(0, id))
  }

  /** What the flow without a cache answers. */
  function Uncached(v: Env, username: string, email: string): seq<Affiliation> {
    var id := v.resolve(0, username, email);
    if id == "" then [] else v.affiliations(0, id)
  }

  /** Every non-error result, in every run, is what the uncached flow answers for the same request. */
  ghost predicate Transparent(v: Env) {
    forall acts: seq<Action>, i: nat ::
      IsRun(v, acts) && i < |After(v, acts).requests| ==> AnswersLikeUncached(v, After(v, acts).requests[i])
  }

  predicate AnswersLikeUncached(v: Env, r: Request) {
    r.pc.Finished? && r.pc.result.Answer? ==> r.pc.result.affiliations == Uncached(v, r.username, r.email)
  }

  /** For a username the cache may hold, the answer found under one email is the answer for every other email. */
  ghost predicate EmailIndependent(v: Env) {
    forall u, e, e' :: Cacheable(v, u) && v.resolve(0, u, e) != "" ==> Uncached(v, u, e) == Uncached(v, u, e')
  }

  /** The direction that needs no more of the store: email-independent answers are never mixed up. */
  lemma EmailIndependentIsTransparent(v: Env)
    requires Faithful(v.codec) && Constant(v) && EmailIndependent(v)
    ensures Transparent(v)
  {
    forall acts: seq<Action>, i: nat | IsRun(v, acts) && i < |After(v, acts).requests|
      ensures AnswersLikeUncached(v, After(v, acts).requests[i])
    {
      InvAlways(v, acts);
      assert Genuine(v, After(v, acts).requests[i], After(v, acts).now);
      AnswerIsUncached(v, After(v, acts).requests[i], After(v, acts).now);
    }
  }

  /**
   With constant CDP answers, the cache is invisible exactly when the answer for a cacheable
   username does not depend on the email: its key leaves the email out.
   */
  lemma TransparentIffEmailIndependent(v: Env)
    requires Faithful(v.codec) && Constant(v) && v.bucket.ttl > 0
    ensures Transparent(v) <==> EmailIndependent(v)
  {
    if EmailIndependent(v) {
      EmailIndependentIsTransparent(v);
    }
    if Transparent(v) {
      forall u, e, e' | Cacheable(v, u) && v.resolve(0, u, e) != ""
        ensures Uncached(v, u, e) == Uncached(v, u, e')
      {
        var acts, i := LeakRun(v, u, e, e');
        assert AnswersLikeUncached(v, After(v, acts).requests[i]);
      }
    }
  }

  lemma AnswerIsUncached(v: Env, r: Request, now: nat)
    requires Constant(v) && EmailIndependent(v)
    requires r.pc.Finished? && r.pc.result.Answer? ==> Answered(v, r, r.pc.result.affiliations, now)
    ensures AnswersLikeUncached(v, r)
  {
    if r.pc.Finished? && r.pc.result.Answer? {
      var list := r.pc.result.affiliations;
      if id :| ListedAnswer(v, r, id, list, now) {
        var t: nat :| Recent(v, r, t, now) && IdentifiedAt(v, r, id, t);
        var e :| v.resolve(t, r.username, e) == id && (e == r.email || Cacheable(v, r.username));
        assert v.resolve(0, r.username, e) == id;
        assert list == Uncached(v, r.username, e);
      } else {
        var t: nat :| r.begun <= t <= now && v.resolve(t, r.username, r.email) == "";
        assert v.resolve(0, r.username, r.email) == "";
      }
    }
  }

  /** Answers fixed per username are enough, whatever the cache does. */
  lemma FixedPerUsernameIsTransparent(v: Env)
    requires Faithful(v.codec) && Constant(v)
    requires forall u, e, e' :: v.resolve(0, u, e) == v.resolve(0, u, e')
    ensures Transparent(v)
  {
    forall u, e, e' | Cacheable(v, u) && v.resolve(0, u, e) != ""
      ensures Uncached(v, u, e) == Uncached(v, u, e')
    {
      assert v.resolve(0, u, e) == v.resolve(0, u, e');
    }
    EmailIndependentIsTransparent(v);
  }

  /** With the cache disabled the flow always answers as `Uncached` says. */
  lemma DisabledIsTransparent(v: Env)
    requires Faithful(v.codec) && Constant(v) && !v.enabled
    ensures Transparent(v)
  {
    EmailIndependentIsTransparent(v);
  }

  // The run that shows the other direction: one request stores the member ID found for `e`, and a
  // second request of the same username with another email is served from the cache.

  lemma FirstRequest(v: Env, u: string, e: string) returns (acts: seq<Action>)
    requires Cacheable(v, u) && v.resolve(0, u, e) != ""
    ensures IsRun(v, acts)
    ensures var s := After(v, acts);
            && s.store == map[MemberIdKey(u) := Entry(v.resolve(0, u, e), 0)] && s.now == 0
            && s.refreshes == [] && |s.requests| == 1
  {
    acts := RunSnoc(v, [], Begin(u, e));
    acts := RunSnoc(v, acts, Advance(0, false));  // the read misses
    acts := RunSnoc(v, acts, Advance(0, false));  // CDP resolves
    acts := RunSnoc(v, acts, Advance(0, false));  // the write succeeds
  }

  lemma SecondRequest(v: Env, u: string, e: string, e': string) returns (acts: seq<Action>)
    requires Cacheable(v, u) && v.resolve(0, u, e) != "" && v.bucket.ttl > 0
    ensures IsRun(v, acts)
    ensures var s := After(v, acts);
            && s.store == map[MemberIdKey(u) := Entry(v.resolve(0, u, e), 0)] && s.now == 0
            && |s.requests| == 2 && s.requests[1] == Request(u, e', 0, ReadAffs(v.resolve(0, u, e)))
  {
    acts := FirstRequest(v, u, e);
    acts := RunSnoc(v, acts, Begin(u, e'));
    acts := RunSnoc(v, acts, Advance(1, false));  // the read hits
    acts := RunSnoc(v, acts, Advance(1, false));  // the entry is fresh
  }

  lemma SecondRequestMisses(v: Env, u: string, e: string, e': string) returns (acts: seq<Action>)
    requires Cacheable(v, u) && v.resolve(0, u, e) != "" && v.bucket.ttl > 0
    ensures IsRun(v, acts)
    ensures var s := After(v, acts);
            |s.requests| == 2 && s.now == 0 && s.requests[1] == Request(u, e', 0, FetchAffs(v.resolve(0, u, e)))
  {
    KeysDistinct(u, v.resolve(0, u, e));
    acts := SecondRequest(v, u, e, e');
    acts := RunSnoc(v, acts, Advance(1, false));  // no affiliations cached
  }

  lemma LeakRun(v: Env, u: string, e: string, e': string) returns (acts: seq<Action>, i: nat)
    requires Cacheable(v, u) && v.resolve(0, u, e) != "" && v.bucket.ttl > 0
    ensures IsRun(v, acts) && i < |After(v, acts).requests|
    ensures After(v, acts).requests[i] == Request(u, e', 0, Finished(Answer(Uncached(v, u, e))))
  {
    i := 1;
    acts := SecondRequestMisses(v, u, e, e');
    acts := RunSnoc(v, acts, Advance(1, false));  // CDP lists them
    acts := RunSnoc(v, acts, Advance(1, true));   // the write may fail
  }

  /** A CDP whose answer depends on the email, and a run of it that answers one email with the other's data. */
  lemma CrossEmailAnswer(v: Env, u: string, e: string, e': string) returns (acts: seq<Action>, i: nat)
    requires v.bucket.ttl > 0 && Cacheable(v, u)
    requires v.resolve(0, u, e) != "" && Uncached(v, u, e) != Uncached(v, u, e')
    ensures IsRun(v, acts) && i < |After(v, acts).requests|
    ensures !AnswersLikeUncached(v, After(v, acts).requests[i])
  {
    acts, i := LeakRun(v, u, e, e');
  }
}
