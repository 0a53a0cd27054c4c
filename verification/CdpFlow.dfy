/**
 The bodies of sourceCDPRoles and of the two background refreshers, as they run over the cache while
 everything else goes on between their calls, proved to be runs of the transition system.
 */
module CdpFlow {
  import opened CdpSlugs
  import opened CdpCache
  import opened CacheSystem
  import opened CacheTheorems
  import P = PersonaModel

  // ---------- the goroutine and the world around it ----------

  /** Which of the calls of one goroutine fail. */
  datatype Faults = Faults(getMember: bool, resolve: bool, putMember: bool, getAffs: bool, fetchAffs: bool,
                           putAffs: bool)

  /** The request or the refresh that a method body runs. */
  datatype Mine = MyRequest(i: nat) | MyRefresh(j: nat)

  /** `a` is a step of this goroutine. */
  predicate Moves(mine: Mine, a: Action) {
    match a
    case Advance(i, _) => mine == MyRequest(i)
    case AdvanceRefresh(j, _) => mine == MyRefresh(j)
    case _ => false
  }

  /** Whether the next step of this goroutine fails. A write that comes later than `lag` is one that fails. */
  predicate FaultNow(v: Env, s: State, mine: Mine, f: Faults) {
    match mine
    case MyRequest(i) => i < |s.requests| && RequestFault(v, s.requests[i].pc, s.now, f)
    case MyRefresh(j) => j < |s.refreshes| && RefreshFault(v, s.refreshes[j], s.now, f)
  }

  predicate RequestFault(v: Env, pc: Pc, now: nat, f: Faults) {
    match pc
    case ReadMember => f.getMember
    case Resolve => f.resolve
    case PutMember(_, fetched) => f.putMember || now > fetched + v.lag
    case ReadAffs(_) => f.getAffs
    case FetchAffs(_) => f.fetchAffs
    case PutAffs(_, _, fetched) => f.putAffs || now > fetched + v.lag
    case _ => false
  }

  predicate RefreshFault(v: Env, g: Refresh, now: nat, f: Faults) {
    match g
    case RefreshMember(_, _) => f.resolve
    case StoreMember(_, _, fetched) => f.putMember || now > fetched + v.lag
    case RefreshAffs(_) => f.fetchAffs
    case StoreAffs(_, _, fetched) => f.putAffs || now > fetched + v.lag
    case Ended => false
  }

  /** `run` goes on from `acts`; since then the steps of this goroutine have failed as `f` says and not otherwise. */
  ghost predicate Honest(v: Env, acts: seq<Action>, run: seq<Action>, mine: Mine, f: Faults)
    requires IsRun(v, run)
    decreases |run|
  {
    acts == run ||
    (run != [] &&
     var front, a := run[..|run| - 1], run[|run| - 1];
     Honest(v, acts, front, mine, f) && (Moves(mine, a) ==> a.fault == FaultNow(v, After(v, front), mine, f)))
  }

  /** What the world does when `others` is tried in `s`: any possible step but those of this goroutine. */
  function Others(v: Env, s: State, mine: Mine, others: seq<Action>): State {
    if others == [] then s else
      var before, a := Others(v, s, mine, others[..|others| - 1]), others[|others| - 1];
      if !Moves(mine, a) && Enabled(v, before, a) then Step(v, before, a) else before
  }

  /** The time that passes meanwhile. */
  function Elapsed(others: seq<Action>): nat {
    if others == [] then 0 else
      Elapsed(others[..|others| - 1]) + match others[|others| - 1] case Tick(d) => d case _ => 0
  }

  /** This goroutine is where it was. */
  ghost predicate Undisturbed(s: State, s': State, mine: Mine) {
    match mine
    case MyRequest(i) => i < |s.requests| ==> i < |s'.requests| && s'.requests[i] == s.requests[i]
    case MyRefresh(j) => j < |s.refreshes| ==> j < |s'.refreshes| && s'.refreshes[j] == s.refreshes[j]
  }

  lemma OtherStep(v: Env, s: State, mine: Mine, a: Action)
    requires !Moves(mine, a) && Enabled(v, s, a)
    ensures Undisturbed(s, Step(v, s, a), mine)
    ensures Step(v, s, a).now == s.now + match a case Tick(d) => d case _ => 0
  {}

  /** Whatever the world does extends the run and leaves this goroutine where it is. */
  lemma {:induction false} OthersRun(v: Env, acts: seq<Action>, run: seq<Action>, mine: Mine, f: Faults,
                                     others: seq<Action>)
    returns (longer: seq<Action>)
    requires IsRun(v, run) && Honest(v, acts, run, mine, f)
    ensures IsRun(v, longer) && Honest(v, acts, longer, mine, f)
    ensures After(v, longer) == Others(v, After(v, run), mine, others)
    ensures Undisturbed(After(v, run), After(v, longer), mine)
    ensures After(v, longer).now == After(v, run).now + Elapsed(others)
    decreases |others|
  {
    longer := run;
    if others != [] {
      var a := others[|others| - 1];
      longer := OthersRun(v, acts, run, mine, f, others[..|others| - 1]);
      if !Moves(mine, a) && Enabled(v, After(v, longer), a) {
        OtherStep(v, After(v, longer), mine, a);
        longer := HonestSnoc(v, acts, longer, mine, f, a);
      }
    }
  }

  /** An honest run goes on from where it started. */
  lemma {:induction false} HonestExtends(v: Env, acts: seq<Action>, run: seq<Action>, mine: Mine, f: Faults)
    requires IsRun(v, run) && Honest(v, acts, run, mine, f)
    ensures acts <= run
    decreases |run|
  {
    if acts != run {
      HonestExtends(v, acts, run[..|run| - 1], mine, f);
    }
  }

  lemma HonestSnoc(v: Env, acts: seq<Action>, run: seq<Action>, mine: Mine, f: Faults, a: Action)
    returns (longer: seq<Action>)
    requires IsRun(v, run) && Honest(v, acts, run, mine, f) && Enabled(v, After(v, run), a)
    requires Moves(mine, a) ==> a.fault == FaultNow(v, After(v, run), mine, f)
    ensures longer == run + [a] && IsRun(v, longer) && Honest(v, acts, longer, mine, f)
    ensures After(v, longer) == Step(v, After(v, run), a)
  {
    longer := RunSnoc(v, run, a);
    assert longer[..|longer| - 1] == run;
  }

  // ---------- the goroutine's steps ----------

  ghost predicate Serves(cache: Cache, v: Env) {
    cache.enabled == v.enabled && cache.bucket == v.bucket && cache.codec == v.codec
  }

  /** The run is at `s`, whose store is the one behind the cache, and this goroutine has run as `f` says. */
  ghost predicate At(cache: Cache, v: Env, acts: seq<Action>, run: seq<Action>, s: State, mine: Mine, f: Faults)
    reads cache
  {
    && Serves(cache, v) && cache.store == s.store
    && IsRun(v, run) && After(v, run) == s && Honest(v, acts, run, mine, f)
  }

  /** Between two calls, the rest of the world goes on. */
  method Interfere(cache: Cache, v: Env, s: State, mine: Mine, others: seq<Action>,
                   ghost f: Faults, ghost acts: seq<Action>, ghost run: seq<Action>)
    returns (s': State, ghost longer: seq<Action>)
    requires At(cache, v, acts, run, s, mine, f)
    modifies cache`store
    ensures At(cache, v, acts, longer, s', mine, f)
    ensures Undisturbed(s, s', mine) && s'.now == s.now + Elapsed(others)
    ensures others == [] ==> s' == s
  {
    s' := Others(v, s, mine, others);
    cache.store := s'.store;
    longer := OthersRun(v, acts, run, mine, f, others);
  }

  /** Request `i` has come to `pc`, has left the store as the cache now has it, and has started `started`. */
  method Goto(cache: Cache, v: Env, s: State, i: nat, pc: Pc, started: P.Option<Refresh>,
              ghost f: Faults, ghost acts: seq<Action>, ghost run: seq<Action>)
    returns (s': State, ghost longer: seq<Action>)
    requires Serves(cache, v) && IsRun(v, run) && After(v, run) == s && Honest(v, acts, run, MyRequest(i), f)
    requires i < |s.requests| && !s.requests[i].pc.Finished?
    requires RequestEffect(v, s.requests[i], s.store, s.now, RequestFault(v, s.requests[i].pc, s.now, f))
             == Effect(pc, cache.store, started)
    ensures At(cache, v, acts, longer, s', MyRequest(i), f)
    ensures i < |s'.requests| && s'.requests[i] == s.requests[i].(pc := pc) && s'.now == s.now
  {
    s' := s.(requests := s.requests[i := s.requests[i].(pc := pc)], store := cache.store,
             refreshes := match started case None => s.refreshes case Some(g) => s.refreshes + [g]);
    longer := HonestSnoc(v, acts, run, MyRequest(i), f, Advance(i, RequestFault(v, s.requests[i].pc, s.now, f)));
  }

  // ---------- sourceCDPRoles ----------

  /** What the rest of the world does before each call of the flow, and while a looked-up entry's age is taken. */
  datatype Gaps = Gaps(getMember: seq<Action>, afterGetMember: seq<Action>, putMember: seq<Action>,
                       getAffs: seq<Action>, afterGetAffs: seq<Action>, putAffs: seq<Action>)

  const NO_GAPS := Gaps([], [], [], [], [], [])
  const NO_FAULTS := Faults(false, false, false, false, false, false)

  /** The two writes of a flow that misses. */
  function WithMember(store: Store, username: string, id: string, now: nat): Store {
    store[MemberIdKey(username) := Entry(id, now)]
  }

  function WithList(v: Env, store: Store, id: string, list: seq<Affiliation>, now: nat): Store {
    store[AffiliationsKey(id) := Entry(v.codec.encode(list), now)]
  }

  /** Step 1 of the flow: it ends the request, or goes on with the member ID. */
  method IdentifyMember(cache: Cache, v: Env, s0: State, i: nat, username: string, email: string, gaps: Gaps, f: Faults,
                        ghost acts: seq<Action>, ghost run0: seq<Action>)
    returns (ended: P.Option<Result>, memberId: string, s: State, ghost run: seq<Action>)
    requires At(cache, v, acts, run0, s0, MyRequest(i), f) && i < |s0.requests|
    requires s0.requests[i].username == username && s0.requests[i].email == email && s0.requests[i].pc == ReadMember
    modifies cache`store
    ensures At(cache, v, acts, run, s, MyRequest(i), f) && i < |s.requests|
    ensures s.requests[i] ==
            s0.requests[i].(pc := match ended case None => ReadAffs(memberId) case Some(result) => Finished(result))
    ensures ended == P.Some(Error) ==> f.resolve
    ensures forall id ::
      gaps == NO_GAPS && !f.getMember && id != "" && MemberCached(v, s0.store, username, s0.now, id) ==>
        ended == P.None && memberId == id && s.store == s0.store && s.now == s0.now
    ensures gaps == NO_GAPS && f == NO_FAULTS && Cacheable(v, username) && MemberIdKey(username) !in s0.store
            && v.resolve(s0.now, username, email) != "" ==>
      && ended == P.None && memberId == v.resolve(s0.now, username, email)
      && s.store == WithMember(s0.store, username, memberId, s0.now) && s.now == s0.now
  {
    ended := P.None;
    s, run := Interfere(cache, v, s0, MyRequest(i), gaps.getMember, f, acts, run0);
    var cacheResult;
    memberId, cacheResult, s, run :=
      LookUpMember(cache, v, s, i, username, Elapsed(gaps.afterGetMember), f, acts, run);
    if !cacheResult.hit {
      ended, memberId, s, run := FetchMember(cache, v, s, i, username, email, gaps, f, acts, run);
    } else {
      ended, s, run := ServeMember(cache, v, s, i, username, email, memberId, cacheResult.stale, gaps, f, acts, run);
    }
  }

  /** The step that a lookup of a member ID is, by what the lookup returned. */
  lemma MemberLookedUp(v: Env, r: Request, store: Store, now: nat, fault: bool, hit: bool)
    requires r.pc == ReadMember
    requires hit <==> v.enabled && Read(v.bucket, store, MemberIdKey(r.username), now, fault).Found?
    ensures hit ==> MemberIdKey(r.username) in store
    ensures RequestEffect(v, r, store, now, fault) ==
            Effect(if hit then CheckMember(store[MemberIdKey(r.username)], now) else Resolve, store, P.None)
  {}

  /** The lookup of step 1. */
  method LookUpMember(cache: Cache, v: Env, s0: State, i: nat, username: string, delay: nat, f: Faults,
                      ghost acts: seq<Action>, ghost run0: seq<Action>)
    returns (memberId: string, cacheResult: CacheResult, s: State, ghost run: seq<Action>)
    requires At(cache, v, acts, run0, s0, MyRequest(i), f)
    requires i < |s0.requests| && s0.requests[i].username == username && s0.requests[i].pc == ReadMember
    ensures At(cache, v, acts, run, s, MyRequest(i), f) && i < |s.requests|
    ensures s.requests[i] == s0.requests[i].(pc := s.requests[i].pc)
    ensures !cacheResult.hit ==> s.requests[i].pc == Resolve
    ensures cacheResult.hit ==>
      && s.requests[i].pc.CheckMember? && s.requests[i].pc.entry.value == memberId
      && (cacheResult.stale <==> IsStale(s.requests[i].pc.entry, s.now + delay))
    ensures s.store == s0.store && s.now == s0.now
    ensures forall id :: MemberCached(v, s0.store, username, s0.now, id) && !f.getMember ==>
      cacheResult.hit && memberId == id
    ensures cacheResult.hit ==> MemberIdKey(username) in s0.store
  {
    var failed;
    memberId, cacheResult, failed := cache.GetMemberId(username, s0.now, s0.now + delay, f.getMember);
    MemberLookedUp(v, s0.requests[i], s0.store, s0.now, f.getMember, cacheResult.hit);
    var next := if cacheResult.hit then CheckMember(cache.store[MemberIdKey(username)], s0.now) else Resolve;
    s, run := Goto(cache, v, s0, i, next, P.None, f, acts, run0);
  }

  /** The cache-hit branch of step 1. */
  method ServeMember(cache: Cache, v: Env, s0: State, i: nat, username: string, email: string, memberId: string,
                     stale: bool, gaps: Gaps, f: Faults, ghost acts: seq<Action>, ghost run0: seq<Action>)
    returns (ended: P.Option<Result>, s: State, ghost run: seq<Action>)
    requires At(cache, v, acts, run0, s0, MyRequest(i), f) && i < |s0.requests| && s0.requests[i].pc.CheckMember?
    requires s0.requests[i].username == username && s0.requests[i].email == email
    requires memberId == s0.requests[i].pc.entry.value
    requires stale <==> IsStale(s0.requests[i].pc.entry, s0.now + Elapsed(gaps.afterGetMember))
    modifies cache`store
    ensures At(cache, v, acts, run, s, MyRequest(i), f) && i < |s.requests|
    ensures s.requests[i] ==
            s0.requests[i].(pc := match ended case None => ReadAffs(memberId) case Some(result) => Finished(result))
    ensures ended == if memberId == "" then P.Some(Answer([])) else P.None
    ensures gaps == NO_GAPS ==> s.store == s0.store && s.now == s0.now
  {
    ended := P.None;
    s, run := Interfere(cache, v, s0, MyRequest(i), gaps.afterGetMember, f, acts, run0);
    var started := if stale then P.Some(RefreshMember(username, email)) else P.None;
    if memberId == "" {
      ended := P.Some(Answer([]));
      s, run := Goto(cache, v, s, i, Finished(Answer([])), started, f, acts, run);
    } else {
      s, run := Goto(cache, v, s, i, ReadAffs(memberId), started, f, acts, run);
    }
  }

  /** The cache-miss branch of step 1. */
  method FetchMember(cache: Cache, v: Env, s0: State, i: nat, username: string, email: string, gaps: Gaps, f: Faults,
                     ghost acts: seq<Action>, ghost run0: seq<Action>)
    returns (ended: P.Option<Result>, memberId: string, s: State, ghost run: seq<Action>)
    requires At(cache, v, acts, run0, s0, MyRequest(i), f) && i < |s0.requests|
    requires s0.requests[i].username == username && s0.requests[i].email == email && s0.requests[i].pc == Resolve
    modifies cache`store
    ensures At(cache, v, acts, run, s, MyRequest(i), f) && i < |s.requests|
    ensures s.requests[i] ==
            s0.requests[i].(pc := match ended case None => ReadAffs(memberId) case Some(result) => Finished(result))
    ensures ended == P.Some(Error) ==> f.resolve
    ensures gaps == NO_GAPS && f == NO_FAULTS && Cacheable(v, username) && v.resolve(s0.now, username, email) != "" ==>
      && ended == P.None && memberId == v.resolve(s0.now, username, email)
      && s.store == WithMember(s0.store, username, memberId, s0.now) && s.now == s0.now
  {
    ended := P.None;
    s, run := Interfere(cache, v, s0, MyRequest(i), gaps.afterGetMember, f, acts, run0);
    if f.resolve {
      s, run := Goto(cache, v, s, i, Finished(Error), P.None, f, acts, run);
      return P.Some(Error), "", s, run;
    }
    memberId := v.resolve(s.now, username, email);
    if memberId == "" {
      s, run := Goto(cache, v, s, i, Finished(Answer([])), P.None, f, acts, run);
      return P.Some(Answer([])), "", s, run;
    }
    s, run := Goto(cache, v, s, i, PutMember(memberId, s.now), P.None, f, acts, run);
    s, run := StoreMemberId(cache, v, s, i, username, memberId, s.now, gaps, f, acts, run);
  }

  /** The write at the end of that branch. */
  method StoreMemberId(cache: Cache, v: Env, s0: State, i: nat, username: string, memberId: string, fetched: nat,
                       gaps: Gaps, f: Faults, ghost acts: seq<Action>, ghost run0: seq<Action>)
    returns (s: State, ghost run: seq<Action>)
    requires At(cache, v, acts, run0, s0, MyRequest(i), f) && i < |s0.requests|
    requires s0.requests[i].username == username && s0.requests[i].pc == PutMember(memberId, fetched)
    modifies cache`store
    ensures At(cache, v, acts, run, s, MyRequest(i), f) && i < |s.requests|
    ensures s.requests[i] == s0.requests[i].(pc := ReadAffs(memberId))
    ensures gaps == NO_GAPS && f == NO_FAULTS && Cacheable(v, username) && s0.now == fetched ==>
      s.store == WithMember(s0.store, username, memberId, s0.now) && s.now == s0.now
  {
    s, run := Interfere(cache, v, s0, MyRequest(i), gaps.putMember, f, acts, run0);
    cache.PutMemberId(username, memberId, s.now, f.putMember || s.now > fetched + v.lag);
    s, run := Goto(cache, v, s, i, ReadAffs(memberId), P.None, f, acts, run);
  }

  /** Step 2 of the flow. */
  method Affiliations(cache: Cache, v: Env, s0: State, i: nat, memberId: string, gaps: Gaps, f: Faults,
                      ghost acts: seq<Action>, ghost run0: seq<Action>)
    returns (result: Result, s: State, ghost run: seq<Action>)
    requires At(cache, v, acts, run0, s0, MyRequest(i), f)
    requires i < |s0.requests| && s0.requests[i].pc == ReadAffs(memberId)
    modifies cache`store
    ensures At(cache, v, acts, run, s, MyRequest(i), f) && i < |s.requests|
    ensures s.requests[i] == s0.requests[i].(pc := Finished(result))
    ensures result == Error ==> f.fetchAffs
    ensures forall list ::
      gaps == NO_GAPS && !f.getAffs && ListCached(v, s0.store, memberId, s0.now, list) ==>
        result == Answer(list) && s.store == s0.store && s.now == s0.now
    ensures gaps == NO_GAPS && f == NO_FAULTS && v.enabled && v.bucket.accepts(AffiliationsKey(memberId))
            && AffiliationsKey(memberId) !in s0.store ==>
      var list := v.affiliations(s0.now, memberId);
      result == Answer(list) && s.store == WithList(v, s0.store, memberId, list, s0.now) && s.now == s0.now
  {
    s, run := Interfere(cache, v, s0, MyRequest(i), gaps.getAffs, f, acts, run0);
    var affiliations, affCache;
    affiliations, affCache, s, run :=
      LookUpAffiliations(cache, v, s, i, memberId, Elapsed(gaps.afterGetAffs), f, acts, run);
    if !affCache.hit {
      result, s, run := FetchAffiliations(cache, v, s, i, memberId, gaps, f, acts, run);
    } else {
      result, s, run := ServeAffiliations(cache, v, s, i, memberId, affiliations, affCache.stale, gaps, f, acts, run);
    }
  }

  /** The step that a lookup of affiliations is, by what the lookup returned. */
  lemma AffsLookedUp(v: Env, r: Request, store: Store, now: nat, fault: bool, hit: bool, list: seq<Affiliation>)
    requires r.pc.ReadAffs?
    requires hit ==> AffiliationsKey(r.pc.id) in store
                     && v.codec.decode(store[AffiliationsKey(r.pc.id)].value) == P.Some(list)
    requires var reply := Read(v.bucket, store, AffiliationsKey(r.pc.id), now, fault);
             hit <==> v.enabled && reply.Found? && v.codec.decode(reply.entry.value).Some?
    ensures RequestEffect(v, r, store, now, fault) ==
            Effect(if hit then CheckAffs(r.pc.id, list, store[AffiliationsKey(r.pc.id)], now) else FetchAffs(r.pc.id),
                   store, P.None)
  {}

  /** The lookup of step 2. */
  method LookUpAffiliations(cache: Cache, v: Env, s0: State, i: nat, memberId: string, delay: nat, f: Faults,
                            ghost acts: seq<Action>, ghost run0: seq<Action>)
    returns (affiliations: seq<Affiliation>, affCache: CacheResult, s: State, ghost run: seq<Action>)
    requires At(cache, v, acts, run0, s0, MyRequest(i), f)
    requires i < |s0.requests| && s0.requests[i].pc == ReadAffs(memberId)
    ensures At(cache, v, acts, run, s, MyRequest(i), f) && i < |s.requests|
    ensures s.requests[i] == s0.requests[i].(pc := s.requests[i].pc)
    ensures !affCache.hit ==> s.requests[i].pc == FetchAffs(memberId)
    ensures affCache.hit ==>
      && s.requests[i].pc.CheckAffs? && s.requests[i].pc.id == memberId && s.requests[i].pc.list == affiliations
      && (affCache.stale <==> IsStale(s.requests[i].pc.entry, s.now + delay))
    ensures s.store == s0.store && s.now == s0.now
    ensures forall list :: ListCached(v, s0.store, memberId, s0.now, list) && !f.getAffs ==>
      affCache.hit && affiliations == list
    ensures affCache.hit ==> AffiliationsKey(memberId) in s0.store
  {
    var failed;
    affiliations, affCache, failed := cache.GetAffiliations(memberId, s0.now, s0.now + delay, f.getAffs);
    AffsLookedUp(v, s0.requests[i], s0.store, s0.now, f.getAffs, affCache.hit, affiliations);
    var next := if affCache.hit then CheckAffs(memberId, affiliations, cache.store[AffiliationsKey(memberId)], s0.now)
                else FetchAffs(memberId);
    s, run := Goto(cache, v, s0, i, next, P.None, f, acts, run0);
  }

  /** The cache-hit branch of step 2. */
  method ServeAffiliations(cache: Cache, v: Env, s0: State, i: nat, memberId: string, affiliations: seq<Affiliation>,
                           stale: bool, gaps: Gaps, f: Faults, ghost acts: seq<Action>, ghost run0: seq<Action>)
    returns (result: Result, s: State, ghost run: seq<Action>)
    requires At(cache, v, acts, run0, s0, MyRequest(i), f) && i < |s0.requests| && s0.requests[i].pc.CheckAffs?
    requires s0.requests[i].pc.id == memberId && s0.requests[i].pc.list == affiliations
    requires stale <==> IsStale(s0.requests[i].pc.entry, s0.now + Elapsed(gaps.afterGetAffs))
    modifies cache`store
    ensures At(cache, v, acts, run, s, MyRequest(i), f) && i < |s.requests|
    ensures s.requests[i] == s0.requests[i].(pc := Finished(result)) && result == Answer(affiliations)
    ensures gaps == NO_GAPS ==> s.store == s0.store && s.now == s0.now
  {
    s, run := Interfere(cache, v, s0, MyRequest(i), gaps.afterGetAffs, f, acts, run0);
    var started := if stale then P.Some(RefreshAffs(memberId)) else P.None;
    result := Answer(affiliations);
    s, run := Goto(cache, v, s, i, Finished(result), started, f, acts, run);
  }

  /** The cache-miss branch of step 2. */
  method FetchAffiliations(cache: Cache, v: Env, s0: State, i: nat, memberId: string, gaps: Gaps, f: Faults,
                           ghost acts: seq<Action>, ghost run0: seq<Action>)
    returns (result: Result, s: State, ghost run: seq<Action>)
    requires At(cache, v, acts, run0, s0, MyRequest(i), f)
    requires i < |s0.requests| && s0.requests[i].pc == FetchAffs(memberId)
    modifies cache`store
    ensures At(cache, v, acts, run, s, MyRequest(i), f) && i < |s.requests|
    ensures s.requests[i] == s0.requests[i].(pc := Finished(result))
    ensures result == Error ==> f.fetchAffs
    ensures gaps == NO_GAPS && f == NO_FAULTS && v.enabled && v.bucket.accepts(AffiliationsKey(memberId)) ==>
      var list := v.affiliations(s0.now, memberId);
      result == Answer(list) && s.store == WithList(v, s0.store, memberId, list, s0.now) && s.now == s0.now
  {
    s, run := Interfere(cache, v, s0, MyRequest(i), gaps.afterGetAffs, f, acts, run0);
    if f.fetchAffs {
      s, run := Goto(cache, v, s, i, Finished(Error), P.None, f, acts, run);
      return Error, s, run;
    }
    var affiliations := v.affiliations(s.now, memberId);
    result := Answer(affiliations);
    s, run := Goto(cache, v, s, i, PutAffs(memberId, affiliations, s.now), P.None, f, acts, run);
    s, run := StoreAffiliations(cache, v, s, i, memberId, affiliations, s.now, gaps, f, acts, run);
  }

  /** The write at the end of that branch. */
  method StoreAffiliations(cache: Cache, v: Env, s0: State, i: nat, memberId: string, affiliations: seq<Affiliation>,
                           fetched: nat, gaps: Gaps, f: Faults, ghost acts: seq<Action>, ghost run0: seq<Action>)
    returns (s: State, ghost run: seq<Action>)
    requires At(cache, v, acts, run0, s0, MyRequest(i), f)
    requires i < |s0.requests| && s0.requests[i].pc == PutAffs(memberId, affiliations, fetched)
    modifies cache`store
    ensures At(cache, v, acts, run, s, MyRequest(i), f) && i < |s.requests|
    ensures s.requests[i] == s0.requests[i].(pc := Finished(Answer(affiliations)))
    ensures gaps == NO_GAPS && f == NO_FAULTS && v.enabled && v.bucket.accepts(AffiliationsKey(memberId))
            && s0.now == fetched ==>
      s.store == WithList(v, s0.store, memberId, affiliations, s0.now) && s.now == s0.now
  {
    s, run := Interfere(cache, v, s0, MyRequest(i), gaps.putAffs, f, acts, run0);
    cache.PutAffiliations(memberId, affiliations, s.now, f.putAffs || s.now > fetched + v.lag);
    s, run := Goto(cache, v, s, i, Finished(Answer(affiliations)), P.None, f, acts, run);
  }

  /** Step 3 of the flow, or its failure. */
  function Converted(result: Result, connected: bool, replies: string -> ProjectService.Reply, trim: string -> string)
    : P.Outcome
  {
    match result
    case Error => P.Failed
    case Answer(list) => P.Succeeded(CdpProjects(connected, list, replies, trim))
  }

  /** Request `i` of the run began at `begun` with this username and email, and has ended with `result`. */
  ghost predicate EndedWith(v: Env, run: seq<Action>, i: nat, username: string, email: string, begun: nat,
                            result: Result) {
    && IsRun(v, run) && i < |After(v, run).requests|
    && After(v, run).requests[i] == Request(username, email, begun, Finished(result))
  }

  /**
   sourceCDPRoles as a whole, begun in a reachable state, while the rest of the world does `gaps`
   between its calls. Its outcome is the converted result of its request in the run that all of this
   is, with just the faults `f`; so the theorems on runs hold of it.
   */
  method SourceCdpRoles(cache: Cache, v: Env, s0: State, username: string, email: string, gaps: Gaps, f: Faults,
                        connected: bool, replies: string -> ProjectService.Reply, trim: string -> string,
                        ghost acts: seq<Action>)
    returns (o: P.Outcome, result: Result, s: State, ghost run: seq<Action>)
    requires Serves(cache, v) && cache.store == s0.store && IsRun(v, acts) && After(v, acts) == s0
    modifies cache`store
    ensures EndedWith(v, run, |s0.requests|, username, email, s0.now, result)
    ensures acts <= run && After(v, run) == s && cache.store == s.store
    ensures Honest(v, acts, run, MyRequest(|s0.requests|), f)
    ensures o == Converted(result, connected, replies, trim)
    ensures o.Failed? ==> f.resolve || f.fetchAffs
    ensures forall id, list ::
      gaps == NO_GAPS && !f.getMember && !f.getAffs && Cached(v, s0.store, username, s0.now, id, list) ==>
        result == Answer(list) && s.store == s0.store
    ensures gaps == NO_GAPS && f == NO_FAULTS && Misses(v, s0.store, username, email, s0.now) ==>
      var id := v.resolve(s0.now, username, email);
      var list := v.affiliations(s0.now, id);
      && result == Answer(list) && s.now == s0.now
      && s.store == WithList(v, WithMember(s0.store, username, id, s0.now), id, list, s0.now)
  {
    s, run := BeginRequest(cache, v, s0, username, email, f, acts);
    result, s, run := MemberAffiliations(cache, v, s, |s0.requests|, username, email, gaps, f, acts, run);
    HonestExtends(v, acts, run, MyRequest(|s0.requests|), f);
    match result {
      case Error => o := P.Failed;
      case Answer(affiliations) =>
        var projects := ResolveAndConvert(connected, affiliations, replies, trim);
        o := P.Succeeded(projects);
    }
  }

  method BeginRequest(cache: Cache, v: Env, s0: State, username: string, email: string, ghost f: Faults,
                      ghost acts: seq<Action>)
    returns (s: State, ghost run: seq<Action>)
    requires Serves(cache, v) && cache.store == s0.store && IsRun(v, acts) && After(v, acts) == s0
    ensures At(cache, v, acts, run, s, MyRequest(|s0.requests|), f)
    ensures s == s0.(requests := s0.requests + [Request(username, email, s0.now, ReadMember)])
  {
    s := s0.(requests := s0.requests + [Request(username, email, s0.now, ReadMember)]);
    run := HonestSnoc(v, acts, acts, MyRequest(|s0.requests|), f, Begin(username, email));
  }

  /** CDP knows the member, and the store, which accepts both keys, has neither. */
  predicate Misses(v: Env, store: Store, username: string, email: string, now: nat) {
    var id := v.resolve(now, username, email);
    && id != "" && Cacheable(v, username) && MemberIdKey(username) !in store
    && v.bucket.accepts(AffiliationsKey(id)) && AffiliationsKey(id) !in store
  }

  /** Steps 1 and 2: what step 3 converts. */
  method MemberAffiliations(cache: Cache, v: Env, s0: State, i: nat, username: string, email: string, gaps: Gaps,
                            f: Faults, ghost acts: seq<Action>, ghost run0: seq<Action>)
    returns (result: Result, s: State, ghost run: seq<Action>)
    requires At(cache, v, acts, run0, s0, MyRequest(i), f) && i < |s0.requests|
    requires s0.requests[i].username == username && s0.requests[i].email == email && s0.requests[i].pc == ReadMember
    modifies cache`store
    ensures At(cache, v, acts, run, s, MyRequest(i), f) && i < |s.requests|
    ensures s.requests[i] == s0.requests[i].(pc := Finished(result))
    ensures result == Error ==> f.resolve || f.fetchAffs
    ensures forall id, list ::
      gaps == NO_GAPS && !f.getMember && !f.getAffs && Cached(v, s0.store, username, s0.now, id, list) ==>
        result == Answer(list) && s.store == s0.store
    ensures gaps == NO_GAPS && f == NO_FAULTS && Misses(v, s0.store, username, email, s0.now) ==>
      var id := v.resolve(s0.now, username, email);
      var list := v.affiliations(s0.now, id);
      && result == Answer(list) && s.now == s0.now
      && s.store == WithList(v, WithMember(s0.store, username, id, s0.now), id, list, s0.now)
  {
    KeysDistinct(username, v.resolve(s0.now, username, email));
    var ended, memberId;
    ended, memberId, s, run := IdentifyMember(cache, v, s0, i, username, email, gaps, f, acts, run0);
    match ended {
      case Some(r) => result := r;
      case None => result, s, run := Affiliations(cache, v, s, i, memberId, gaps, f, acts, run);
    }
  }

  /** What a flow that misses has written serves the username until the ttl is over. */
  lemma MissServes(v: Env, store: Store, username: string, email: string, now: nat, later: nat)
    requires Faithful(v.codec) && Misses(v, store, username, email, now) && later < v.bucket.ttl
    ensures var id := v.resolve(now, username, email);
            var list := v.affiliations(now, id);
            Cached(v, WithList(v, WithMember(store, username, id, now), id, list, now), username, now + later, id, list)
  {
    KeysDistinct(username, v.resolve(now, username, email));
  }

  /** A request that finds nothing cached, on its own, and the passing of some time. */
  method AskCdp(cache: Cache, v: Env, s0: State, username: string, email: string, later: nat, connected: bool,
                replies: string -> ProjectService.Reply, trim: string -> string, ghost acts: seq<Action>)
    returns (o: P.Outcome, s: State, ghost run: seq<Action>)
    requires Serves(cache, v) && cache.store == s0.store && IsRun(v, acts) && After(v, acts) == s0
    requires Faithful(v.codec) && Misses(v, s0.store, username, email, s0.now) && later < v.bucket.ttl
    modifies cache`store
    ensures cache.store == s.store && IsRun(v, run) && After(v, run) == s && s.now == s0.now + later
    ensures var id := v.resolve(s0.now, username, email);
            var list := v.affiliations(s0.now, id);
            o == Converted(Answer(list), connected, replies, trim) && Cached(v, s.store, username, s.now, id, list)
  {
    MissServes(v, s0.store, username, email, s0.now, later);
    var result;
    o, result, s, run :=
      SourceCdpRoles(cache, v, s0, username, email, NO_GAPS, NO_FAULTS, connected, replies, trim, acts);
    run := RunSnoc(v, run, Tick(later));
    s := s.(now := s.now + later);
  }

  /** A request that finds everything cached, while every call of CDP and every write fails. */
  method AskCache(cache: Cache, v: Env, s0: State, username: string, email: string, connected: bool,
                  replies: string -> ProjectService.Reply, trim: string -> string, ghost acts: seq<Action>,
                  ghost id: string, ghost list: seq<Affiliation>)
    returns (o: P.Outcome)
    requires Serves(cache, v) && cache.store == s0.store && IsRun(v, acts) && After(v, acts) == s0
    requires Cached(v, s0.store, username, s0.now, id, list)
    modifies cache`store
    ensures o == Converted(Answer(list), connected, replies, trim)
  {
    var result, s;
    ghost var run;
    var f := Faults(false, true, true, false, true, true);
    o, result, s, run := SourceCdpRoles(cache, v, s0, username, email, NO_GAPS, f, connected, replies, trim, acts);
  }

  /**
   The cache does its work: after a request that found nothing cached, another one of the same username
   inside the ttl is answered the same, though every call of CDP and every write fails.
   */
  method RequestAgain(cache: Cache, v: Env, s0: State, username: string, email: string, other: string, later: nat,
                      connected: bool, replies: string -> ProjectService.Reply, trim: string -> string,
                      ghost acts: seq<Action>)
    returns (first: P.Outcome, second: P.Outcome)
    requires Serves(cache, v) && cache.store == s0.store && IsRun(v, acts) && After(v, acts) == s0
    requires Faithful(v.codec) && Misses(v, s0.store, username, email, s0.now) && later < v.bucket.ttl
    modifies cache`store
    ensures first == second
    ensures second ==
            Converted(Answer(v.affiliations(s0.now, v.resolve(s0.now, username, email))), connected, replies, trim)
  {
    ghost var id := v.resolve(s0.now, username, email);
    var s;
    ghost var run;
    first, s, run := AskCdp(cache, v, s0, username, email, later, connected, replies, trim, acts);
    second := AskCache(cache, v, s, username, other, connected, replies, trim, run, id, v.affiliations(s0.now, id));
  }

  /**
   What the theorems on runs say of it: CDP answers that change over time are of the age that
   AnswerAge states, and those that are constant and independent of the email are the uncached ones.
   */
  lemma FlowAnswers(v: Env, run: seq<Action>, i: nat, username: string, email: string, begun: nat,
                    list: seq<Affiliation>)
    returns (id: string, t1: nat, t2: nat)
    requires Faithful(v.codec) && EndedWith(v, run, i, username, email, begun, Answer(list))
    ensures AnswerOf(v, After(v, run).requests[i], After(v, run).now, id, t1, t2)
    ensures Constant(v) && EmailIndependent(v) ==> list == Uncached(v, username, email)
  {
    id, t1, t2 := AnswerAge(v, run, i);
    if Constant(v) && EmailIndependent(v) {
      EmailIndependentIsTransparent(v);
      assert AnswersLikeUncached(v, After(v, run).requests[i]);
    }
  }

  // ---------- the background refreshers ----------

  /** Refresh `j` has come to `g` and has left the store as the cache now has it. */
  method GotoRefresh(cache: Cache, v: Env, s: State, j: nat, g: Refresh,
                     ghost f: Faults, ghost acts: seq<Action>, ghost run: seq<Action>)
    returns (s': State, ghost longer: seq<Action>)
    requires Serves(cache, v) && IsRun(v, run) && After(v, run) == s && Honest(v, acts, run, MyRefresh(j), f)
    requires j < |s.refreshes| && !s.refreshes[j].Ended?
    requires RefreshStep(v, s.refreshes[j], s.store, s.now, RefreshFault(v, s.refreshes[j], s.now, f))
             == RefreshEffect(g, cache.store)
    ensures At(cache, v, acts, longer, s', MyRefresh(j), f)
    ensures j < |s'.refreshes| && s'.refreshes[j] == g && s'.now == s.now
  {
    s' := s.(refreshes := s.refreshes[j := g], store := cache.store);
    longer := HonestSnoc(v, acts, run, MyRefresh(j), f, AdvanceRefresh(j, RefreshFault(v, s.refreshes[j], s.now, f)));
  }

  /** The refresh runs to its end while the world does `before` and `between`: with just the faults `f`, a run. */
  method BackgroundRefreshMemberId(cache: Cache, v: Env, s0: State, j: nat, username: string, email: string,
                                   before: seq<Action>, between: seq<Action>, f: Faults, ghost acts: seq<Action>)
    returns (s: State, ghost run: seq<Action>)
    requires Serves(cache, v) && cache.store == s0.store && IsRun(v, acts) && After(v, acts) == s0
    requires j < |s0.refreshes| && s0.refreshes[j] == RefreshMember(username, email)
    modifies cache`store
    ensures At(cache, v, acts, run, s, MyRefresh(j), f)
    ensures j < |s.refreshes| && s.refreshes[j] == Ended
  {
    run := acts;
    s, run := Interfere(cache, v, s0, MyRefresh(j), before, f, acts, run);
    if f.resolve {
      s, run := GotoRefresh(cache, v, s, j, Ended, f, acts, run);
      return;
    }
    var memberId := v.resolve(s.now, username, email);
    if memberId != "" {
      s, run := GotoRefresh(cache, v, s, j, StoreMember(username, memberId, s.now), f, acts, run);
      s, run := StoreRefreshedId(cache, v, s, j, username, memberId, s.now, between, f, acts, run);
    } else {
      s, run := GotoRefresh(cache, v, s, j, Ended, f, acts, run);
    }
  }

  method StoreRefreshedId(cache: Cache, v: Env, s0: State, j: nat, username: string, memberId: string, fetched: nat,
                          between: seq<Action>, f: Faults, ghost acts: seq<Action>, ghost run0: seq<Action>)
    returns (s: State, ghost run: seq<Action>)
    requires At(cache, v, acts, run0, s0, MyRefresh(j), f)
    requires j < |s0.refreshes| && s0.refreshes[j] == StoreMember(username, memberId, fetched)
    modifies cache`store
    ensures At(cache, v, acts, run, s, MyRefresh(j), f)
    ensures j < |s.refreshes| && s.refreshes[j] == Ended
  {
    s, run := Interfere(cache, v, s0, MyRefresh(j), between, f, acts, run0);
    cache.PutMemberId(username, memberId, s.now, f.putMember || s.now > fetched + v.lag);
    s, run := GotoRefresh(cache, v, s, j, Ended, f, acts, run);
  }

  method BackgroundRefreshAffiliations(cache: Cache, v: Env, s0: State, j: nat, memberId: string,
                                       before: seq<Action>, between: seq<Action>, f: Faults, ghost acts: seq<Action>)
    returns (s: State, ghost run: seq<Action>)
    requires Serves(cache, v) && cache.store == s0.store && IsRun(v, acts) && After(v, acts) == s0
    requires j < |s0.refreshes| && s0.refreshes[j] == RefreshAffs(memberId)
    modifies cache`store
    ensures At(cache, v, acts, run, s, MyRefresh(j), f)
    ensures j < |s.refreshes| && s.refreshes[j] == Ended
  {
    run := acts;
    s, run := Interfere(cache, v, s0, MyRefresh(j), before, f, acts, run);
    if f.fetchAffs {
      s, run := GotoRefresh(cache, v, s, j, Ended, f, acts, run);
      return;
    }
    var affiliations := v.affiliations(s.now, memberId);
    s, run := GotoRefresh(cache, v, s, j, StoreAffs(memberId, affiliations, s.now), f, acts, run);
    s, run := StoreRefreshedList(cache, v, s, j, memberId, affiliations, s.now, between, f, acts, run);
  }

  method StoreRefreshedList(cache: Cache, v: Env, s0: State, j: nat, memberId: string, affiliations: seq<Affiliation>,
                            fetched: nat, between: seq<Action>, f: Faults, ghost acts: seq<Action>,
                            ghost run0: seq<Action>)
    returns (s: State, ghost run: seq<Action>)
    requires At(cache, v, acts, run0, s0, MyRefresh(j), f)
    requires j < |s0.refreshes| && s0.refreshes[j] == StoreAffs(memberId, affiliations, fetched)
    modifies cache`store
    ensures At(cache, v, acts, run, s, MyRefresh(j), f)
    ensures j < |s.refreshes| && s.refreshes[j] == Ended
  {
    s, run := Interfere(cache, v, s0, MyRefresh(j), between, f, acts, run0);
    cache.PutAffiliations(memberId, affiliations, s.now, f.putAffs || s.now > fetched + v.lag);
    s, run := GotoRefresh(cache, v, s, j, Ended, f, acts, run);
  }
}
