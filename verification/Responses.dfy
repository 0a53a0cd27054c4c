/** The reply of GetPersona as a whole: the sources' guarantees carried through the fan-out protocol. */
module Responses {
  import opened PersonaModel
  import opened Bags
  import opened Grouping
  import opened Emission
  import opened FanOut
  import opened FanOutInvariant
  import opened FanOutTheorems
  import opened SourceResults
  import opened Counts
  import opened MergeHeap
  import CacheTheorems
  import Clauses

  // ---------- admission ----------

  datatype Payload = MalformedJson | Json(username: string, email: string)

  datatype Admission = Rejected(response: Response) | Admitted(username: string, email: string)

  /** The checks before the fan-out, in the handler's order. */
  function Admit(p: Payload, lower: string -> string, trim: string -> string): Admission {
    if p.MalformedJson? then Rejected(Response([], Some(InvalidRequest)))
    else
      var email, username := lower(trim(p.email)), trim(p.username);
      if email == "" then Rejected(Response([], Some(ValidationError)))
      else if !Clauses.IsValidQueryUsername(username) then Rejected(Response([], Some(ValidationError)))
      else Admitted(username, email)
  }

  /** A letter, a digit, an underscore, a hyphen or a full stop. */
  predicate PlainChar(c: char) {
    'a' <= c <= 'z' || 'A' <= c <= 'Z' || '0' <= c <= '9' || c in ['_', '-', '.']
  }

  /**
   A request is rejected exactly for malformed JSON, an email that is blank, or a username with a
   character that is not plain. It gets no projects, and `invalid_request` exactly for malformed JSON.
   An admitted one keeps its username trimmed and its email trimmed and lower-cased. It is safe to put
   into every username leg; an email leg of it is safe exactly when the email has no comma.
   */
  lemma AdmittedRequestsRoundTrip(p: Payload, lower: string -> string, trim: string -> string, q: Clauses.Search)
    ensures match Admit(p, lower, trim)
            case Rejected(r) =>
              && r.projects == [] && r.error.Some? && r.error != Some(HandlerTimeout)
              && (r.error == Some(InvalidRequest) <==> p.MalformedJson?)
            case Admitted(username, email) =>
              && p.Json? && username == trim(p.username) && email == lower(trim(p.email)) && email != ""
              && Clauses.Survives(Clauses.UsernameLegParams(q, username).tagsAll)
              && Clauses.Survives(Clauses.UsernameLegParams(q, username).filters)
              && Clauses.Split(Clauses.UsernameClause(q, username), ':') == [Clauses.UsernameField(q), username]
              && (Clauses.Survives(Clauses.EmailLegTags(q, email)) <==> ',' !in email)
    ensures Admit(p, lower, trim).Rejected? <==>
            p.MalformedJson? || lower(trim(p.email)) == "" || exists c :: c in trim(p.username) && !PlainChar(c)
  {
    if p.Json? {
      ValidIffPlain(trim(p.username));
    }
    match Admit(p, lower, trim)
    case Rejected(_) =>
    case Admitted(username, email) =>
      Clauses.UsernameLegRoundTrip(q, username);
      Clauses.EmailLegRoundTrip(q, email);
  }

  lemma ValidIffPlain(username: string)
    ensures Clauses.IsValidQueryUsername(username) <==> forall c :: c in username ==> PlainChar(c)
  {
    if !Clauses.IsValidQueryUsername(username) {
      var i :| 0 <= i < |username| && !Clauses.UsernameChar(username[i]);
      assert username[i] in username && !PlainChar(username[i]);
    }
  }

  /** The emails for which an email leg fails do get past the checks: nothing but emptiness rejects an email. */
  lemma CommaEmailIsAdmitted(email: string, lower: string -> string, trim: string -> string, q: Clauses.Search)
    requires trim("") == "" && trim(email) == email && lower(email) == email && ',' in email
    ensures Admit(Json("", email), lower, trim) == Admitted("", email)
    ensures !Clauses.Survives(Clauses.EmailLegTags(q, email))
  {
    Clauses.EmailLegRoundTrip(q, email);
  }

  // ---------- the enabled sources ----------

  const CHANNEL_CAPACITY: nat := 8

  /** The sources that the handler's options switch on, in the order in which they are started. */
  function EnabledKinds(query: bool, cdp: bool): seq<Kind> {
    (if query then [BoardAndCommitteeSource, DirectorSource, WriterAuditorSource, MailingListSource, MeetingSource]
     else [])
    + (if cdp then [CdpSource] else [])
  }

  function HandlerConfig(query: bool, cdp: bool): Config {
    Config(|EnabledKinds(query, cdp)|, CHANNEL_CAPACITY)
  }

  /** The handler as configured never deadlocks and never leaks a goroutine. */
  lemma HandlerNeverDeadlocks(query: bool, cdp: bool)
    ensures DeadlockFree(HandlerConfig(query, cdp))
  {
    DeadlockFreeIffBuffered(HandlerConfig(query, cdp));
  }

  // ---------- the reply contract ----------

  /** Each message is what its source sends when the upstreams reply `up`. */
  ghost predicate AllSend(log: seq<Msg>, kinds: seq<Kind>, t: Setting, up: Upstreams) {
    forall j :: 0 <= j < |log| ==> log[j].source < |kinds| && MaySend(kinds[log[j].source], t, up, log[j].outcome)
  }

  /** What the handler's sources have sent in `s`; the connection comes with the Query Service option only. */
  ghost predicate FromSources(s: State, query: bool, cdp: bool, t: Setting, up: Upstreams) {
    (t.connected ==> query) && AllSend(s.sent, EnabledKinds(query, cdp), t, up)
  }

  lemma {:induction false} CollectedLawful(log: seq<Msg>, kinds: seq<Kind>, t: Setting, up: Upstreams)
    requires AllSend(log, kinds, t, up)
    ensures Lawful(Collected(log))
  {
    if log != [] {
      var front, m := log[..|log| - 1], log[|log| - 1];
      CollectedLawful(front, kinds, t, up);
      if m.outcome.Succeeded? && m.outcome.projects != [] {
        SourceResultsLawful(kinds[m.source], t, up, m.outcome);
        PairedConcat(Collected(front), m.outcome.projects);
      } else {
        assert Collected(log) == Collected(front);
      }
    }
  }

  /**
   Every reply, on time or timed out: unique non-empty UIDs, a detection in every project, each
   Board seat also reported as a committee membership on the same project, and exactly the
   detections of the results received, each with its UID.
   */
  lemma ReplyContract(query: bool, cdp: bool, acts: seq<Action>, t: Setting, up: Upstreams)
    requires IsRun(HandlerConfig(query, cdp), acts) && After(HandlerConfig(query, cdp), acts).collector.Replied?
    requires FromSources(After(HandlerConfig(query, cdp), acts), query, cdp, t, up)
    ensures var s := After(HandlerConfig(query, cdp), acts);
            var reply := s.collector.response.projects;
            && WellFormed(reply)
            && (forall i :: 0 <= i < |reply| ==> BoardPaired(reply[i].detections))
            && s.received <= |s.sent|
            && Tagged(reply) == Tagged(Collected(s.sent[..s.received]))
  {
    var c := HandlerConfig(query, cdp);
    ExactResults(c, acts);
    var heard := After(c, acts).sent[..After(c, acts).received];
    CollectedLawful(heard, EnabledKinds(query, cdp), t, up);
    GroupLawful(Collected(heard));
  }

  /** Grouping lawful entries makes them fit to be a reply. */
  lemma GroupLawful(ps: seq<Project>)
    requires Lawful(ps)
    ensures WellFormed(Group(ps)) && Tagged(Group(ps)) == Tagged(ps)
    ensures forall i :: 0 <= i < |Group(ps)| ==> BoardPaired(Group(ps)[i].detections)
  {
    GroupWellFormed(ps);
    GroupConserves(ps);
    forall i | 0 <= i < |Group(ps)|
      ensures BoardPaired(Group(ps)[i].detections)
    {
      assert Group(ps)[i].detections == DetectionsOf(ps, Uids(ps)[i]);
    }
  }

  /** With CDP alone there is no project-service connection, so every reply is empty. */
  lemma CdpAloneRepliesEmpty(acts: seq<Action>, t: Setting, up: Upstreams)
    requires IsRun(HandlerConfig(false, true), acts) && After(HandlerConfig(false, true), acts).collector.Replied?
    requires FromSources(After(HandlerConfig(false, true), acts), false, true, t, up)
    ensures After(HandlerConfig(false, true), acts).collector.response.projects == []
  {
    var c := HandlerConfig(false, true);
    ExactResults(c, acts);
    var s := After(c, acts);
    CollectedEmpty(s.sent[..s.received], t, up);
  }

  lemma {:induction false} CollectedEmpty(log: seq<Msg>, t: Setting, up: Upstreams)
    requires AllSend(log, [CdpSource], t, up) && !t.connected
    ensures Collected(log) == []
  {
    if log != [] {
      var m := log[|log| - 1];
      CollectedEmpty(log[..|log| - 1], t, up);
      if m.outcome.Succeeded? {
        CdpSlugs.CdpAloneIsEmpty(up.cdp.affiliations, up.cdpSlugs, t.trim);
      }
    }
  }

  // ---------- comparing two runs ----------

  function MsgTags(m: Msg): multiset<(string, Detection)> {
    match m.outcome case Failed => multiset{} case Succeeded(ps) => Tagged(ps)
  }

  lemma {:induction false} CollectedTags(log: seq<Msg>)
    ensures Tagged(Collected(log)) == BagSum(log, MsgTags)
  {
    if log != [] {
      var front, m := log[..|log| - 1], log[|log| - 1];
      CollectedTags(front);
      match m.outcome
      case Failed =>
        assert Collected(log) == Collected(front);
      case Succeeded(ps) =>
        BagSumConcat(Collected(front), ps, Tags);
    }
  }

  ghost predicate DistinctSources(log: seq<Msg>) {
    forall j, k :: 0 <= j < k < |log| ==> log[j].source != log[k].source
  }

  /** `part` succeeds only with messages of `full`; its other sources failed or are missing. */
  ghost predicate Weakens(part: seq<Msg>, full: seq<Msg>) {
    forall m :: m in part && m.outcome.Succeeded? ==> m in full
  }

  lemma {:induction false} DistinctCounts(log: seq<Msg>, m: Msg)
    requires DistinctSources(log)
    ensures multiset(log)[m] == if m in log then 1 else 0
  {
    if log != [] {
      var front, last := log[..|log| - 1], log[|log| - 1];
      assert log == front + [last];
      DistinctCounts(front, m);
    }
  }

  /** Losing sources only loses detections. */
  lemma WeakerLogFewerTags(part: seq<Msg>, full: seq<Msg>)
    requires DistinctSources(part) && DistinctSources(full) && Weakens(part, full)
    ensures Tagged(Collected(part)) <= Tagged(Collected(full))
    ensures forall p :: p in Collected(part) ==> p in Collected(full)
  {
    CollectedTags(part);
    CollectedTags(full);
    forall m | m in part && MsgTags(m) != multiset{}
      ensures multiset(part)[m] <= multiset(full)[m]
    {
      DistinctCounts(part, m);
      DistinctCounts(full, m);
    }
    BagSumMonotone(full, part, MsgTags);
    forall p | p in Collected(part)
      ensures p in Collected(full)
    {
      CollectedHas(part, p);
      CollectedHas(full, p);
    }
  }

  lemma {:induction false} CollectedHas(log: seq<Msg>, p: Project)
    ensures p in Collected(log) <==> exists m :: m in log && m.outcome.Succeeded? && p in m.outcome.projects
  {
    if log != [] {
      var front, last := log[..|log| - 1], log[|log| - 1];
      CollectedHas(front, p);
      assert log == front + [last];
      assert p in Collected(log) <==> p in Collected(front) || (last.outcome.Succeeded? && p in last.outcome.projects);
    }
  }

  lemma ProjectsGiveUids(a: seq<Project>, b: seq<Project>)
    requires forall p :: p in a ==> p in b
    ensures forall u :: u in Uids(a) ==> u in Uids(b)
  {
    forall u | u in Uids(a)
      ensures u in Uids(b)
    {
      UidsAre(a, u);
      UidsAre(b, u);
      var i :| 0 <= i < |a| && a[i].uid == u;
      assert a[i] in b;
    }
  }

  /** What the collector of a replied run has received. */
  ghost function Heard(c: Config, acts: seq<Action>): seq<Msg>
    requires IsRun(c, acts) && After(c, acts).collector.Replied?
  {
    ExactResults(c, acts);
    After(c, acts).sent[..After(c, acts).received]
  }

  ghost function ReplyProjects(c: Config, acts: seq<Action>): seq<Project>
    requires IsRun(c, acts) && After(c, acts).collector.Replied?
  {
    After(c, acts).collector.response.projects
  }

  lemma HeardDistinct(c: Config, acts: seq<Action>)
    requires IsRun(c, acts) && After(c, acts).collector.Replied?
    ensures DistinctSources(Heard(c, acts))
    ensures ReplyProjects(c, acts) == Group(Collected(Heard(c, acts)))
  {
    InvAlways(c, acts);
    ExactResults(c, acts);
  }

  /** The same source's message, with the same outcome up to order. */
  ghost predicate Counterpart(n: Msg, m: Msg) {
    n.source == m.source && SameUpToOrder(n.outcome, m.outcome)
  }

  /** Every success in `part` is one in `full`, up to order; the other sources of `full` failed or are missing. */
  ghost predicate WeakensUpToOrder(part: seq<Msg>, full: seq<Msg>) {
    forall m :: m in part && m.outcome.Succeeded? ==> exists n :: n in full && Counterpart(n, m)
  }

  ghost function CounterpartOf(full: seq<Msg>, m: Msg): (n: Msg)
    requires exists n :: n in full && Counterpart(n, m)
    ensures n in full && Counterpart(n, m)
  {
    var n :| n in full && Counterpart(n, m);
    n
  }

  /** `part` with each success as it stands in `full`. */
  ghost function Rewritten(part: seq<Msg>, full: seq<Msg>): (z: seq<Msg>)
    requires WeakensUpToOrder(part, full)
    ensures |z| == |part| && forall j :: 0 <= j < |z| ==>
      Counterpart(z[j], part[j]) && (z[j].outcome.Succeeded? ==> z[j] in full)
  {
    seq(|part|, j requires 0 <= j < |part| =>
      if part[j].outcome.Succeeded? then CounterpartOf(full, part[j]) else part[j])
  }

  lemma WeakerUpToOrderFewerTags(part: seq<Msg>, full: seq<Msg>)
    requires DistinctSources(part) && DistinctSources(full) && WeakensUpToOrder(part, full)
    ensures Tagged(Collected(part)) <= Tagged(Collected(full))
    ensures forall p :: p in Collected(part) ==> p in Collected(full)
  {
    var z := Rewritten(part, full);
    RewrittenWeakens(part, full, z);
    WeakerLogFewerTags(z, full);
    ReorderedAnswer(part, z);
    BagSumPermutation(Collected(part), Collected(z), Tags);
    SameMembers(Collected(part), Collected(z));
  }

  lemma RewrittenWeakens(part: seq<Msg>, full: seq<Msg>, z: seq<Msg>)
    requires DistinctSources(part) && |z| == |part|
    requires forall j :: 0 <= j < |z| ==> Counterpart(z[j], part[j]) && (z[j].outcome.Succeeded? ==> z[j] in full)
    ensures Reordered(part, z) && DistinctSources(z) && Weakens(z, full)
  {
    forall m | m in z && m.outcome.Succeeded?
      ensures m in full
    {
      var j :| 0 <= j < |z| && z[j] == m;
    }
  }

  /**
   Graceful degradation: a reply whose successful results are, up to order, among those of another
   reply, the rest having failed or come too late, has a subset of its UIDs and of its detections.
   */
  lemma FewerSourcesFewerDetections(c: Config, part: seq<Action>, full: seq<Action>)
    requires IsRun(c, part) && After(c, part).collector.Replied?
    requires IsRun(c, full) && After(c, full).collector.Replied?
    requires WeakensUpToOrder(Heard(c, part), Heard(c, full))
    ensures Tagged(ReplyProjects(c, part)) <= Tagged(ReplyProjects(c, full))
    ensures forall u :: u in Uids(ReplyProjects(c, part)) ==> u in Uids(ReplyProjects(c, full))
  {
    HeardDistinct(c, part);
    HeardDistinct(c, full);
    var a, b := Collected(Heard(c, part)), Collected(Heard(c, full));
    WeakerUpToOrderFewerTags(Heard(c, part), Heard(c, full));
    GroupConserves(a);
    GroupConserves(b);
    GroupAlike(a);
    GroupAlike(b);
    ProjectsGiveUids(a, b);
  }

  /** All entries that `ps` holds for `u` carry the same slug. */
  ghost predicate SlugAgreed(ps: seq<Project>, u: string) {
    forall p, q :: p in ps && q in ps && p.uid == u && q.uid == u ==> p.slug == q.slug
  }

  /** The order of arrival does not matter to the UIDs, the detections, or a slug that is not disputed. */
  lemma ArrivalOrderIrrelevant(c: Config, x: seq<Action>, y: seq<Action>)
    requires IsRun(c, x) && After(c, x).collector.Replied?
    requires IsRun(c, y) && After(c, y).collector.Replied?
    requires forall m: Msg :: m.outcome.Succeeded? ==> (m in Heard(c, x) <==> m in Heard(c, y))
    ensures SameAnswer(ReplyProjects(c, x), ReplyProjects(c, y))
    ensures forall u :: u in Uids(ReplyProjects(c, x)) && SlugAgreed(Collected(Heard(c, x)), u) ==>
      u in Uids(ReplyProjects(c, y)) && SlugOf(ReplyProjects(c, x), u) == SlugOf(ReplyProjects(c, y), u)
  {
    HeardDistinct(c, x);
    HeardDistinct(c, y);
    var a, b := Collected(Heard(c, x)), Collected(Heard(c, y));
    WeakerLogFewerTags(Heard(c, x), Heard(c, y));
    WeakerLogFewerTags(Heard(c, y), Heard(c, x));
    ProjectsGiveUids(a, b);
    ProjectsGiveUids(b, a);
    SameTagsSameAnswer(a, b);
    forall u | u in Uids(ReplyProjects(c, x)) && SlugAgreed(a, u)
      ensures u in Uids(ReplyProjects(c, y)) && SlugOf(ReplyProjects(c, x), u) == SlugOf(ReplyProjects(c, y), u)
    {
      AgreedSlugs(a, b, u);
    }
  }

  lemma AgreedSlugs(a: seq<Project>, b: seq<Project>, u: string)
    requires u in Uids(Group(a)) && SlugAgreed(a, u)
    requires forall p :: p in a <==> p in b
    ensures u in Uids(Group(b)) && SlugOf(Group(a), u) == SlugOf(Group(b), u)
  {
    GroupAlike(a);
    GroupAlike(b);
    ProjectsGiveUids(a, b);
    SlugIsContributed(a, u);
    SlugIsContributed(b, u);
    var i :| 0 <= i < |a| && a[i].uid == u && a[i].slug == SlugOf(a, u);
    var j :| 0 <= j < |b| && b[j].uid == u && b[j].slug == SlugOf(b, u);
    assert b[j] in a;
  }

  /** `other` is `log` with each message's outcome possibly reordered. */
  ghost predicate Reordered(log: seq<Msg>, other: seq<Msg>) {
    |log| == |other| && forall j :: 0 <= j < |log| ==>
      log[j].source == other[j].source && SameUpToOrder(log[j].outcome, other[j].outcome)
  }

  lemma {:induction false} ReorderedAnswer(log: seq<Msg>, other: seq<Msg>)
    requires Reordered(log, other)
    ensures multiset(Collected(log)) == multiset(Collected(other))
  {
    if log != [] {
      ReorderedAnswer(log[..|log| - 1], other[..|other| - 1]);
    }
  }

  /** `m`'s source sends the same in both runs, up to order. */
  ghost predicate SourcesAgree(x: seq<Msg>, y: seq<Msg>) {
    forall m, n :: m in x && n in y && m.source == n.source ==> SameUpToOrder(m.outcome, n.outcome)
  }

  /** The message of source `i` in `log`. */
  ghost function MessageOf(log: seq<Msg>, i: nat): (m: Msg)
    requires HeardFrom(log, i)
    ensures m in log && m.source == i
  {
    var j :| 0 <= j < |log| && log[j].source == i;
    log[j]
  }

  /** `x` in the order of arrival of `y`. */
  ghost function InOrderOf(x: seq<Msg>, y: seq<Msg>): (z: seq<Msg>)
    requires forall j :: 0 <= j < |y| ==> HeardFrom(x, y[j].source)
    ensures |z| == |y| && forall j :: 0 <= j < |y| ==> z[j] in x && z[j].source == y[j].source
  {
    seq(|y|, j requires 0 <= j < |y| => MessageOf(x, y[j].source))
  }

  /**
   Two replies without an error whose sources returned the same up to order: every source was heard
   in both, so the replies agree on the UIDs, the detections and each undisputed slug, whatever
   the interleavings.
   */
  lemma CompleteRunsAgree(c: Config, x: seq<Action>, y: seq<Action>)
    requires IsRun(c, x) && After(c, x).collector.Replied? && After(c, x).collector.response.error == None
    requires IsRun(c, y) && After(c, y).collector.Replied? && After(c, y).collector.response.error == None
    requires SourcesAgree(Heard(c, x), Heard(c, y))
    ensures SameAnswer(ReplyProjects(c, x), ReplyProjects(c, y))
    ensures forall u :: u in Uids(ReplyProjects(c, x)) && SlugAgreed(Collected(Heard(c, x)), u) ==>
      u in Uids(ReplyProjects(c, y)) && SlugOf(ReplyProjects(c, x), u) == SlugOf(ReplyProjects(c, y), u)
  {
    HeardDistinct(c, x);
    HeardDistinct(c, y);
    CompleteLog(c, x);
    CompleteLog(c, y);
    CompleteLogsAgree(c, Heard(c, x), Heard(c, y));
    SameBagsAgree(Collected(Heard(c, x)), Collected(Heard(c, y)));
  }

  lemma CompleteLog(c: Config, x: seq<Action>)
    requires IsRun(c, x) && After(c, x).collector.Replied? && After(c, x).collector.response.error == None
    ensures HeardFromAll(c, Heard(c, x))
    ensures forall j :: 0 <= j < |Heard(c, x)| ==> Heard(c, x)[j].source < c.sources
  {
    NoSilentTimeout(c, x);
    InvAlways(c, x);
  }

  /** Complete logs of sources that agree up to order collect the same projects, up to order. */
  lemma CompleteLogsAgree(c: Config, x: seq<Msg>, y: seq<Msg>)
    requires DistinctSources(x) && DistinctSources(y) && SourcesAgree(x, y)
    requires HeardFromAll(c, x) && HeardFromAll(c, y)
    requires forall j :: 0 <= j < |x| ==> x[j].source < c.sources
    requires forall j :: 0 <= j < |y| ==> y[j].source < c.sources
    ensures multiset(Collected(x)) == multiset(Collected(y))
  {
    var z := InOrderOf(x, y);
    ReorderedAnswer(z, y);
    SameMessageBag(c, x, y, z);
    CollectedBag(x);
    CollectedBag(z);
    BagSumPermutation(x, z, Bag);
  }

  lemma SameMessageBag(c: Config, x: seq<Msg>, y: seq<Msg>, z: seq<Msg>)
    requires DistinctSources(x) && DistinctSources(z) && HeardFromAll(c, y)
    requires forall j :: 0 <= j < |x| ==> x[j].source < c.sources
    requires |z| == |y| && forall j :: 0 <= j < |y| ==> z[j] in x && z[j].source == y[j].source
    ensures multiset(x) == multiset(z)
  {
    forall m
      ensures multiset(x)[m] == multiset(z)[m]
    {
      DistinctCounts(x, m);
      DistinctCounts(z, m);
      SameMessages(c, x, y, z, m);
    }
  }

  lemma SameMessages(c: Config, x: seq<Msg>, y: seq<Msg>, z: seq<Msg>, m: Msg)
    requires DistinctSources(x) && HeardFromAll(c, y)
    requires forall j :: 0 <= j < |x| ==> x[j].source < c.sources
    requires |z| == |y| && forall j :: 0 <= j < |y| ==> z[j] in x && z[j].source == y[j].source
    ensures m in x <==> m in z
  {
    if m in x {
      var i :| 0 <= i < |x| && x[i] == m;
      assert HeardFrom(y, m.source);
      var j :| 0 <= j < |y| && y[j].source == m.source;
      var k :| 0 <= k < |x| && x[k] == z[j];
      assert k == i;
      assert z[j] == m;
    }
  }

  /** The projects of one message, as a bag. */
  function Bag(m: Msg): multiset<Project> {
    match m.outcome case Failed => multiset{} case Succeeded(ps) => multiset(ps)
  }

  lemma {:induction false} CollectedBag(log: seq<Msg>)
    ensures multiset(Collected(log)) == BagSum(log, Bag)
  {
    if log != [] {
      CollectedBag(log[..|log| - 1]);
    }
  }

  /** Equal bags of contributions give the same grouped answer. */
  lemma SameBagsAgree(a: seq<Project>, b: seq<Project>)
    requires multiset(a) == multiset(b)
    ensures SameAnswer(Group(a), Group(b))
    ensures forall u :: u in Uids(Group(a)) && SlugAgreed(a, u) ==>
      u in Uids(Group(b)) && SlugOf(Group(a), u) == SlugOf(Group(b), u)
  {
    WriterAuditor.PermutedAnswer(a, b);
    SameMembers(a, b);
    forall u | u in Uids(Group(a)) && SlugAgreed(a, u)
      ensures u in Uids(Group(b)) && SlugOf(Group(a), u) == SlugOf(Group(b), u)
    {
      AgreedSlugs(a, b, u);
    }
  }

  lemma SameMembers(a: seq<Project>, b: seq<Project>)
    requires multiset(a) == multiset(b)
    ensures forall p :: p in a <==> p in b
  {
    forall p
      ensures p in a <==> p in b
    {
      assert p in a <==> p in multiset(a);
      assert p in b <==> p in multiset(b);
    }
  }

  /**
   The whole service: when the upstreams reply the same, any two replies without an error agree on
   the UIDs, the detections and each undisputed slug, for all interleavings and all map orders.
   */
  lemma SameRepliesSameAnswer(query: bool, cdp: bool, x: seq<Action>, y: seq<Action>, t: Setting, up: Upstreams)
    requires var c := HandlerConfig(query, cdp);
             && IsRun(c, x) && After(c, x).collector.Replied? && After(c, x).collector.response.error == None
             && IsRun(c, y) && After(c, y).collector.Replied? && After(c, y).collector.response.error == None
    requires FromSources(After(HandlerConfig(query, cdp), x), query, cdp, t, up)
    requires FromSources(After(HandlerConfig(query, cdp), y), query, cdp, t, up)
    ensures var c := HandlerConfig(query, cdp);
            && SameAnswer(ReplyProjects(c, x), ReplyProjects(c, y))
            && forall u :: u in Uids(ReplyProjects(c, x)) && SlugAgreed(Collected(Heard(c, x)), u) ==>
                 u in Uids(ReplyProjects(c, y)) && SlugOf(ReplyProjects(c, x), u) == SlugOf(ReplyProjects(c, y), u)
  {
    var c := HandlerConfig(query, cdp);
    HeardSends(query, cdp, x, t, up);
    HeardSends(query, cdp, y, t, up);
    SendersAgree(Heard(c, x), Heard(c, y), EnabledKinds(query, cdp), t, up);
    CompleteRunsAgree(c, x, y);
  }

  /**
   And a deadline only takes away: whatever was heard of the same upstream replies, on time or not, is
   a part of every reply without an error to them, for all interleavings and all map orders.
   */
  lemma LateReplyIsPart(query: bool, cdp: bool, part: seq<Action>, full: seq<Action>, t: Setting, up: Upstreams)
    requires IsRun(HandlerConfig(query, cdp), part) && After(HandlerConfig(query, cdp), part).collector.Replied?
    requires IsRun(HandlerConfig(query, cdp), full) && After(HandlerConfig(query, cdp), full).collector.Replied?
    requires After(HandlerConfig(query, cdp), full).collector.response.error == None
    requires FromSources(After(HandlerConfig(query, cdp), part), query, cdp, t, up)
    requires FromSources(After(HandlerConfig(query, cdp), full), query, cdp, t, up)
    ensures var c := HandlerConfig(query, cdp);
            && Tagged(ReplyProjects(c, part)) <= Tagged(ReplyProjects(c, full))
            && forall u :: u in Uids(ReplyProjects(c, part)) ==> u in Uids(ReplyProjects(c, full))
  {
    var c := HandlerConfig(query, cdp);
    HeardSends(query, cdp, part, t, up);
    HeardSends(query, cdp, full, t, up);
    CompleteLog(c, full);
    CompleteLogCovers(c, Heard(c, part), Heard(c, full), EnabledKinds(query, cdp), t, up);
    FewerSourcesFewerDetections(c, part, full);
  }

  lemma CompleteLogCovers(c: Config, part: seq<Msg>, full: seq<Msg>, kinds: seq<Kind>, t: Setting, up: Upstreams)
    requires AllSend(part, kinds, t, up) && AllSend(full, kinds, t, up)
    requires HeardFromAll(c, full) && c.sources == |kinds|
    ensures WeakensUpToOrder(part, full)
  {
    forall m | m in part && m.outcome.Succeeded?
      ensures exists n :: n in full && Counterpart(n, m)
    {
      assert HeardFrom(full, m.source);
      var n := MessageOf(full, m.source);
      SameRepliesSameOutcome(kinds[m.source], t, up, n.outcome, m.outcome);
      assert Counterpart(n, m);
    }
  }

  lemma HeardSends(query: bool, cdp: bool, acts: seq<Action>, t: Setting, up: Upstreams)
    requires IsRun(HandlerConfig(query, cdp), acts) && After(HandlerConfig(query, cdp), acts).collector.Replied?
    requires FromSources(After(HandlerConfig(query, cdp), acts), query, cdp, t, up)
    ensures AllSend(Heard(HandlerConfig(query, cdp), acts), EnabledKinds(query, cdp), t, up)
  {
    ExactResults(HandlerConfig(query, cdp), acts);
  }

  lemma SendersAgree(x: seq<Msg>, y: seq<Msg>, kinds: seq<Kind>, t: Setting, up: Upstreams)
    requires AllSend(x, kinds, t, up) && AllSend(y, kinds, t, up)
    ensures SourcesAgree(x, y)
  {
    forall m, n | m in x && n in y && m.source == n.source
      ensures SameUpToOrder(m.outcome, n.outcome)
    {
      SameRepliesSameOutcome(kinds[m.source], t, up, m.outcome, n.outcome);
    }
  }

  // ---------- the heap collector ----------

  /** The successful results in `log`, one list for each. */
  function Successes(log: seq<Msg>): seq<seq<Project>> {
    if log == [] then [] else
      Successes(log[..|log| - 1]) +
      match log[|log| - 1].outcome case Failed => [] case Succeeded(ps) => [ps]
  }

  lemma {:induction false} SuccessesFlatten(log: seq<Msg>)
    ensures Flatten(Successes(log)) == Collected(log)
  {
    if log != [] {
      var front := Successes(log[..|log| - 1]);
      SuccessesFlatten(log[..|log| - 1]);
      match log[|log| - 1].outcome
      case Failed => assert front + [] == front;
      case Succeeded(ps) => assert (front + [ps])[..|front|] == front;
    }
  }

  /** A collector over Go slices that receives what the protocol's collector received ends with the reply. */
  method CollectReply(ghost c: Config, ghost acts: seq<Action>, results: seq<Built>) returns (projects: seq<Entry>)
    requires IsRun(c, acts) && After(c, acts).collector.Replied?
    requires Values(results) == Successes(Heard(c, acts))
    ensures AllValid(projects) && Separate(projects)
    ensures Views(projects) == ReplyProjects(c, acts)
  {
    HeardDistinct(c, acts);
    SuccessesFlatten(Heard(c, acts));
    FoldIsOneGrouping(Successes(Heard(c, acts)));
    projects := CollectResults(results);
  }

  // ---------- which detections a reply holds ----------

  /**
   The detections of each project of a reply, timed out or not, are exactly those that the upstream
   replies call for, by the sources that were heard and had succeeded.
   */
  lemma ReplyExact(query: bool, cdp: bool, acts: seq<Action>, t: Setting, up: Upstreams, u: string, d: Detection)
    requires IsRun(HandlerConfig(query, cdp), acts) && After(HandlerConfig(query, cdp), acts).collector.Replied?
    requires FromSources(After(HandlerConfig(query, cdp), acts), query, cdp, t, up)
    ensures var c := HandlerConfig(query, cdp);
            d in DetectionsOf(ReplyProjects(c, acts), u) <==>
            exists k :: Delivered(Heard(c, acts), EnabledKinds(query, cdp), k) && CallsFor(k, t, up, u, d)
  {
    var c := HandlerConfig(query, cdp);
    HeardDistinct(c, acts);
    HeardSends(query, cdp, acts, t, up);
    GroupAlike(Collected(Heard(c, acts)));
    CollectedExact(Heard(c, acts), EnabledKinds(query, cdp), t, up, u, d);
  }

  lemma CollectedExact(log: seq<Msg>, kinds: seq<Kind>, t: Setting, up: Upstreams, u: string, d: Detection)
    requires AllSend(log, kinds, t, up)
    ensures d in DetectionsOf(Collected(log), u) <==> exists k :: Delivered(log, kinds, k) && CallsFor(k, t, up, u, d)
  {
    if d in DetectionsOf(Collected(log), u) {
      var m := MessageWith(log, u, d);
      DetectionsExact(kinds[m.source], t, up, m.outcome, u, d);
      assert Delivered(log, kinds, kinds[m.source]);
    }
    if k :| Delivered(log, kinds, k) && CallsFor(k, t, up, u, d) {
      var j :| 0 <= j < |log| && log[j].outcome.Succeeded? && log[j].source < |kinds| && kinds[log[j].source] == k;
      DetectionsExact(k, t, up, log[j].outcome, u, d);
      MessageCollected(log, log[j], u, d);
    }
  }

  lemma MessageWith(log: seq<Msg>, u: string, d: Detection) returns (m: Msg)
    requires d in DetectionsOf(Collected(log), u)
    ensures m in log && m.outcome.Succeeded? && d in DetectionsOf(m.outcome.projects, u)
  {
    var k := DetectionOrigin(Collected(log), u, d);
    CollectedHas(log, Collected(log)[k]);
    m :| m in log && m.outcome.Succeeded? && Collected(log)[k] in m.outcome.projects;
    DetectionsMembers(m.outcome.projects, u, d);
  }

  lemma MessageCollected(log: seq<Msg>, m: Msg, u: string, d: Detection)
    requires m in log && m.outcome.Succeeded? && d in DetectionsOf(m.outcome.projects, u)
    ensures d in DetectionsOf(Collected(log), u)
  {
    var k := DetectionOrigin(m.outcome.projects, u, d);
    CollectedHas(log, m.outcome.projects[k]);
    DetectionsMembers(Collected(log), u, d);
  }

  // ---------- how many detections a reply holds ----------

  /** The source of kind `k` was heard, and it had succeeded. */
  ghost predicate Delivered(log: seq<Msg>, kinds: seq<Kind>, k: Kind) {
    exists j :: 0 <= j < |log| && log[j].outcome.Succeeded? && log[j].source < |kinds| && kinds[log[j].source] == k
  }

  /**
   The detections of each project: for every token, exactly one for each upstream record that calls
   for it, if its source succeeded in time, and otherwise none.
   */
  lemma ReplyCounts(query: bool, cdp: bool, acts: seq<Action>, t: Setting, up: Upstreams, u: string, token: Source)
    requires IsRun(HandlerConfig(query, cdp), acts) && After(HandlerConfig(query, cdp), acts).collector.Replied?
    requires FromSources(After(HandlerConfig(query, cdp), acts), query, cdp, t, up)
    ensures var c := HandlerConfig(query, cdp);
            Count(DetectionsOf(ReplyProjects(c, acts), u), token) ==
            if Delivered(Heard(c, acts), EnabledKinds(query, cdp), KindOf(token)) then Expected(token, t, up, u) else 0
  {
    var c := HandlerConfig(query, cdp);
    HeardDistinct(c, acts);
    HeardSends(query, cdp, acts, t, up);
    GroupAlike(Collected(Heard(c, acts)));
    EnabledKindsExact(query, cdp);
    CollectedCounts(Heard(c, acts), EnabledKinds(query, cdp), t, up, u, token);
  }

  /** The Query Service option starts five sources and the CDP option one, each once. */
  lemma EnabledKindsExact(query: bool, cdp: bool)
    ensures var kinds := EnabledKinds(query, cdp);
            && (forall i, j :: 0 <= i < j < |kinds| ==> kinds[i] != kinds[j])
            && (forall k :: k in kinds <==> if k == CdpSource then cdp else query)
  {}

  lemma {:induction false} CollectedCounts(log: seq<Msg>, kinds: seq<Kind>, t: Setting, up: Upstreams, u: string,
                                           token: Source)
    requires AllSend(log, kinds, t, up) && DistinctSources(log)
    requires forall i, j :: 0 <= i < j < |kinds| ==> kinds[i] != kinds[j]
    ensures Count(DetectionsOf(Collected(log), u), token) ==
            if Delivered(log, kinds, KindOf(token)) then Expected(token, t, up, u) else 0
  {
    if log != [] {
      var front, m := log[..|log| - 1], log[|log| - 1];
      CollectedCounts(front, kinds, t, up, u, token);
      assert front + [m] == log;
      DeliveredSnoc(front, m, kinds, KindOf(token));
      MessageCounts(front, m, kinds, t, up, u, token);
    }
  }

  lemma MessageCounts(front: seq<Msg>, m: Msg, kinds: seq<Kind>, t: Setting, up: Upstreams, u: string, token: Source)
    requires m.source < |kinds| && MaySend(kinds[m.source], t, up, m.outcome)
    ensures Count(DetectionsOf(Collected(front + [m]), u), token) == Count(DetectionsOf(Collected(front), u), token)
            + if m.outcome.Succeeded? && kinds[m.source] == KindOf(token) then Expected(token, t, up, u) else 0
  {
    CollectedSnoc(front, m);
    match m.outcome
    case Failed =>
      assert Collected(front) + [] == Collected(front);
    case Succeeded(ps) =>
      DetectionsOfConcat(Collected(front), ps, u);
      CountConcat(DetectionsOf(Collected(front), u), DetectionsOf(ps, u), token);
      SourceCounts(kinds[m.source], t, up, m.outcome, u, token);
  }

  lemma DeliveredSnoc(front: seq<Msg>, m: Msg, kinds: seq<Kind>, k: Kind)
    requires m.source < |kinds| && DistinctSources(front + [m])
    requires forall i, j :: 0 <= i < j < |kinds| ==> kinds[i] != kinds[j]
    ensures Delivered(front + [m], kinds, k) <==>
            Delivered(front, kinds, k) || (m.outcome.Succeeded? && kinds[m.source] == k)
    ensures kinds[m.source] == k ==> !Delivered(front, kinds, k)
  {
    var log := front + [m];
    assert log[|front|] == m;
    assert forall j :: 0 <= j < |front| ==> log[j] == front[j];
  }

  // ---------- where a cdp_roles detection comes from ----------

  /** `d`, on the project `u`, is the affiliation `a`, whose slug the project service resolved to `u`. */
  ghost predicate IsAffiliation(d: Detection, u: string, a: CdpSlugs.Affiliation, t: Setting, up: Upstreams) {
    CdpSlugs.ReportsAffiliation(a, up.cdpSlugs, t.trim, Project(u, a.projectSlug, [d]))
  }

  /**
   Every cdp_roles detection of a reply is an affiliation of the list that the CDP source's flow ended
   with, and so CDP's, of the age that the cache allows. The flow was request `i` of some run of the
   cache, among any other requests, refreshes and steps of the clock.
   */
  lemma CdpDetectionAge(query: bool, cdp: bool, acts: seq<Action>, t: Setting, up: Upstreams, u: string, d: Detection,
                        v: CacheSystem.Env, run: seq<CacheSystem.Action>, i: nat, email: string, begun: nat)
    returns (a: CdpSlugs.Affiliation, id: string, t1: nat, t2: nat)
    requires IsRun(HandlerConfig(query, cdp), acts) && After(HandlerConfig(query, cdp), acts).collector.Replied?
    requires FromSources(After(HandlerConfig(query, cdp), acts), query, cdp, t, up)
    requires d in DetectionsOf(ReplyProjects(HandlerConfig(query, cdp), acts), u) && d.source == CdpRoles
    requires CdpCache.Faithful(v.codec) && CdpFlow.EndedWith(v, run, i, t.username, email, begun, up.cdp)
    ensures up.cdp.Answer? && IsAffiliation(d, u, a, t, up)
    ensures CacheTheorems.AnswerOf(v, CacheSystem.After(v, run).requests[i], CacheSystem.After(v, run).now, id, t1, t2)
    ensures id != "" && a in v.affiliations(t2, id)
  {
    var c := HandlerConfig(query, cdp);
    HeardDistinct(c, acts);
    HeardSends(query, cdp, acts, t, up);
    GroupAlike(Collected(Heard(c, acts)));
    a := CdpOrigin(Heard(c, acts), EnabledKinds(query, cdp), t, up, u, d);
    id, t1, t2 := CacheTheorems.AnswerAge(v, run, i);
  }

  lemma CdpOrigin(log: seq<Msg>, kinds: seq<Kind>, t: Setting, up: Upstreams, u: string, d: Detection)
    returns (a: CdpSlugs.Affiliation)
    requires AllSend(log, kinds, t, up) && d in DetectionsOf(Collected(log), u) && d.source == CdpRoles
    ensures up.cdp.Answer? && a in up.cdp.affiliations && IsAffiliation(d, u, a, t, up)
  {
    var k := DetectionOrigin(Collected(log), u, d);
    var p := Collected(log)[k];
    CollectedHas(log, p);
    var m :| m in log && m.outcome.Succeeded? && p in m.outcome.projects;
    OnlyCdpSends(kinds[m.source], t, up, m.outcome, p, d);
    var i :| 0 <= i < |m.outcome.projects| && m.outcome.projects[i] == p;
    a := AffiliationBehind(t, up, i, d);
  }

  lemma OnlyCdpSends(k: Kind, t: Setting, up: Upstreams, o: Outcome, p: Project, d: Detection)
    requires MaySend(k, t, up, o) && o.Succeeded? && p in o.projects && d in p.detections && d.source == CdpRoles
    ensures k == CdpSource
  {
    SourceCounts(k, t, up, o, p.uid, CdpRoles);
    DetectionsOfHas(o.projects, p.uid, d);
    CountPositive(DetectionsOf(o.projects, p.uid), d);
  }

  lemma {:induction false} CountPositive(ds: seq<Detection>, d: Detection)
    requires d in ds
    ensures Count(ds, d.source) > 0
  {
    if ds[|ds| - 1] != d {
      CountPositive(ds[..|ds| - 1], d);
    }
  }

  lemma AffiliationBehind(t: Setting, up: Upstreams, i: nat, d: Detection) returns (a: CdpSlugs.Affiliation)
    requires up.cdp.Answer?
    requires i < |CdpSlugs.CdpProjects(t.connected, up.cdp.affiliations, up.cdpSlugs, t.trim)|
    requires d in CdpSlugs.CdpProjects(t.connected, up.cdp.affiliations, up.cdpSlugs, t.trim)[i].detections
    ensures a in up.cdp.affiliations
    ensures IsAffiliation(d, CdpSlugs.CdpProjects(t.connected, up.cdp.affiliations, up.cdpSlugs, t.trim)[i].uid,
                          a, t, up)
  {
    var at := CdpSlugs.CdpPipelineSelects(t.connected, up.cdp.affiliations, up.cdpSlugs, t.trim);
    a := up.cdp.affiliations[at[i]];
  }
}
