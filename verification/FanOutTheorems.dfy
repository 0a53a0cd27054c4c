/** Safety and liveness of the fan-out protocol, over all its runs. */
module FanOutTheorems {
  import opened PersonaModel
  import opened Bags
  import opened Grouping
  import opened FanOut
  import opened FanOutInvariant

  // ---------- safety ----------

  ghost predicate HeardFrom(log: seq<Msg>, i: nat) {
    exists j :: 0 <= j < |log| && log[j].source == i
  }

  /** Every source's result is in the log. */
  ghost predicate HeardFromAll(c: Config, log: seq<Msg>) {
    forall i: nat :: i < c.sources ==> HeardFrom(log, i)
  }

  /** After the first `n` actions the deadline has fired and the reply is not yet out. */
  ghost predicate Overtaken(c: Config, acts: seq<Action>, n: nat) {
    n <= |acts| && IsRun(c, acts[..n]) && After(c, acts[..n]).expired && !After(c, acts[..n]).collector.Replied?
  }

  /**
   A reply without an error has heard from every source. A reply reports a timeout exactly when the
   deadline fired before it, whichever ready case select took, while draining or after the last send.
   */
  lemma NoSilentTimeout(c: Config, acts: seq<Action>)
    requires IsRun(c, acts) && After(c, acts).collector.Replied?
    ensures var s := After(c, acts);
            var error := s.collector.response.error;
            && (error == None || error == Some(HandlerTimeout))
            && (error == None ==> s.received <= |s.sent| && HeardFromAll(c, s.sent[..s.received]))
            && (s.expired <==> s.sentAtDeadline.Some?)
            && (s.sentAtDeadline.Some? && s.sentAtDeadline.value < c.sources ==> error == Some(HandlerTimeout))
            && (error == Some(HandlerTimeout) <==> exists n: nat :: Overtaken(c, acts, n))
  {
    InvAlways(c, acts);
    var s := After(c, acts);
    if s.collector.response.error == None {
      TallyAtMost(s.producers, HAS_SENT);
      AllSourcesSent(c, s);
      assert s.sent[..s.received] == s.sent;
    }
    TimeoutIffOvertaken(c, acts);
  }

  lemma TimeoutIffOvertaken(c: Config, acts: seq<Action>)
    requires IsRun(c, acts) && After(c, acts).collector.Replied?
    ensures After(c, acts).collector.response.error == Some(HandlerTimeout) <==> exists n: nat :: Overtaken(c, acts, n)
  {
    if n: nat :| Overtaken(c, acts, n) {
      assert acts[..n] + acts[n..] == acts;
      DeadlineShows(c, acts[..n], acts[n..]);
    }
    var n := EveryReplyWasDue(c, acts);
    History(c, acts[..n]);
    assert Expire in acts[..n] ==> Overtaken(c, acts, n);
  }

  /** As many distinct sources as there are: each one is there. */
  lemma AllSourcesSent(c: Config, s: State)
    requires Lifecycles(c, s) && Sends(s) && |s.sent| == c.sources
    ensures HeardFromAll(c, s.sent)
  {
    var ids := seq(|s.sent|, j requires 0 <= j < |s.sent| => s.sent[j].source);
    forall i: nat | i < c.sources
      ensures HeardFrom(s.sent, i)
    {
      Pigeonhole(ids, i);
      var j :| 0 <= j < |ids| && ids[j] == i;
      assert s.sent[j].source == i;
    }
  }

  /** As many distinct numbers below a bound as the bound allows: each one is among them. */
  lemma Pigeonhole(ids: seq<nat>, i: nat)
    requires forall j :: 0 <= j < |ids| ==> ids[j] < |ids|
    requires forall j, k :: 0 <= j < k < |ids| ==> ids[j] != ids[k]
    requires i < |ids|
    ensures i in ids
  {
    if i !in ids {
      SubsetSize(SetOf(ids), Below(|ids|) - {i});
    }
  }

  function Below(n: nat): (r: set<nat>)
    ensures |r| == n && forall i: nat :: i in r <==> i < n
  {
    if n == 0 then {} else Below(n - 1) + {n - 1}
  }

  function SetOf(ids: seq<nat>): (r: set<nat>)
    requires forall j, k :: 0 <= j < k < |ids| ==> ids[j] != ids[k]
    ensures |r| == |ids| && forall i :: i in r <==> i in ids
  {
    if ids == [] then {} else SetOf(ids[1..]) + {ids[0]}
  }

  /**
   The projects of any reply are one grouping of the successful results among exactly the
   sends made before the collector stopped: all of those sends, and nothing sent later.
   */
  lemma ExactResults(c: Config, acts: seq<Action>)
    requires IsRun(c, acts) && After(c, acts).collector.Replied?
    ensures var s := After(c, acts);
            && s.sentAtReply.Some? && s.sentAtReply.value <= |s.sent|
            && s.received == s.sentAtReply.value
            && s.collector.response.projects == Group(Collected(s.sent[..s.sentAtReply.value]))
  {
    InvAlways(c, acts);
  }

  // ---------- the reply as a function of the actions alone ----------

  /** The messages that the sources have put on the channel. */
  function SendsIn(acts: seq<Action>): seq<Msg> {
    if acts == [] then [] else
      SendsIn(acts[..|acts| - 1]) + match acts[|acts| - 1] case Send(i, o) => [Msg(i, o)] case _ => []
  }

  lemma {:induction false} History(c: Config, acts: seq<Action>)
    requires IsRun(c, acts)
    ensures After(c, acts).sent == SendsIn(acts)
    ensures After(c, acts).expired <==> Expire in acts
    decreases |acts|
  {
    if acts != [] {
      var front, a := acts[..|acts| - 1], acts[|acts| - 1];
      History(c, front);
      InvAlways(c, front);
      SplitLast(acts);
      HistoryStep(c, After(c, front), a);
    }
  }

  lemma HistoryStep(c: Config, s: State, a: Action)
    requires Lifecycles(c, s) && Enabled(c, s, a)
    ensures Step(c, s, a).sent == s.sent + match a case Send(i, o) => [Msg(i, o)] case _ => []
    ensures Step(c, s, a).expired <==> s.expired || a == Expire
  {}

  /** The response that is due when the collector stops after `acts`. */
  function Due(acts: seq<Action>): Response {
    Response(Group(Collected(SendsIn(acts))), if Expire in acts then Some(HandlerTimeout) else None)
  }

  /**
   The step that replies, whichever it is, replies with one grouping of all results sent so far, and
   reports a timeout exactly when the deadline has fired by then, while draining included.
   */
  lemma ReplyIsDue(c: Config, acts: seq<Action>, a: Action)
    requires IsRun(c, acts) && IsRun(c, acts + [a])
    requires !After(c, acts).collector.Replied? && After(c, acts + [a]).collector.Replied?
    ensures After(c, acts + [a]).collector.response == Due(acts)
  {
    History(c, acts);
    InvAlways(c, acts);
    RunSplit(c, acts, a);
    RepliesNow(c, After(c, acts), a);
  }

  lemma RunSplit(c: Config, acts: seq<Action>, a: Action)
    requires IsRun(c, acts + [a])
    ensures IsRun(c, acts) && Enabled(c, After(c, acts), a) && After(c, acts + [a]) == Step(c, After(c, acts), a)
  {
    assert (acts + [a])[..|acts|] == acts;
  }

  lemma RepliesNow(c: Config, s: State, a: Action)
    requires Inv(c, s) && Enabled(c, s, a) && !s.collector.Replied? && Step(c, s, a).collector.Replied?
    ensures Step(c, s, a).collector.response ==
            Response(Group(Collected(s.sent)), if s.expired then Some(HandlerTimeout) else None)
  {
    assert s.received == |s.sent| && s.sent[..s.received] == s.sent;
  }

  /** And so every reply of every run is the one due at the step that made it. */
  lemma {:induction false} EveryReplyWasDue(c: Config, acts: seq<Action>) returns (n: nat)
    requires IsRun(c, acts) && After(c, acts).collector.Replied?
    ensures n < |acts| && IsRun(c, acts[..n]) && !After(c, acts[..n]).collector.Replied?
    ensures IsRun(c, acts[..n + 1]) && After(c, acts[..n + 1]).collector.Replied?
    ensures After(c, acts).collector.response == Due(acts[..n])
    decreases |acts|
  {
    var front, a := acts[..|acts| - 1], acts[|acts| - 1];
    SplitLast(acts);
    if After(c, front).collector.Replied? {
      n := EveryReplyWasDue(c, front);
      assert front[..n] == acts[..n] && front[..n + 1] == acts[..n + 1];
      CollectorStays(c, After(c, front), a);
    } else {
      n := |front|;
      assert acts[..n + 1] == acts;
      ReplyIsDue(c, front, a);
    }
  }

  lemma CollectorStays(c: Config, s: State, a: Action)
    requires Enabled(c, s, a) && s.collector.Replied?
    ensures Step(c, s, a).collector == s.collector
  {}

  lemma {:induction false} RepliedStays(c: Config, acts: seq<Action>, n: nat)
    requires IsRun(c, acts) && n <= |acts| && IsRun(c, acts[..n]) && After(c, acts[..n]).collector.Replied?
    ensures After(c, acts).collector.Replied?
    decreases |acts|
  {
    if n == |acts| {
      assert acts[..n] == acts;
    } else {
      var front := acts[..|acts| - 1];
      assert front[..n] == acts[..n];
      RepliedStays(c, front, n);
      CollectorStays(c, After(c, front), acts[|acts| - 1]);
    }
  }

  /** A deadline that fires before the reply always shows in it. */
  lemma DeadlineShows(c: Config, acts: seq<Action>, rest: seq<Action>)
    requires IsRun(c, acts) && IsRun(c, acts + rest)
    requires After(c, acts).expired && !After(c, acts).collector.Replied?
    requires After(c, acts + rest).collector.Replied?
    ensures After(c, acts + rest).collector.response.error == Some(HandlerTimeout)
  {
    var n := EveryReplyWasDue(c, acts + rest);
    History(c, acts);
    if n < |acts| {
      assert (acts + rest)[..n + 1] == acts[..n + 1];
      RepliedStays(c, acts, n + 1);
    }
    assert acts <= (acts + rest)[..n];
    assert forall a :: a in acts ==> a in (acts + rest)[..n];
  }

  /** No send on a closed channel, no second close, no negative WaitGroup; closed only after all sends. */
  lemma NeverPanics(c: Config, acts: seq<Action>)
    requires IsRun(c, acts)
    ensures var s := After(c, acts);
            && !s.panicked && |s.producers| == c.sources
            && (s.closed ==> |s.sent| == c.sources && forall i :: 0 <= i < c.sources ==> s.producers[i] == Finished)
  {
    InvAlways(c, acts);
    if After(c, acts).closed {
      ClosedMeansAllSent(c, After(c, acts));
    }
  }

  // ---------- liveness ----------

  /** With room for every source, a source's send never blocks, before or after the reply. */
  lemma SendNeverBlocks(c: Config, acts: seq<Action>, i: nat, o: Outcome)
    requires c.sources <= c.capacity
    requires IsRun(c, acts)
    requires i < |After(c, acts).producers| && After(c, acts).producers[i] == Running
    ensures Enabled(c, After(c, acts), Send(i, o)) && !After(c, acts).closed
  {
    InvAlways(c, acts);
    var s := After(c, acts);
    TallyBounds(s.producers, HAS_SENT, i);
  }

  /** Once the deadline has fired, the collector never waits for a source again. */
  lemma DeadlineUnblocksCollector(c: Config, acts: seq<Action>)
    requires IsRun(c, acts)
    requires var s := After(c, acts); s.expired && !s.collector.Spawning? && !s.collector.Replied?
    ensures exists a: Action :: a.OfCollector() && Enabled(c, After(c, acts), a)
  {
    var s := After(c, acts);
    match s.collector {
      case Selecting => assert Enabled(c, s, TakeDone);
      case SawClosed => assert Enabled(c, s, CheckDeadline);
      case Draining => assert Enabled(c, s, if s.buffer != [] then DrainOne else DrainStop);
    }
  }

  /** The collector past its spawning phase, with the deadline behind it. */
  ghost predicate Overdue(s: State) {
    s.expired && !s.collector.Spawning?
  }

  lemma CollectorMove(c: Config, acts: seq<Action>) returns (a: Action)
    requires IsRun(c, acts) && Overdue(After(c, acts)) && !After(c, acts).collector.Replied?
    ensures a.OfCollector() && IsRun(c, acts + [a])
    ensures Overdue(After(c, acts + [a])) && Measure(After(c, acts + [a])) < Measure(After(c, acts))
  {
    DeadlineUnblocksCollector(c, acts);
    a :| a.OfCollector() && Enabled(c, After(c, acts), a);
    InvAlways(c, acts);
    StepDecreases(c, After(c, acts), a);
    RunSnoc(c, acts, a);
  }

  /** So a reply is reached by the collector's own steps, even if no source ever finishes. */
  lemma {:induction false} CollectorRepliesAlone(c: Config, acts: seq<Action>) returns (longer: seq<Action>)
    requires IsRun(c, acts) && Overdue(After(c, acts))
    ensures acts <= longer && forall i :: |acts| <= i < |longer| ==> longer[i].OfCollector()
    ensures IsRun(c, longer) && After(c, longer).collector.Replied?
    decreases Measure(After(c, acts))
  {
    longer := acts;
    if !After(c, acts).collector.Replied? {
      var a := CollectorMove(c, acts);
      longer := CollectorRepliesAlone(c, acts + [a]);
      assert longer[|acts|] == (acts + [a])[|acts|];
    }
  }

  /** Some step other than the deadline is possible. */
  ghost predicate CanProgress(c: Config, s: State) {
    exists a: Action :: a != Expire && Enabled(c, s, a)
  }

  lemma NotStuck(c: Config, s: State)
    requires c.sources <= c.capacity && Inv(c, s) && !Final(s)
    ensures CanProgress(c, s)
  {
    if s.collector.Spawning? {
      assert Enabled(c, s, if s.collector.next < |s.producers| then Spawn else StartCloser);
    } else if i :| 0 <= i < c.sources && s.producers[i] == Running {
      TallyBounds(s.producers, HAS_SENT, i);
      assert Enabled(c, s, Send(i, Failed));
    } else if i :| 0 <= i < c.sources && s.producers[i] == Sent {
      assert Enabled(c, s, Done(i));
    } else {
      AllFinished(c, s);
    }
  }

  lemma AllFinished(c: Config, s: State)
    requires Inv(c, s) && !Final(s) && !s.collector.Spawning?
    requires forall i :: 0 <= i < c.sources ==> s.producers[i] == Finished
    ensures CanProgress(c, s)
  {
    TallyNone(s.producers, OWING);
    if s.closer == Waiting {
      assert Enabled(c, s, Close);
    } else {
      match s.collector {
        case Selecting => assert Enabled(c, s, if s.buffer != [] then Receive else ReceiveClosed);
        case SawClosed => assert Enabled(c, s, CheckDeadline);
        case Draining => assert Enabled(c, s, if s.buffer != [] then DrainOne else DrainStop);
      }
    }
  }

  ghost predicate DeadlockFree(c: Config) {
    forall acts: seq<Action> :: IsRun(c, acts) && !Final(After(c, acts)) ==> CanProgress(c, After(c, acts))
  }

  /** The buffer is big enough exactly when no run can get stuck. */
  lemma DeadlockFreeIffBuffered(c: Config)
    requires c.capacity > 0
    ensures DeadlockFree(c) <==> c.sources <= c.capacity
  {
    if c.sources <= c.capacity {
      forall acts: seq<Action> | IsRun(c, acts) && !Final(After(c, acts))
        ensures CanProgress(c, After(c, acts))
      {
        InvAlways(c, acts);
        NotStuck(c, After(c, acts));
      }
    } else {
      var acts := LeakyRun(c);
      assert !CanProgress(c, After(c, acts));
    }
  }

  // A run that leaves a source blocked for ever when there are more sources than buffer slots:
  // the deadline fires before any source sends, and the reply goes out.

  function AllRunning(n: nat, k: nat): seq<Producer>
    requires k <= n
  {
    seq(n, i => if i < k then Running else Unspawned)
  }

  lemma {:induction false} SpawnRun(c: Config, k: nat) returns (acts: seq<Action>)
    requires k <= c.sources
    ensures IsRun(c, acts)
    ensures var s := After(c, acts);
            s == Init(c).(producers := AllRunning(c.sources, k), wg := k, collector := Spawning(k))
  {
    acts := [];
    if k == 0 {
      assert Init(c).producers == AllRunning(c.sources, 0);
    } else {
      acts := SpawnRun(c, k - 1);
      RunSnoc(c, acts, Spawn);
      assert AllRunning(c.sources, k - 1)[k - 1 := Running] == AllRunning(c.sources, k);
      acts := acts + [Spawn];
    }
  }

  /** All sources running, the reply already out, the channel empty. */
  lemma ReplyFirstRun(c: Config) returns (acts: seq<Action>)
    ensures IsRun(c, acts)
    ensures var s := After(c, acts);
            && s.producers == AllRunning(c.sources, c.sources) && s.buffer == [] && !s.closed && s.expired
            && s.collector.Replied? && s.closer == Waiting && s.wg == c.sources
  {
    acts := SpawnRun(c, c.sources);
    acts := Extend(c, acts, StartCloser);
    acts := Extend(c, acts, Expire);
    acts := Extend(c, acts, TakeDone);
    acts := Extend(c, acts, DrainStop);
  }

  lemma Extend(c: Config, acts: seq<Action>, a: Action) returns (longer: seq<Action>)
    requires IsRun(c, acts) && Enabled(c, After(c, acts), a)
    ensures IsRun(c, longer) && After(c, longer) == Step(c, After(c, acts), a)
  {
    RunSnoc(c, acts, a);
    longer := acts + [a];
  }

  /** The first `k` sources then send and finish, and fill `k` slots that nobody empties. */
  lemma {:induction false} FillRun(c: Config, k: nat) returns (acts: seq<Action>)
    requires k <= c.capacity && k < c.sources
    ensures IsRun(c, acts)
    ensures var s := After(c, acts);
            && |s.producers| == c.sources && |s.buffer| == k && !s.closed && s.expired
            && s.collector.Replied? && s.closer == Waiting && s.wg == c.sources - k
            && forall i :: 0 <= i < c.sources ==> s.producers[i] == if i < k then Finished else Running
  {
    if k == 0 {
      acts := ReplyFirstRun(c);
    } else {
      acts := FillRun(c, k - 1);
      acts := Extend(c, acts, Send(k - 1, Failed));
      acts := Extend(c, acts, Done(k - 1));
    }
  }

  /** From then on nothing but blocked sends is left. */
  lemma LeakyRun(c: Config) returns (acts: seq<Action>)
    requires c.sources > c.capacity > 0
    ensures IsRun(c, acts) && !Final(After(c, acts)) && !CanProgress(c, After(c, acts))
    ensures var s := After(c, acts); c.capacity < |s.producers| && s.producers[c.capacity] == Running
  {
    acts := FillRun(c, c.capacity);
    assert After(c, acts).producers[c.capacity] == Running;
  }

  // ---------- termination ----------

  const LEFT: Producer -> nat :=
    (p: Producer) => match p case Unspawned => 3 case Running => 2 case Sent => 1 case Finished => 0

  /** An upper bound on the number of steps that are still possible. */
  function Measure(s: State): nat {
    2 * Tally(s.producers, LEFT) + |s.buffer|
    + (if s.expired then 0 else 1)
    + (match s.closer case NotStarted => 2 case Waiting => 1 case Closed => 0)
    + (match s.collector
       case Spawning(_) => 3 case Selecting => 2 case SawClosed => 1 case Draining => 1 case Replied(_) => 0)
  }

  lemma StepDecreases(c: Config, s: State, a: Action)
    requires Lifecycles(c, s) && Enabled(c, s, a)
    ensures Measure(Step(c, s, a)) < Measure(s)
  {
    match a
    case Spawn => TallyUpdate(s.producers, s.collector.next, Running, LEFT);
    case Send(i, _) => TallyUpdate(s.producers, i, Sent, LEFT);
    case Done(i) => TallyUpdate(s.producers, i, Finished, LEFT);
    case _ =>
  }

  lemma {:induction false} TallyFresh(n: nat)
    ensures Tally(seq(n, _ => Unspawned), LEFT) == 3 * n
  {
    if n > 0 {
      TallyFresh(n - 1);
      assert seq(n, _ => Unspawned)[..n - 1] == seq(n - 1, _ => Unspawned);
    }
  }

  /** No run is longer than 6 * sources + 6 steps. */
  lemma {:induction false} RunsAreShort(c: Config, acts: seq<Action>)
    requires IsRun(c, acts)
    ensures |acts| + Measure(After(c, acts)) <= 6 * c.sources + 6
    decreases |acts|
  {
    if acts == [] {
      TallyFresh(c.sources);
    } else {
      var front := acts[..|acts| - 1];
      RunsAreShort(c, front);
      InvAlways(c, front);
      StepDecreases(c, After(c, front), acts[|acts| - 1]);
    }
  }

  /** A run that has gone as far as it can has replied and leaked nothing. */
  lemma EveryRunReplies(c: Config, acts: seq<Action>)
    requires 0 < c.capacity && c.sources <= c.capacity
    requires IsRun(c, acts) && !CanProgress(c, After(c, acts))
    ensures Final(After(c, acts))
  {
    DeadlockFreeIffBuffered(c);
  }
}
