/** What every step of the fan-out protocol keeps. */
module FanOutInvariant {
  import opened PersonaModel
  import opened Grouping
  import opened FanOut

  // ---------- counting goroutines ----------

  function Tally(ps: seq<Producer>, w: Producer -> nat): nat {
    if ps == [] then 0 else Tally(ps[..|ps| - 1], w) + w(ps[|ps| - 1])
  }

  const OWING: Producer -> nat := p => if p == Running || p == Sent then 1 else 0
  const HAS_SENT: Producer -> nat := p => if p == Sent || p == Finished then 1 else 0

  lemma {:induction false} TallyUpdate(ps: seq<Producer>, i: nat, p: Producer, w: Producer -> nat)
    requires i < |ps|
    ensures Tally(ps[i := p], w) + w(ps[i]) == Tally(ps, w) + w(p)
  {
    var k := |ps| - 1;
    if i == k {
      assert ps[i := p][..k] == ps[..k];
    } else {
      assert ps[i := p][..k] == ps[..k][i := p];
      TallyUpdate(ps[..k], i, p, w);
    }
  }

  lemma {:induction false} TallyBounds(ps: seq<Producer>, w: Producer -> nat, i: nat)
    requires i < |ps| && forall p :: w(p) <= 1
    ensures w(ps[i]) <= Tally(ps, w) <= |ps| - 1 + w(ps[i])
  {
    var k := |ps| - 1;
    if i == k {
      TallyAtMost(ps[..k], w);
    } else {
      TallyBounds(ps[..k], w, i);
    }
  }

  lemma {:induction false} TallyAtMost(ps: seq<Producer>, w: Producer -> nat)
    requires forall p :: w(p) <= 1
    ensures Tally(ps, w) <= |ps|
  {
    if ps != [] {
      TallyAtMost(ps[..|ps| - 1], w);
    }
  }

  lemma {:induction false} TallyNone(ps: seq<Producer>, w: Producer -> nat)
    requires forall i :: 0 <= i < |ps| ==> w(ps[i]) == 0
    ensures Tally(ps, w) == 0
  {
    if ps != [] {
      TallyNone(ps[..|ps| - 1], w);
    }
  }

  lemma {:induction false} TallyAll(ps: seq<Producer>, w: Producer -> nat)
    requires forall i :: 0 <= i < |ps| ==> w(ps[i]) == 1
    ensures Tally(ps, w) == |ps|
  {
    if ps != [] {
      TallyAll(ps[..|ps| - 1], w);
    }
  }

  // ---------- the invariant ----------

  /** The producers, the WaitGroup, the closer and the channel's closed flag. */
  ghost predicate Lifecycles(c: Config, s: State) {
    && !s.panicked
    && |s.producers| == c.sources
    && s.wg == Tally(s.producers, OWING)
    && (s.collector.Spawning? ==> s.collector.next <= c.sources)
    && (s.closer == NotStarted <==> s.collector.Spawning?)
    && (forall i :: 0 <= i < c.sources ==>
          (s.producers[i] == Unspawned <==> s.collector.Spawning? && s.collector.next <= i))
    && (s.closed <==> s.closer == Closed)
    && (s.closed ==> forall i :: 0 <= i < c.sources ==> s.producers[i] == Finished)
  }

  /** The log of sends: each source at most once, exactly the sources past their send. */
  ghost predicate Sends(s: State) {
    && |s.sent| == Tally(s.producers, HAS_SENT)
    && (forall j :: 0 <= j < |s.sent| ==>
          s.sent[j].source < |s.producers| && HAS_SENT(s.producers[s.sent[j].source]) == 1)
    && (forall j, k :: 0 <= j < k < |s.sent| ==> s.sent[j].source != s.sent[k].source)
  }

  /** The channel is a queue, and the collector has merged exactly what it received. */
  ghost predicate Received(s: State) {
    && s.received <= |s.sent|
    && s.buffer == s.sent[s.received..]
    && Contents(s.projects) == Group(Collected(s.sent[..s.received]))
  }

  /** What a reply records about the deadline and the sends. */
  ghost predicate Replies(c: Config, s: State) {
    && (s.collector.SawClosed? ==> s.closed && s.buffer == [])
    && (s.collector.Draining? ==> s.expired)
    && (s.expired <==> s.sentAtDeadline.Some?)
    && (s.expired ==> s.sentAtDeadline.value <= |s.sent|)
    && (s.collector.Replied? <==> s.sentAtReply.Some?)
    && (s.collector.Replied? ==> Answered(c, s, s.collector.response, s.sentAtReply.value))
  }

  ghost predicate Answered(c: Config, s: State, r: Response, sentThen: nat) {
    && sentThen == s.received <= |s.sent|
    && r.projects == Group(Collected(s.sent[..sentThen]))
    && (r.error == None || r.error == Some(HandlerTimeout))
    && (r.error == Some(HandlerTimeout) ==> s.expired)
    && (r.error == None ==> sentThen == c.sources && (s.expired ==> s.sentAtDeadline == Some(c.sources)))
  }

  ghost predicate Inv(c: Config, s: State) {
    Lifecycles(c, s) && Sends(s) && Received(s) && Replies(c, s)
  }

  // ---------- it holds initially and every step keeps it ----------

  lemma InvInit(c: Config)
    ensures Inv(c, Init(c))
  {
    var s := Init(c);
    TallyNone(s.producers, OWING);
    TallyNone(s.producers, HAS_SENT);
  }

  /** Only goroutines that have spawned and not finished owe the WaitGroup; none left means all finished. */
  lemma NobodyOwes(c: Config, s: State)
    requires Lifecycles(c, s) && s.closer == Waiting && s.wg == 0
    ensures forall i :: 0 <= i < c.sources ==> s.producers[i] == Finished
  {
    forall i | 0 <= i < c.sources
      ensures s.producers[i] == Finished
    {
      TallyBounds(s.producers, OWING, i);
    }
  }

  lemma LifecyclesSpawn(c: Config, s: State)
    requires Lifecycles(c, s) && Enabled(c, s, Spawn)
    ensures Lifecycles(c, Step(c, s, Spawn))
  {
    TallyUpdate(s.producers, s.collector.next, Running, OWING);
  }

  lemma LifecyclesSend(c: Config, s: State, i: nat, o: Outcome)
    requires Lifecycles(c, s) && Enabled(c, s, Send(i, o))
    ensures Lifecycles(c, Step(c, s, Send(i, o)))
  {
    TallyUpdate(s.producers, i, Sent, OWING);
  }

  lemma LifecyclesDone(c: Config, s: State, i: nat)
    requires Lifecycles(c, s) && Enabled(c, s, Done(i))
    ensures Lifecycles(c, Step(c, s, Done(i)))
  {
    TallyUpdate(s.producers, i, Finished, OWING);
    TallyBounds(s.producers, OWING, i);
  }

  lemma LifecyclesStep(c: Config, s: State, a: Action)
    requires Lifecycles(c, s) && Enabled(c, s, a)
    ensures Lifecycles(c, Step(c, s, a))
  {
    match a
    case Spawn => LifecyclesSpawn(c, s);
    case Send(i, o) => LifecyclesSend(c, s, i, o);
    case Done(i) => LifecyclesDone(c, s, i);
    case Close => NobodyOwes(c, s);
    case _ =>
  }

  lemma SendsSend(s: State, i: nat, o: Outcome)
    requires Sends(s) && i < |s.producers| && s.producers[i] == Running
    ensures Sends(s.(producers := s.producers[i := Sent], sent := s.sent + [Msg(i, o)]))
  {
    TallyUpdate(s.producers, i, Sent, HAS_SENT);
    forall j | 0 <= j < |s.sent|
      ensures s.sent[j].source != i
    {
      assert HAS_SENT(s.producers[s.sent[j].source]) == 1;
    }
  }

  lemma SendsKept(s: State, i: nat, p: Producer)
    requires Sends(s) && i < |s.producers| && HAS_SENT(s.producers[i]) == HAS_SENT(p)
    ensures Sends(s.(producers := s.producers[i := p]))
  {
    TallyUpdate(s.producers, i, p, HAS_SENT);
  }

  lemma SendsStep(c: Config, s: State, a: Action)
    requires Lifecycles(c, s) && Sends(s) && Enabled(c, s, a)
    ensures Sends(Step(c, s, a))
  {
    match a
    case Spawn => SendsKept(s, s.collector.next, Running);
    case Send(i, o) => SendsSend(s, i, o);
    case Done(i) => SendsKept(s, i, Finished);
    case _ =>
  }

  lemma CollectedSnoc(log: seq<Msg>, m: Msg)
    ensures Collected(log + [m]) == Collected(log) + match m.outcome case Failed => [] case Succeeded(ps) => ps
  {
    assert (log + [m])[..|log|] == log;
  }

  lemma ReceivedTakeOne(s: State)
    requires Received(s) && s.buffer != []
    ensures Received(TakeOne(s))
  {
    var front, m := s.sent[..s.received], s.buffer[0];
    assert s.sent[..s.received + 1] == front + [m];
    CollectedSnoc(front, m);
    match m.outcome
    case Failed =>
      assert Collected(front) + [] == Collected(front);
    case Succeeded(ps) =>
      GroupAbsorbsLeft(Collected(front), ps);
  }

  lemma ReceivedStep(c: Config, s: State, a: Action)
    requires Received(s) && Enabled(c, s, a)
    ensures Received(Step(c, s, a))
  {
    match a
    case Receive => ReceivedTakeOne(s);
    case DrainOne => ReceivedTakeOne(s);
    case Send(i, o) =>
      if !s.closed {
        assert (s.sent + [Msg(i, o)])[..s.received] == s.sent[..s.received];
        assert (s.sent + [Msg(i, o)])[s.received..] == s.sent[s.received..] + [Msg(i, o)];
      }
    case _ =>
  }

  /** Nothing is sent once the channel is closed: by then every source has sent. */
  lemma ClosedMeansAllSent(c: Config, s: State)
    requires Lifecycles(c, s) && Sends(s) && s.closed
    ensures |s.sent| == c.sources
  {
    TallyAll(s.producers, HAS_SENT);
  }

  /** The two steps that reply, and what they reply with. */
  lemma AnsweredNow(c: Config, s: State, a: Action)
    requires Inv(c, s) && Enabled(c, s, a) && (a == CheckDeadline || a == DrainStop)
    ensures var s' := Step(c, s, a); Answered(c, s', s'.collector.response, |s.sent|)
  {
    assert s.received == |s.sent|;
    if a == CheckDeadline {
      ClosedMeansAllSent(c, s);
    }
  }

  /** A later step does not change what the reply recorded. */
  lemma AnsweredStays(c: Config, s: State, a: Action)
    requires Replies(c, s) && Enabled(c, s, a) && s.collector.Replied? && |s.sent| <= c.sources
    ensures var s' := Step(c, s, a);
            s'.collector == s.collector && Answered(c, s', s.collector.response, s.sentAtReply.value)
  {
    var n := s.sentAtReply.value;
    match a
    case Send(i, o) => assert (s.sent + [Msg(i, o)])[..n] == s.sent[..n];
    case _ =>
  }

  lemma RepliesStep(c: Config, s: State, a: Action)
    requires Inv(c, s) && Enabled(c, s, a)
    ensures Replies(c, Step(c, s, a))
  {
    TallyAtMost(s.producers, HAS_SENT);
    if s.collector.Replied? {
      AnsweredStays(c, s, a);
    } else if a == CheckDeadline || a == DrainStop {
      AnsweredNow(c, s, a);
    }
  }

  lemma InvStep(c: Config, s: State, a: Action)
    requires Inv(c, s) && Enabled(c, s, a)
    ensures Inv(c, Step(c, s, a))
  {
    LifecyclesStep(c, s, a);
    SendsStep(c, s, a);
    ReceivedStep(c, s, a);
    RepliesStep(c, s, a);
  }

  lemma {:induction false} InvAlways(c: Config, acts: seq<Action>)
    requires IsRun(c, acts)
    ensures Inv(c, After(c, acts))
    decreases |acts|
  {
    if acts == [] {
      InvInit(c);
    } else {
      InvAlways(c, acts[..|acts| - 1]);
      InvStep(c, After(c, acts[..|acts| - 1]), acts[|acts| - 1]);
    }
  }
}
