/**
 The fan-out and collect protocol of GetPersona as a state machine: source goroutines,
 a buffered channel, a WaitGroup, a closer goroutine, a deadline and a collector whose
 select may take either ready case.
 */
module FanOut {
  import opened PersonaModel
  import opened Grouping

  /** How many sources are enabled and how many results the channel buffers. */
  datatype Config = Config(sources: nat, capacity: nat)

  /** What a source sends. */
  datatype Msg = Msg(source: nat, outcome: Outcome)

  /** A source goroutine. `Sent` still owes its deferred wg.Done(). */
  datatype Producer = Unspawned | Running | Sent | Finished

  datatype Closer = NotStarted | Waiting | Closed

  /** The request goroutine. `SawClosed` has received from the closed channel but not yet read ctx.Err(). */
  datatype Collector = Spawning(next: nat) | Selecting | SawClosed | Draining | Replied(response: Response)

  /**
   The shared state. `projects` is None for the nil slice the collector starts with.
   The last four fields only record history: what was sent, how much of it was
   received, and how much had been sent at the deadline and at the reply.
   */
  datatype State = State(
    producers: seq<Producer>,
    wg: int,
    closer: Closer,
    buffer: seq<Msg>,
    closed: bool,
    expired: bool,
    collector: Collector,
    projects: Option<seq<Project>>,
    panicked: bool,
    sent: seq<Msg>,
    received: nat,
    sentAtDeadline: Option<nat>,
    sentAtReply: Option<nat>)

  datatype Action =
    | Spawn
    | StartCloser
    | Send(source: nat, outcome: Outcome)
    | Done(source: nat)
    | Close
    | Expire
    | Receive
    | ReceiveClosed
    | CheckDeadline
    | TakeDone
    | DrainOne
    | DrainStop
  {
    /** The steps of the request goroutine once the sources run. */
    predicate OfCollector() {
      Receive? || ReceiveClosed? || CheckDeadline? || TakeDone? || DrainOne? || DrainStop?
    }
  }

  function Init(c: Config): State {
    State(seq(c.sources, _ => Unspawned), 0, NotStarted, [], false, false, Spawning(0), None, false, [], 0, None, None)
  }

  /** Which steps are possible. A send blocks on a full buffer, a receive on an empty open channel. */
  predicate Enabled(c: Config, s: State, a: Action) {
    match a
    case Spawn => s.collector.Spawning? && s.collector.next < |s.producers|
    case StartCloser => s.collector.Spawning? && s.collector.next == |s.producers|
    case Send(i, _) => i < |s.producers| && s.producers[i] == Running && (s.closed || |s.buffer| < c.capacity)
    case Done(i) => i < |s.producers| && s.producers[i] == Sent
    case Close => s.closer == Waiting && s.wg == 0
    case Expire => !s.expired
    case Receive => s.collector.Selecting? && s.buffer != []
    case ReceiveClosed => s.collector.Selecting? && s.buffer == [] && s.closed
    case CheckDeadline => s.collector.SawClosed?
    case TakeDone => s.collector.Selecting? && s.expired
    case DrainOne => s.collector.Draining? && s.buffer != []
    case DrainStop => s.collector.Draining? && s.buffer == []
  }

  function Contents(projects: Option<seq<Project>>): seq<Project> {
    match projects case None => [] case Some(ps) => ps
  }

  /** A received result is merged, or skipped when the source failed. */
  function Collect(projects: Option<seq<Project>>, o: Outcome): Option<seq<Project>> {
    match o
    case Failed => projects
    case Succeeded(ps) => Some(Merge(Contents(projects), ps))
  }

  function TakeOne(s: State): State
    requires s.buffer != []
  {
    s.(buffer := s.buffer[1..], projects := Collect(s.projects, s.buffer[0].outcome), received := s.received + 1)
  }

  function Reply(s: State, error: Option<ErrorCode>): State {
    s.(collector := Replied(Response(Contents(s.projects), error)), sentAtReply := Some(|s.sent|))
  }

  function Step(c: Config, s: State, a: Action): State
    requires Enabled(c, s, a)
  {
    match a
    case Spawn =>
      s.(producers := s.producers[s.collector.next := Running], wg := s.wg + 1,
         collector := Spawning(s.collector.next + 1))
    case StartCloser =>
      s.(closer := Waiting, collector := Selecting)
    case Send(i, o) =>
      // a send on a closed channel panics
      if s.closed then s.(panicked := true) else
        s.(producers := s.producers[i := Sent], buffer := s.buffer + [Msg(i, o)], sent := s.sent + [Msg(i, o)])
    case Done(i) =>
      // a WaitGroup below zero panics
      s.(producers := s.producers[i := Finished], wg := s.wg - 1, panicked := s.panicked || s.wg <= 0)
    case Close =>
      // closing a closed channel panics
      s.(closer := Closed, closed := true, panicked := s.panicked || s.closed)
    case Expire =>
      s.(expired := true, sentAtDeadline := Some(|s.sent|))
    case Receive => TakeOne(s)
    case ReceiveClosed => s.(collector := SawClosed)
    case CheckDeadline => Reply(s, if s.expired then Some(HandlerTimeout) else None)
    case TakeDone => s.(collector := Draining)
    case DrainOne => TakeOne(s)
    case DrainStop => Reply(s, Some(HandlerTimeout))
  }

  // ---------- runs ----------

  ghost predicate IsRun(c: Config, acts: seq<Action>)
    decreases |acts|, 0
  {
    acts == [] ||
    (IsRun(c, acts[..|acts| - 1]) && Enabled(c, After(c, acts[..|acts| - 1]), acts[|acts| - 1]))
  }

  ghost function After(c: Config, acts: seq<Action>): State
    requires IsRun(c, acts)
    decreases |acts|, 1
  {
    if acts == [] then Init(c) else Step(c, After(c, acts[..|acts| - 1]), acts[|acts| - 1])
  }

  lemma RunSnoc(c: Config, acts: seq<Action>, a: Action)
    requires IsRun(c, acts) && Enabled(c, After(c, acts), a)
    ensures IsRun(c, acts + [a]) && After(c, acts + [a]) == Step(c, After(c, acts), a)
  {
    assert (acts + [a])[..|acts|] == acts;
  }

  /** Everything has ended: the reply is out, every goroutine has returned. */
  ghost predicate Final(s: State) {
    s.collector.Replied? && s.closer == Closed && forall i :: 0 <= i < |s.producers| ==> s.producers[i] == Finished
  }

  /** The successful results among `log`, concatenated in order of arrival. */
  function Collected(log: seq<Msg>): seq<Project> {
    if log == [] then [] else
      Collected(log[..|log| - 1]) +
      match log[|log| - 1].outcome case Failed => [] case Succeeded(ps) => ps
  }
}
