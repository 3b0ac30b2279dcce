/**
 The dispatch worker, the connections feeding it, the pool of reply channels and the order of
 shutdown, as a step system over all interleavings.

 Producers are the client connections and the active-expiry loop. A request carries the channel its
 reply must go to; channels hold at most one reply.
 */
module Worker {

  import opened MapSum

  const QUEUE_SIZE: nat := 256

  type Chan = nat

  /** The `number`-th request of a producer. */
  datatype Request = Request(producer: nat, number: nat, chan: Chan)

  /** The reply to one request. */
  datatype Reply = Reply(producer: nat, number: nat)

  datatype Phase =
    | Idle
    | HasChan(chan: Chan)
    | Waiting(chan: Chan)
    | Received(chan: Chan, reply: Reply)
    | Done

  datatype Producer = Producer(isConn: bool, phase: Phase, number: nat)

  datatype WorkerState = Taking | Replying(req: Request) | Exited

  datatype MainState = Accepting | WaitingForProducers | ChannelClosed | WorkerDone | Synced

  datatype State = State(
    producers: map<nat, Producer>,
    count: int,
    pool: set<Chan>,
    contents: map<Chan, seq<Reply>>,
    queue: seq<Request>,
    worker: WorkerState,
    main: MainState,
    enqueued: seq<Request>,
    executed: seq<Request>)

  predicate Closed(s: State) {
    s.main == ChannelClosed || s.main == WorkerDone || s.main == Synced
  }

  function ReplyTo(r: Request): Reply {
    Reply(r.producer, r.number)
  }

  datatype Step =
    | Spawn(p: nat, isConn: bool)
    | GetPooled(p: nat, c: Chan)
    | GetNew(p: nat, c: Chan)
    | Send(p: nat)
    | Abandon(p: nat)
    | Take
    | SendReply
    | Receive(p: nat)
    | Release(p: nat)
    | Finish(p: nat)
    | DropPooled(c: Chan)
    | StopAccepting
    | CloseQueue
    | ExitWorker
    | SeeWorkerDone
    | Sync

  function PhaseOf(s: State, p: nat): Phase {
    if p in s.producers then s.producers[p].phase else Done
  }

  function WithPhase(s: State, p: nat, phase: Phase): State
    requires p in s.producers
  {
    s.(producers := s.producers[p := s.producers[p].(phase := phase)])
  }

  /** When a step can be taken; a send waits for room, a receive for a reply, closing for all producers. */
  ghost predicate Enabled(s: State, step: Step) {
    match step
    case Spawn(p, _) => s.main == Accepting && p !in s.producers
    case GetPooled(p, c) => PhaseOf(s, p).Idle? && c in s.pool
    case GetNew(p, c) => PhaseOf(s, p).Idle? && c !in s.contents
    case Send(p) => PhaseOf(s, p).HasChan? && |s.queue| < QUEUE_SIZE && !Closed(s)
    case Abandon(p) => PhaseOf(s, p).HasChan? && !s.producers[p].isConn
    case Take => s.worker.Taking? && s.queue != []
    case SendReply => s.worker.Replying? && s.worker.req.chan in s.contents && s.contents[s.worker.req.chan] == []
    case Receive(p) => PhaseOf(s, p).Waiting? && PhaseOf(s, p).chan in s.contents && s.contents[PhaseOf(s, p).chan] != []
    case Release(p) => PhaseOf(s, p).Received?
    case Finish(p) => PhaseOf(s, p).Idle?
    case DropPooled(c) => c in s.pool
    case StopAccepting => s.main == Accepting
    case CloseQueue => s.main == WaitingForProducers && s.count == 0
    case ExitWorker => s.worker.Taking? && s.queue == [] && Closed(s)
    case SeeWorkerDone => s.main == ChannelClosed && s.worker.Exited?
    case Sync => s.main == WorkerDone
  }

  ghost function Apply(s: State, step: Step): State
    requires Enabled(s, step)
  {
    match step
    case Spawn(p, isConn) =>
      s.(producers := s.producers[p := Producer(isConn, Idle, 0)], count := s.count + 1)
    case GetPooled(p, c) => WithPhase(s, p, HasChan(c)).(pool := s.pool - {c})
    case GetNew(p, c) => WithPhase(s, p, HasChan(c)).(contents := s.contents[c := []])
    case Send(p) =>
      var c := PhaseOf(s, p).chan;
      var r := Request(p, s.producers[p].number, c);
      WithPhase(s, p, Waiting(c)).(queue := s.queue + [r], enqueued := s.enqueued + [r])
    case Abandon(p) => WithPhase(s, p, Done).(count := s.count - 1)
    case Take =>
      s.(worker := Replying(s.queue[0]), queue := s.queue[1..], executed := s.executed + [s.queue[0]])
    case SendReply =>
      var r := s.worker.req;
      s.(worker := Taking, contents := s.contents[r.chan := [ReplyTo(r)]])
    case Receive(p) =>
      var c := PhaseOf(s, p).chan;
      WithPhase(s, p, Received(c, s.contents[c][0])).(contents := s.contents[c := s.contents[c][1..]])
    case Release(p) =>
      var q := s.producers[p];
      s.(producers := s.producers[p := Producer(q.isConn, Idle, q.number + 1)],
         pool := if q.isConn then s.pool + {q.phase.chan} else s.pool)
    case Finish(p) => WithPhase(s, p, Done).(count := s.count - 1)
    case DropPooled(c) => s.(pool := s.pool - {c})
    case StopAccepting => s.(main := WaitingForProducers)
    case CloseQueue => s.(main := ChannelClosed)
    case ExitWorker => s.(worker := Exited)
    case SeeWorkerDone => s.(main := WorkerDone)
    case Sync => s.(main := Synced)
  }

  // What every step keeps

  predicate Holds(ph: Phase, c: Chan) {
    (ph.HasChan? || ph.Waiting? || ph.Received?) && ph.chan == c
  }

  /** Requests taken by the worker but not answered, and those still queued. */
  function InFlight(s: State): seq<Request> {
    (if s.worker.Replying? then [s.worker.req] else []) + s.queue
  }

  /** Pooled channels are empty and held by no producer. */
  ghost predicate PoolOk(s: State) {
    && (forall c :: c in s.pool ==> c in s.contents && s.contents[c] == [])
    && (forall p, c :: p in s.producers && Holds(s.producers[p].phase, c) ==> c in s.contents && c !in s.pool)
  }

  /** No channel has two owners. */
  ghost predicate SoleOwners(s: State) {
    forall p, q, c ::
      p in s.producers && q in s.producers && Holds(s.producers[p].phase, c) && Holds(s.producers[q].phase, c) ==>
        p == q
  }

  /** Each request in flight is the one its producer waits for, on that producer's empty channel. */
  ghost predicate RequestOk(s: State, r: Request) {
    && r.producer in s.producers && s.producers[r.producer].phase == Waiting(r.chan)
    && r.number == s.producers[r.producer].number && r.chan in s.contents && s.contents[r.chan] == []
  }

  ghost predicate RequestsOk(s: State) {
    && (forall i :: 0 <= i < |InFlight(s)| ==> RequestOk(s, InFlight(s)[i]))
    && (forall i, j :: 0 <= i < j < |InFlight(s)| ==> InFlight(s)[i].producer != InFlight(s)[j].producer)
  }

  predicate InLine(s: State, p: nat) {
    exists i :: 0 <= i < |InFlight(s)| && InFlight(s)[i].producer == p
  }

  /** A held channel holds nothing but the reply its owner is waiting for. */
  ghost predicate ProducerOk(s: State, p: nat)
    requires p in s.producers
  {
    var q := s.producers[p];
    match q.phase
    case HasChan(c) => c in s.contents && s.contents[c] == []
    case Waiting(c) =>
      c in s.contents && (s.contents[c] == [Reply(p, q.number)]
                          || (s.contents[c] == [] && InLine(s, p)))
    case Received(c, r) => c in s.contents && s.contents[c] == [] && r == Reply(p, q.number)
    case _ => true
  }

  ghost predicate ProducersOk(s: State) {
    forall p :: p in s.producers ==> ProducerOk(s, p)
  }

  ghost function ActiveIn(m: map<nat, Producer>): set<nat> {
    set p | p in m && !m[p].phase.Done?
  }

  /** The wait group counts the running producers; nothing runs once the queue is closed. */
  ghost predicate ShutdownOk(s: State) {
    && s.count == |ActiveIn(s.producers)|
    && (Closed(s) ==> s.count == 0)
    && (s.worker.Exited? ==> Closed(s) && s.queue == [])
    && (s.main == WorkerDone || s.main == Synced ==> s.worker.Exited?)
  }

  /** Requests run in the order they were sent, each once. */
  ghost predicate HistoryOk(s: State) {
    s.executed + s.queue == s.enqueued
  }

  ghost predicate Inv(s: State) {
    PoolOk(s) && SoleOwners(s) && RequestsOk(s) && ProducersOk(s) && ShutdownOk(s) && HistoryOk(s)
  }

  const START := State(map[], 0, {}, map[], [], Taking, Accepting, [], [])

  // Each step keeps each part of the invariant

  /** Only a send lengthens the line of requests, and only a reply shortens it, at the front. */
  lemma InFlightStep(s: State, step: Step)
    requires Enabled(s, step)
    ensures var was, now := InFlight(s), InFlight(Apply(s, step));
      match step
      case Send(p) => now == was + [Request(p, s.producers[p].number, PhaseOf(s, p).chan)]
      case SendReply => was == [s.worker.req] + now
      case _ => now == was
  {
  }

  lemma ReplyingOk(s: State)
    requires Inv(s) && s.worker.Replying?
    ensures RequestOk(s, s.worker.req)
  {
    hide PoolOk, SoleOwners, ProducersOk, ShutdownOk, HistoryOk, RequestOk;
    assert InFlight(s)[0] == s.worker.req;
  }

  lemma PhaseOk(s: State, p: nat)
    requires Inv(s) && p in s.producers
    ensures ProducerOk(s, p)
  {
    hide PoolOk, SoleOwners, RequestsOk, ShutdownOk, HistoryOk, ProducerOk;
  }

  lemma PoolStep(s: State, step: Step)
    requires Inv(s) && Enabled(s, step)
    ensures PoolOk(Apply(s, step))
  {
    hide SoleOwners, RequestsOk, ShutdownOk, HistoryOk, ProducersOk;
    if step.SendReply? {
      ReplyingOk(s);
      assert Holds(s.producers[s.worker.req.producer].phase, s.worker.req.chan);
    }
    if step.Release? {
      PhaseOk(s, step.p);
      OnlyOwner(s, step.p);
    }
  }

  lemma OnlyOwner(s: State, p: nat)
    requires Inv(s) && PhaseOf(s, p).Received?
    ensures forall q :: q in s.producers && q != p ==> !Holds(s.producers[q].phase, PhaseOf(s, p).chan)
  {
    hide PoolOk, RequestsOk, ShutdownOk, HistoryOk, ProducersOk;
    assert Holds(s.producers[p].phase, PhaseOf(s, p).chan);
  }

  /** A producer that changes hands takes a channel from the pool or a new one. */
  lemma SoleOwnersStep(s: State, step: Step)
    requires Inv(s) && Enabled(s, step)
    ensures SoleOwners(Apply(s, step))
  {
    hide RequestsOk, ShutdownOk, HistoryOk, ProducersOk, PoolOk;
    if step.GetPooled? || step.GetNew? { assert PoolOk(s); Untaken(s, step.c); }
    var t := Apply(s, step);
    forall p, q, c | p in t.producers && q in t.producers && Holds(t.producers[p].phase, c) && Holds(t.producers[q].phase, c)
      ensures p == q
    {
      assert p in s.producers && q in s.producers;
    }
  }

  lemma Untaken(s: State, c: Chan)
    requires PoolOk(s) && (c in s.pool || c !in s.contents)
    ensures forall p :: p in s.producers ==> !Holds(s.producers[p].phase, c)
  {
  }

  /** A request still in line after a step was in line before it, and stays the one its producer waits for. */
  lemma RequestKept(s: State, step: Step, r: Request)
    requires Inv(s) && Enabled(s, step) && RequestOk(s, r)
    requires step.SendReply? ==> r.producer != s.worker.req.producer
    ensures RequestOk(Apply(s, step), r)
  {
    hide RequestsOk, ProducersOk, ShutdownOk, HistoryOk;
    assert Holds(s.producers[r.producer].phase, r.chan);
    if step.SendReply? {
      ReplyingOk(s);
      assert Holds(s.producers[s.worker.req.producer].phase, s.worker.req.chan);
    }
    match step {
      case Spawn(_, _) => case GetPooled(_, _) => case GetNew(_, _) => case Send(_) => case Abandon(_) =>
      case Receive(_) => case Release(_) => case Finish(_) => case SendReply =>
      case _ =>
    }
  }

  /** A producer about to send has nothing in line. */
  lemma SenderNotInLine(s: State, p: nat)
    requires Inv(s) && PhaseOf(s, p).HasChan?
    ensures forall i :: 0 <= i < |InFlight(s)| ==> InFlight(s)[i].producer != p
  {
    hide PoolOk, SoleOwners, ProducersOk, ShutdownOk, HistoryOk;
  }

  lemma SentOk(s: State, p: nat)
    requires Inv(s) && Enabled(s, Send(p))
    ensures RequestOk(Apply(s, Send(p)), Request(p, s.producers[p].number, PhaseOf(s, p).chan))
  {
    hide PoolOk, SoleOwners, RequestsOk, ProducersOk, ShutdownOk, HistoryOk;
    PhaseOk(s, p);
  }

  lemma RequestsStep(s: State, step: Step)
    requires Inv(s) && Enabled(s, step)
    ensures RequestsOk(Apply(s, step))
  {
    hide PoolOk, SoleOwners, ProducersOk, ShutdownOk, HistoryOk, Apply, RequestOk, InFlight;
    InFlightStep(s, step);
    var was, now := InFlight(s), InFlight(Apply(s, step));
    if step.Send? { SenderNotInLine(s, step.p); SentOk(s, step.p); }
    forall i | 0 <= i < |now| && !(step.Send? && i == |was|) ensures RequestOk(Apply(s, step), now[i]) {
      var j := if step.SendReply? then i + 1 else i;
      assert now[i] == was[j] && RequestOk(s, was[j]);
      assert step.SendReply? ==> was[0] == s.worker.req;
      RequestKept(s, step, now[i]);
    }
    forall i, j | 0 <= i < j < |now| ensures now[i].producer != now[j].producer {
      var d := if step.SendReply? then 1 else 0;
      assert now[i] == was[i + d];
      if j < |was| - d { assert now[j] == was[j + d]; }
    }
  }

  /** A waiting producer stays in line until its own reply is sent. */
  lemma InLineStep(s: State, step: Step, p: nat)
    requires Enabled(s, step)
    requires InLine(s, p) || step == Send(p)
    requires step.SendReply? ==> s.worker.req.producer != p
    ensures InLine(Apply(s, step), p)
  {
    hide Apply, InFlight, Enabled;
    InFlightStep(s, step);
    var was, now := InFlight(s), InFlight(Apply(s, step));
    if step == Send(p) {
      assert now[|was|].producer == p;
    } else {
      var i :| 0 <= i < |was| && was[i].producer == p;
      assert now[if step.SendReply? then i - 1 else i].producer == p;
    }
  }

  lemma ProducerKept(s: State, step: Step, p: nat)
    requires Inv(s) && Enabled(s, step) && p in Apply(s, step).producers
    ensures ProducerOk(Apply(s, step), p)
  {
    hide RequestsOk, ShutdownOk, HistoryOk, InFlight, ProducersOk;
    if p in s.producers { PhaseOk(s, p); }
    if step.SendReply? {
      ReplyingOk(s);
      assert Holds(s.producers[s.worker.req.producer].phase, s.worker.req.chan);
    }
    if step.Receive? {
      PhaseOk(s, step.p);
      assert Holds(s.producers[step.p].phase, PhaseOf(s, step.p).chan);
    }
    if (InLine(s, p) || step == Send(p)) && !(step.SendReply? && s.worker.req.producer == p) { InLineStep(s, step, p); }
    match step {
      case Spawn(_, _) => case GetPooled(_, _) => case GetNew(_, _) => case Send(_) => case Abandon(_) =>
      case Receive(_) => case Release(_) => case Finish(_) => case SendReply =>
      case _ =>
    }
  }

  lemma ProducersStep(s: State, step: Step)
    requires Inv(s) && Enabled(s, step)
    ensures ProducersOk(Apply(s, step))
  {
    hide PoolOk, SoleOwners, RequestsOk, ShutdownOk, HistoryOk, ProducerOk, Apply, Enabled;
    forall p | p in Apply(s, step).producers ensures ProducerOk(Apply(s, step), p) {
      ProducerKept(s, step, p);
    }
  }

  /** One producer's change moves the count by what it does to that producer. */
  lemma ActiveChange(m: map<nat, Producer>, p: nat, q: Producer)
    ensures |ActiveIn(m[p := q])| - |ActiveIn(m)| == Weight(q) - (if p in m then Weight(m[p]) else 0)
  {
    if q.phase.Done? {
      assert ActiveIn(m[p := q]) == ActiveIn(m) - {p};
    } else {
      assert ActiveIn(m[p := q]) == ActiveIn(m) + {p};
    }
  }

  function Weight(q: Producer): int {
    if q.phase.Done? then 0 else 1
  }

  /** The counter follows the producers that run. */
  lemma ActiveStep(s: State, step: Step)
    requires Enabled(s, step)
    ensures |ActiveIn(Apply(s, step).producers)| - |ActiveIn(s.producers)| == Apply(s, step).count - s.count
  {
    hide ActiveIn;
    match step {
      case Spawn(p, isConn) => ActiveChange(s.producers, p, Producer(isConn, Idle, 0));
      case GetPooled(p, _) => ActiveChange(s.producers, p, Apply(s, step).producers[p]);
      case GetNew(p, _) => ActiveChange(s.producers, p, Apply(s, step).producers[p]);
      case Send(p) => ActiveChange(s.producers, p, Apply(s, step).producers[p]);
      case Abandon(p) => ActiveChange(s.producers, p, Apply(s, step).producers[p]);
      case Receive(p) => ActiveChange(s.producers, p, Apply(s, step).producers[p]);
      case Release(p) => ActiveChange(s.producers, p, Apply(s, step).producers[p]);
      case Finish(p) => ActiveChange(s.producers, p, Apply(s, step).producers[p]);
      case _ =>
    }
  }

  lemma ShutdownStep(s: State, step: Step)
    requires Inv(s) && Enabled(s, step)
    ensures ShutdownOk(Apply(s, step))
  {
    hide PoolOk, SoleOwners, RequestsOk, ProducersOk, HistoryOk, ActiveIn;
    ActiveStep(s, step);
  }

  lemma HistoryStep(s: State, step: Step)
    requires Inv(s) && Enabled(s, step)
    ensures HistoryOk(Apply(s, step))
  {
    hide PoolOk, SoleOwners, RequestsOk, ProducersOk, ShutdownOk;
  }

  lemma InvStep(s: State, step: Step)
    requires Inv(s) && Enabled(s, step)
    ensures Inv(Apply(s, step))
  {
    hide PoolOk, SoleOwners, RequestsOk, ProducersOk, ShutdownOk, HistoryOk, Apply, Enabled;
    PoolStep(s, step);
    SoleOwnersStep(s, step);
    RequestsStep(s, step);
    ProducersStep(s, step);
    ShutdownStep(s, step);
    HistoryStep(s, step);
  }

  // Runs

  /** `states` is a run of the server from its start, by the given steps. */
  ghost predicate IsRun(states: seq<State>, steps: seq<Step>) {
    && |states| == |steps| + 1 && states[0] == START
    && (forall i :: 0 <= i < |steps| ==> Enabled(states[i], steps[i]) && states[i + 1] == Apply(states[i], steps[i]))
  }

  lemma {:induction false} RunInv(states: seq<State>, steps: seq<Step>, n: nat)
    requires IsRun(states, steps) && n < |states|
    ensures Inv(states[n])
  {
    hide PoolOk, SoleOwners, RequestsOk, ProducersOk, ShutdownOk, HistoryOk, Apply, Enabled;
    if n == 0 {
      StartInv();
    } else {
      RunInv(states, steps, n - 1);
      assert Enabled(states[n - 1], steps[n - 1]);
      InvStep(states[n - 1], steps[n - 1]);
      assert Inv(states[n]);
    }
  }

  lemma StartInv()
    ensures Inv(START)
  {
    assert ActiveIn(START.producers) == {};
  }

  /** What the server promises about replies, whatever the interleaving. */
  ghost predicate RepliesSafe(s: State) {
    // A pooled channel is empty, and no request in flight will be answered on it.
    && (forall c :: c in s.pool ==> c in s.contents && s.contents[c] == [])
    && (forall i :: 0 <= i < |InFlight(s)| ==> InFlight(s)[i].chan !in s.pool)
    // A producer that receives gets the reply to the request it sent last.
    && (forall p :: p in s.producers && s.producers[p].phase.Received? ==>
          s.producers[p].phase.reply == Reply(p, s.producers[p].number))
    // The worker finds room for its reply.
    && (s.worker.Replying? ==> Enabled(s, SendReply))
  }

  /** What shutdown promises. */
  ghost predicate ShutdownSafe(s: State) {
    // Once the queue is closed nobody holds a channel to send on, and the queue is empty.
    && (Closed(s) ==> forall p :: p in s.producers ==> s.producers[p].phase.Done?)
    && (Closed(s) ==> InFlight(s) == [])
    // Requests run in the order they were sent; by the time of the sync all of them have run.
    && s.executed <= s.enqueued
    && (s.main == WorkerDone || s.main == Synced ==> s.worker.Exited? && s.executed == s.enqueued)
  }

  lemma InvReplies(s: State)
    requires Inv(s)
    ensures RepliesSafe(s)
  {
    hide SoleOwners, ShutdownOk, HistoryOk;
    forall i | 0 <= i < |InFlight(s)| ensures InFlight(s)[i].chan !in s.pool {
      var r := InFlight(s)[i];
      assert RequestOk(s, r);
      assert Holds(s.producers[r.producer].phase, r.chan);
    }
    if s.worker.Replying? { ReplyingOk(s); }
    forall p | p in s.producers && s.producers[p].phase.Received?
      ensures s.producers[p].phase.reply == Reply(p, s.producers[p].number)
    {
      PhaseOk(s, p);
    }
  }

  lemma FirstWaits(s: State)
    requires Inv(s) && InFlight(s) != []
    ensures PhaseOf(s, InFlight(s)[0].producer).Waiting?
  {
    hide PoolOk, SoleOwners, ProducersOk, ShutdownOk, HistoryOk;
    assert RequestOk(s, InFlight(s)[0]);
  }

  lemma InvShutdown(s: State)
    requires Inv(s)
    ensures ShutdownSafe(s)
  {
    hide PoolOk, SoleOwners, ProducersOk, RequestsOk;
    if Closed(s) {
      assert ActiveIn(s.producers) == {};
      forall p | p in s.producers ensures s.producers[p].phase.Done? {
        assert p !in ActiveIn(s.producers);
      }
      if InFlight(s) != [] { FirstWaits(s); }
    }
  }

  /** Every state of every run keeps both promises. */
  lemma AllInterleavings(states: seq<State>, steps: seq<Step>)
    requires IsRun(states, steps)
    ensures forall n :: 0 <= n < |states| ==> RepliesSafe(states[n]) && ShutdownSafe(states[n])
  {
    hide RepliesSafe, ShutdownSafe, Inv, IsRun;
    forall n | 0 <= n < |states| ensures RepliesSafe(states[n]) && ShutdownSafe(states[n]) {
      RunInv(states, steps, n);
      InvReplies(states[n]);
      InvShutdown(states[n]);
    }
  }

  // Shutdown completes

  /** Steps left to those who no longer accept connections or begin requests. */
  predicate Drains(step: Step) {
    !step.Spawn? && !step.GetPooled? && !step.GetNew? && !step.DropPooled?
  }

  function Ahead(ph: Phase): nat {
    match ph
    case HasChan(_) => 10
    case Waiting(_) => 6
    case Received(_, _) => 3
    case Idle => 1
    case Done => 0
  }

  ghost function Aheads(m: map<nat, Producer>): map<nat, int> {
    map p | p in m :: Ahead(m[p].phase)
  }

  /** How much is left to do before the sync. */
  ghost function Measure(s: State): int {
    Sum(Aheads(s.producers)) + 2 * |s.queue|
    + (match s.worker case Replying(_) => 2 case Taking => 1 case Exited => 0)
    + (match s.main
       case Accepting => 4
       case WaitingForProducers => 3
       case ChannelClosed => 2
       case WorkerDone => 1
       case Synced => 0)
  }

  lemma AheadsChange(m: map<nat, Producer>, p: nat, q: Producer)
    requires p in m
    ensures Sum(Aheads(m[p := q])) == Sum(Aheads(m)) - Ahead(m[p].phase) + Ahead(q.phase)
  {
    SumAt(Aheads(m), p);
    SumStore(Aheads(m), p, Ahead(q.phase));
    assert Aheads(m[p := q]) == Aheads(m)[p := Ahead(q.phase)];
  }

  lemma {:induction false} AheadsNat(m: map<nat, Producer>)
    ensures 0 <= Sum(Aheads(m))
    decreases |m|
  {
    if m == map[] {
      assert Aheads(m) == map[];
    } else {
      var p :| p in m;
      AheadsNat(m - {p});
      SumAt(Aheads(m), p);
      assert Aheads(m - {p}) == Aheads(m) - {p};
    }
  }

  lemma DrainDecreases(s: State, step: Step)
    requires Enabled(s, step) && Drains(step)
    ensures Measure(Apply(s, step)) < Measure(s)
  {
    hide Aheads;
    match step {
      case Send(p) => AheadsChange(s.producers, p, Apply(s, step).producers[p]);
      case Abandon(p) => AheadsChange(s.producers, p, Apply(s, step).producers[p]);
      case Receive(p) => AheadsChange(s.producers, p, Apply(s, step).producers[p]);
      case Release(p) => AheadsChange(s.producers, p, Apply(s, step).producers[p]);
      case Finish(p) => AheadsChange(s.producers, p, Apply(s, step).producers[p]);
      case _ =>
    }
  }

  /** With the line empty, whoever still runs can move. */
  lemma ProducerMoves(s: State, p: nat) returns (step: Step)
    requires Inv(s) && !Closed(s) && s.queue == [] && s.worker.Taking? && p in ActiveIn(s.producers)
    ensures Enabled(s, step) && Drains(step)
  {
    hide PoolOk, SoleOwners, RequestsOk, ShutdownOk, HistoryOk;
    PhaseOk(s, p);
    step :=
      match PhaseOf(s, p)
      case Idle => Finish(p)
      case HasChan(_) => Send(p)
      case Waiting(_) => Receive(p)
      case _ => Release(p);
  }

  /** Until the sync some draining step can be taken: shutdown never deadlocks. */
  lemma NeverStuck(s: State) returns (step: Step)
    requires Inv(s) && s.main != Synced
    ensures Enabled(s, step) && Drains(step)
  {
    hide PoolOk, SoleOwners, RequestsOk, ProducersOk, HistoryOk, ActiveIn;
    InvReplies(s);
    InvShutdown(s);
    match s.main {
      case Accepting => step := StopAccepting;
      case WaitingForProducers =>
        if s.worker.Replying? {
          step := SendReply;
        } else if s.queue != [] {
          step := Take;
        } else if s.count == 0 {
          step := CloseQueue;
        } else {
          var p :| p in ActiveIn(s.producers);
          step := ProducerMoves(s, p);
        }
      case ChannelClosed => step := if s.worker.Exited? then SeeWorkerDone else ExitWorker;
      case WorkerDone => step := Sync;
    }
  }

  ghost predicate Leads(s: State, steps: seq<Step>, t: State)
    decreases |steps|
  {
    if steps == [] then t == s
    else Enabled(s, steps[0]) && Leads(Apply(s, steps[0]), steps[1..], t)
  }

  ghost predicate AllDrain(steps: seq<Step>) {
    forall i :: 0 <= i < |steps| ==> Drains(steps[i])
  }

  /** From any state of any run, draining ends, and it ends at the sync with every request run. */
  lemma {:induction false} ShutdownCompletes(s: State) returns (steps: seq<Step>, t: State)
    requires Inv(s)
    ensures Leads(s, steps, t) && AllDrain(steps) && t.main == Synced && t.executed == t.enqueued
    decreases Measure(s) + 1
  {
    hide PoolOk, SoleOwners, RequestsOk, ProducersOk, ShutdownOk, HistoryOk, Apply, Enabled, Measure;
    if s.main == Synced {
      InvShutdown(s);
      steps, t := [], s;
    } else {
      var step := NeverStuck(s);
      InvStep(s, step);
      DrainDecreases(s, step);
      MeasureNat(s);
      var rest;
      rest, t := ShutdownCompletes(Apply(s, step));
      steps := [step] + rest;
      assert steps[1..] == rest;
    }
  }

  lemma MeasureNat(s: State)
    ensures 0 <= Measure(s)
  {
    AheadsNat(s.producers);
  }

  /** No order of draining steps goes on for longer than the measure. */
  lemma {:induction false} DrainBounded(s: State, steps: seq<Step>, t: State)
    requires Leads(s, steps, t) && AllDrain(steps)
    ensures |steps| <= Measure(s)
    decreases steps
  {
    hide Apply, Enabled, Measure;
    MeasureNat(s);
    if steps != [] {
      DrainDecreases(s, steps[0]);
      DrainBounded(Apply(s, steps[0]), steps[1..], t);
    }
  }
}
