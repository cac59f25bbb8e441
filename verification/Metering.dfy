/** The metering pipeline as a step system: any number of emitting handlers, one worker, the
    stats ticker, and a context that may be cancelled at any moment. */
module Metering {

  const QueueCapacity: nat := 4096

  datatype Event = Event(orgID: string, projectID: string, keyID: string, action: string, latencyMs: real, status: int)

  /** An event that has left the pipeline: published, or lost to a failed XADD and counted. */
  datatype Settled = Settled(event: Event, published: bool)

  /** Where the worker is: in Run's select, in publish (called from Run or from drain), between a
      failed XADD and its counter, in drain's select, or returned. */
  datatype Worker = Selecting | Publishing(event: Event, draining: bool) | Failing(event: Event, draining: bool) | Draining | Stopped

  /** Where the ticker is: each tick loads and logs one counter, then the other. */
  datatype Ticker = Waiting | QueueLoaded(cur: nat) | Between | XaddLoaded(cur: nat) | Gone

  datatype State = State(
    emitted: nat,                // calls to Emit that have reached their decision
    accepted: seq<Event>,        // events sent into the channel, in order
    queue: seq<Event>,
    worker: Worker,
    settled: seq<Settled>,       // events the worker is done with, in order
    dropping: nat,               // Emit calls between the full queue and its counter
    queueDrops: nat,
    xaddDrops: nat,
    cancelled: bool,
    ticker: Ticker,
    prevQueue: nat,
    prevXadd: nat,
    queueLog: seq<nat>,          // the deltas logged so far
    xaddLog: seq<nat>
  )

  const Init := State(0, [], [], Selecting, [], 0, 0, 0, false, Waiting, 0, 0, [], [])

  datatype Step =
    | Accept(event: Event) | Full | CountFull
    | Cancel
    | Take | SeeDone | XaddOk | XaddFail | CountFail | DrainTake | DrainDone
    | LoadQueue | LogQueue | LoadXadd | LogXadd | TickerStop

  predicate Enabled(s: State, step: Step) {
    match step
    case Accept(_) => |s.queue| < QueueCapacity
    case Full => |s.queue| >= QueueCapacity
    case CountFull => s.dropping > 0
    case Cancel => true
    case Take => s.worker.Selecting? && s.queue != []
    case SeeDone => s.worker.Selecting? && s.cancelled
    case XaddOk => s.worker.Publishing?
    case XaddFail => s.worker.Publishing?
    case CountFail => s.worker.Failing?
    case DrainTake => s.worker.Draining? && s.queue != []
    case DrainDone => s.worker.Draining? && s.queue == []
    case LoadQueue => s.ticker.Waiting?
    case LogQueue => s.ticker.QueueLoaded?
    case LoadXadd => s.ticker.Between?
    case LogXadd => s.ticker.XaddLoaded?
    case TickerStop => s.ticker.Waiting? && s.cancelled
  }

  function Resume(draining: bool): Worker { if draining then Draining else Selecting }

  /** A delta is logged only when it is positive. */
  function Logged(log: seq<nat>, prev: nat, cur: nat): seq<nat> { if cur > prev then log + [cur - prev] else log }

  function Apply(s: State, step: Step): State
    requires Enabled(s, step)
  {
    match step
    case Accept(e) => s.(emitted := s.emitted + 1, accepted := s.accepted + [e], queue := s.queue + [e])
    case Full => s.(emitted := s.emitted + 1, dropping := s.dropping + 1)
    case CountFull => s.(dropping := s.dropping - 1, queueDrops := s.queueDrops + 1)
    case Cancel => s.(cancelled := true)
    case Take => s.(worker := Publishing(s.queue[0], false), queue := s.queue[1..])
    case SeeDone => s.(worker := Draining)
    case XaddOk => s.(settled := s.settled + [Settled(s.worker.event, true)], worker := Resume(s.worker.draining))
    case XaddFail => s.(worker := Failing(s.worker.event, s.worker.draining))
    case CountFail =>
      s.(settled := s.settled + [Settled(s.worker.event, false)], xaddDrops := s.xaddDrops + 1, worker := Resume(s.worker.draining))
    case DrainTake => s.(worker := Publishing(s.queue[0], true), queue := s.queue[1..])
    case DrainDone => s.(worker := Stopped)
    case LoadQueue => s.(ticker := QueueLoaded(s.queueDrops))
    case LogQueue => s.(queueLog := Logged(s.queueLog, s.prevQueue, s.ticker.cur), prevQueue := s.ticker.cur, ticker := Between)
    case LoadXadd => s.(ticker := XaddLoaded(s.xaddDrops))
    case LogXadd => s.(xaddLog := Logged(s.xaddLog, s.prevXadd, s.ticker.cur), prevXadd := s.ticker.cur, ticker := Waiting)
    case TickerStop => s.(ticker := Gone)
  }

  ghost predicate Next(s: State, t: State) {
    exists step :: Enabled(s, step) && t == Apply(s, step)
  }

  /** A run: any interleaving of steps from the initial state. */
  ghost predicate Run(states: seq<State>) {
    && states != [] && states[0] == Init
    && forall i | 0 <= i < |states| - 1 :: Next(states[i], states[i + 1])
  }

  // ----- what every reachable state keeps -----

  function EventsOf(settled: seq<Settled>): seq<Event> {
    seq(|settled|, k requires 0 <= k < |settled| => settled[k].event)
  }

  function InFlight(w: Worker): seq<Event> { if w.Publishing? || w.Failing? then [w.event] else [] }

  function CountIf(settled: seq<Settled>, published: bool): nat {
    if settled == [] then 0
    else CountIf(settled[..|settled| - 1], published) + if settled[|settled| - 1].published == published then 1 else 0
  }

  function Sum(log: seq<nat>): nat { if log == [] then 0 else Sum(log[..|log| - 1]) + log[|log| - 1] }

  ghost predicate Inv(s: State) {
    && Ordered(s)
    && s.emitted == |s.accepted| + s.dropping + s.queueDrops
    && s.xaddDrops == CountIf(s.settled, false)
    && |s.queue| <= QueueCapacity
    && Sum(s.queueLog) == s.prevQueue <= s.queueDrops
    && Sum(s.xaddLog) == s.prevXadd <= s.xaddDrops
    && (s.ticker.QueueLoaded? ==> s.prevQueue <= s.ticker.cur <= s.queueDrops)
    && (s.ticker.XaddLoaded? ==> s.prevXadd <= s.ticker.cur <= s.xaddDrops)
  }

  lemma Snoc(settled: seq<Settled>, x: Settled)
    ensures EventsOf(settled + [x]) == EventsOf(settled) + [x.event]
    ensures CountIf(settled + [x], x.published) == CountIf(settled, x.published) + 1
    ensures CountIf(settled + [x], !x.published) == CountIf(settled, !x.published)
  {
    assert (settled + [x])[..|settled|] == settled;
  }

  lemma LogAdds(log: seq<nat>, prev: nat, cur: nat)
    requires Sum(log) == prev <= cur
    ensures Sum(Logged(log, prev, cur)) == cur
  {
    if cur > prev { assert (log + [cur - prev])[..|log|] == log; }
  }

  /** The worker's history, what it holds and the queue spell out the accepted events. */
  ghost predicate Ordered(s: State) {
    s.accepted == EventsOf(s.settled) + InFlight(s.worker) + s.queue
  }

  lemma StepKeepsOrder(s: State, step: Step)
    requires Ordered(s) && Enabled(s, step)
    ensures Ordered(Apply(s, step))
  {
    hide CountIf, EventsOf;
    match step
    case XaddOk => Snoc(s.settled, Settled(s.worker.event, true));
    case CountFail => Snoc(s.settled, Settled(s.worker.event, false));
    case Accept(e) => assert s.accepted + [e] == EventsOf(s.settled) + InFlight(s.worker) + (s.queue + [e]);
    case Take => FrontMoves(EventsOf(s.settled), s.queue);
    case DrainTake => FrontMoves(EventsOf(s.settled), s.queue);
    case _ =>
  }

  lemma FrontMoves(done: seq<Event>, queue: seq<Event>)
    requires queue != []
    ensures done + [] + queue == done + [queue[0]] + queue[1..]
  {}

  lemma StepKeepsInv(s: State, step: Step)
    requires Inv(s) && Enabled(s, step)
    ensures Inv(Apply(s, step))
  {
    hide Sum, CountIf, Logged, EventsOf, Ordered;
    StepKeepsOrder(s, step);
    match step
    case XaddOk => Snoc(s.settled, Settled(s.worker.event, true));
    case CountFail => Snoc(s.settled, Settled(s.worker.event, false));
    case LogQueue => LogAdds(s.queueLog, s.prevQueue, s.ticker.cur);
    case LogXadd => LogAdds(s.xaddLog, s.prevXadd, s.ticker.cur);
    case _ =>
  }

  lemma {:induction false} InvAlways(states: seq<State>, i: nat)
    requires Run(states) && i < |states|
    ensures Inv(states[i])
  {
    if i > 0 {
      InvAlways(states, i - 1);
      assert Next(states[i - 1], states[i]);
      var step :| Enabled(states[i - 1], step) && states[i] == Apply(states[i - 1], step);
      StepKeepsInv(states[i - 1], step);
    } else {
      assert EventsOf([]) == [];
    }
  }

  lemma {:induction false} EverySettledCounts(settled: seq<Settled>)
    ensures CountIf(settled, true) + CountIf(settled, false) == |settled|
  {
    if settled != [] { EverySettledCounts(settled[..|settled| - 1]); }
  }

  /** Conservation and order, in every reachable state: each emitted event is queued, in flight,
      published, or counted (or about to be) in exactly one drop counter; the queue is bounded;
      and what was dequeued is a prefix of what was accepted. */
  lemma NothingIsUnaccounted(states: seq<State>, i: nat)
    requires Run(states) && i < |states|
    ensures var s := states[i];
            && s.emitted == |s.queue| + |InFlight(s.worker)| + CountIf(s.settled, true) + s.xaddDrops + s.queueDrops + s.dropping
            && |s.queue| <= QueueCapacity
            && EventsOf(s.settled) + InFlight(s.worker) <= s.accepted
  {
    InvAlways(states, i);
    EverySettledCounts(states[i].settled);
  }

  // ----- runs over time -----

  /** Histories only grow, counters never fall, and a returned worker settles nothing more. */
  ghost predicate Later(s: State, t: State) {
    && s.accepted <= t.accepted && s.settled <= t.settled
    && s.emitted <= t.emitted && s.queueDrops <= t.queueDrops && s.xaddDrops <= t.xaddDrops
    && (s.cancelled ==> t.cancelled)
    && (s.worker.Stopped? ==> t.worker.Stopped? && t.settled == s.settled)
  }

  lemma {:induction false} RunsOnlyGrow(states: seq<State>, i: nat, j: nat)
    requires Run(states) && i <= j < |states|
    ensures Later(states[i], states[j])
    decreases j
  {
    if i < j {
      RunsOnlyGrow(states, i, j - 1);
      assert Next(states[j - 1], states[j]);
    }
  }

  /** The worker stops only through drain, with an empty queue. */
  lemma StopsOnEmptyQueue(s: State, t: State)
    requires Next(s, t) && !s.worker.Stopped? && t.worker.Stopped?
    ensures s.worker.Draining? && s.queue == []
    ensures t.settled == s.settled && t.accepted == s.accepted && t.xaddDrops == s.xaddDrops
  {}

  /** When drain returns (between states i and i + 1), every event accepted so far is published or
      counted as an XADD drop; events accepted later stay in the queue, and no other event does. */
  lemma DrainSettlesEverything(states: seq<State>, i: nat, j: nat)
    requires Run(states) && i < j < |states|
    requires !states[i].worker.Stopped? && states[i + 1].worker.Stopped?
    ensures EventsOf(states[i].settled) == states[i].accepted
    ensures |states[i].accepted| == CountIf(states[i].settled, true) + states[i].xaddDrops
    ensures states[j].settled == states[i].settled
    ensures states[j].accepted == states[i].accepted + states[j].queue
  {
    hide Enabled, Apply, Next, CountIf, Sum;
    assert Next(states[i], states[i + 1]);
    StopsOnEmptyQueue(states[i], states[i + 1]);
    InvAlways(states, i);
    InvAlways(states, j);
    EverySettledCounts(states[i].settled);
    RunsOnlyGrow(states, i + 1, j);
  }

  /** The value of queueDrops when the ticker last loaded it before state i; none yet counts as 0. */
  ghost function LastQueueTick(states: seq<State>, i: nat): nat
    requires i < |states|
  {
    if i == 0 then 0
    else if !states[i - 1].ticker.QueueLoaded? && states[i].ticker.QueueLoaded? then states[i - 1].queueDrops
    else LastQueueTick(states, i - 1)
  }

  ghost function LastXaddTick(states: seq<State>, i: nat): nat
    requires i < |states|
  {
    if i == 0 then 0
    else if !states[i - 1].ticker.XaddLoaded? && states[i].ticker.XaddLoaded? then states[i - 1].xaddDrops
    else LastXaddTick(states, i - 1)
  }

  /** A loaded value waits for its log; a log brings the sum of the deltas up to it. */
  lemma StepMovesSums(s: State, step: Step)
    requires Inv(s) && Enabled(s, step)
    ensures var t := Apply(s, step);
            && (t.ticker.QueueLoaded? ==> t.ticker.cur == if s.ticker.QueueLoaded? then s.ticker.cur else s.queueDrops)
            && (!t.ticker.QueueLoaded? ==> Sum(t.queueLog) == if s.ticker.QueueLoaded? then s.ticker.cur else Sum(s.queueLog))
            && (t.ticker.XaddLoaded? ==> t.ticker.cur == if s.ticker.XaddLoaded? then s.ticker.cur else s.xaddDrops)
            && (!t.ticker.XaddLoaded? ==> Sum(t.xaddLog) == if s.ticker.XaddLoaded? then s.ticker.cur else Sum(s.xaddLog))
  {
    hide Sum, Logged, CountIf;
    match step
    case LogQueue => LogAdds(s.queueLog, s.prevQueue, s.ticker.cur);
    case LogXadd => LogAdds(s.xaddLog, s.prevXadd, s.ticker.cur);
    case _ =>
  }

  /** The logged deltas of each counter add up to its value at the last tick, unless that tick has
      loaded the counter and not yet logged it. */
  lemma {:induction false} DeltasSumToLastTick(states: seq<State>, i: nat)
    requires Run(states) && i < |states|
    ensures var s := states[i];
            && (if s.ticker.QueueLoaded? then s.ticker.cur else Sum(s.queueLog)) == LastQueueTick(states, i)
            && (if s.ticker.XaddLoaded? then s.ticker.cur else Sum(s.xaddLog)) == LastXaddTick(states, i)
  {
    hide Enabled, Apply, Inv;
    if i > 0 {
      hide Sum;
      DeltasSumToLastTick(states, i - 1);
      InvAlways(states, i - 1);
      assert Next(states[i - 1], states[i]);
      var step :| Enabled(states[i - 1], step) && states[i] == Apply(states[i - 1], step);
      StepMovesSums(states[i - 1], step);
    }
  }

  // ----- drain terminates once emitters are quiet -----

  predicate IsWorkerStep(step: Step) {
    step.Take? || step.SeeDone? || step.XaddOk? || step.XaddFail? || step.CountFail? || step.DrainTake? || step.DrainDone?
  }

  predicate InDrain(w: Worker) {
    w.Draining? || ((w.Publishing? || w.Failing?) && w.draining)
  }

  /** Worker steps left at most before drain returns. */
  function StepsLeft(s: State): nat {
    (match s.worker
     case Draining => 1
     case Failing(_, _) => 2
     case Publishing(_, _) => 3
     case _ => 0) + 3 * |s.queue|
  }

  /** Once no more events come in, drain always has a step to take and every step of the worker
      brings its return closer; no step of anyone else pushes it back. */
  lemma DrainProgresses(s: State, step: Step)
    requires InDrain(s.worker) && Enabled(s, step) && !step.Accept?
    ensures var t := Apply(s, step);
            && ((t.worker.Stopped? && t.queue == []) || (InDrain(t.worker) && StepsLeft(t) <= StepsLeft(s)))
            && (IsWorkerStep(step) && InDrain(t.worker) ==> StepsLeft(t) < StepsLeft(s))
    ensures exists w :: IsWorkerStep(w) && Enabled(s, w)
  {
    assert IsWorkerStep(XaddOk) && IsWorkerStep(CountFail) && IsWorkerStep(DrainTake) && IsWorkerStep(DrainDone);
    assert Enabled(s, XaddOk) || Enabled(s, CountFail) || Enabled(s, DrainTake) || Enabled(s, DrainDone);
  }

  // ----- the worker leaves Run's loop only for a cancelled context -----

  /** Drain, the worker's return and the ticker's each need the context done; every logged line shows drops. */
  ghost predicate Obeys(s: State) {
    && (s.worker.Draining? || s.worker.Stopped? ==> s.cancelled)
    && ((s.worker.Publishing? || s.worker.Failing?) && s.worker.draining ==> s.cancelled)
    && (s.ticker.Gone? ==> s.cancelled)
    && (forall d <- s.queueLog :: d > 0) && (forall d <- s.xaddLog :: d > 0)
  }

  lemma StepKeepsObeying(s: State, step: Step)
    requires Obeys(s) && Enabled(s, step)
    ensures Obeys(Apply(s, step))
  {}

  /** As long as the context is not done the worker is in Run's loop, and so is the ticker in its own; and no
      suppressed tick is ever logged. */
  lemma {:induction false} OnlyCancelEndsTheLoop(states: seq<State>, i: nat)
    requires Run(states) && i < |states|
    ensures Obeys(states[i])
  {
    hide Obeys, Apply, Enabled;
    if i > 0 {
      OnlyCancelEndsTheLoop(states, i - 1);
      assert Next(states[i - 1], states[i]);
      var step :| Enabled(states[i - 1], step) && states[i] == Apply(states[i - 1], step);
      StepKeepsObeying(states[i - 1], step);
    } else {
      StartsObeying();
    }
  }

  lemma StartsObeying() ensures Obeys(Init) {}

  /** Worker steps at most until everything taken or queued now is settled. */
  function WorkLeft(s: State): nat {
    (match s.worker
     case Failing(_, _) => 1
     case Publishing(_, _) => 2
     case _ => 0) + 3 * |s.queue|
  }

  /** Uncancelled, with an event queued or in hand the worker always has a step to take; every step it takes settles
      an event or brings that closer, and it stays in the loop. */
  lemma LoopProgresses(states: seq<State>, i: nat, step: Step)
    requires Run(states) && i < |states| && !states[i].cancelled
    ensures WorkLeft(states[i]) > 0 ==> exists w :: IsWorkerStep(w) && Enabled(states[i], w)
    ensures IsWorkerStep(step) && Enabled(states[i], step) ==>
              var t := Apply(states[i], step); WorkLeft(t) < WorkLeft(states[i]) && !t.worker.Draining? && !t.worker.Stopped?
    ensures WorkLeft(states[i]) == 0 ==> EventsOf(states[i].settled) == states[i].accepted
  {
    hide Run;
    OnlyCancelEndsTheLoop(states, i);
    InvAlways(states, i);
    var s := states[i];
    if s.worker.Publishing? { assert IsWorkerStep(XaddOk) && Enabled(s, XaddOk); }
    if s.worker.Failing? { assert IsWorkerStep(CountFail) && Enabled(s, CountFail); }
    if s.worker.Selecting? && s.queue != [] { assert IsWorkerStep(Take) && Enabled(s, Take); }
  }

  /** An event is taken in while fewer than 4096 are queued, and dropped while 4096 are; more there never are. */
  lemma QueueTakesInOrDrops(states: seq<State>, i: nat, e: Event)
    requires Run(states) && i < |states|
    ensures Enabled(states[i], Accept(e)) <==> |states[i].queue| < 4096
    ensures Enabled(states[i], Full) <==> |states[i].queue| == 4096
  {
    hide Run, Ordered, Sum, CountIf;
    InvAlways(states, i);
  }

  // ----- the methods, as the steps they take -----

  /** What the worker makes of a queue when XADD answers as given. */
  function SettledBy(queue: seq<Event>, replies: seq<bool>): seq<Settled>
    requires |queue| <= |replies|
  {
    seq(|queue|, k requires 0 <= k < |queue| => Settled(queue[k], replies[k]))
  }

  class Metering {
    var ch: seq<Event>
    var queueDrops: nat
    var xaddDrops: nat
    ghost var emitted: nat
    ghost var accepted: seq<Event>
    ghost var settled: seq<Settled>
    ghost var worker: Worker

    constructor ()
      ensures View() == Init
    {
      ch, queueDrops, xaddDrops := [], 0, 0;
      emitted, accepted, settled, worker := 0, [], [], Selecting;
    }

    /** The pipeline's part of the state; the ticker and the context are not this object's. */
    ghost function View(): State
      reads this
    {
      Init.(emitted := emitted, accepted := accepted, queue := ch, worker := worker, settled := settled,
            queueDrops := queueDrops, xaddDrops := xaddDrops)
    }

    /** Never blocks: a full queue costs the event, and is counted. */
    method Emit(e: Event)
      requires Inv(View())
      modifies this
      ensures Inv(View())
      ensures View() == if |old(ch)| < QueueCapacity then Apply(old(View()), Accept(e))
                        else Apply(Apply(old(View()), Full), CountFull)
    {
      hide Inv;
      ghost var before := View();
      if |ch| < QueueCapacity {
        StepKeepsInv(before, Accept(e));
        ch := ch + [e];
        accepted := accepted + [e];
      } else {
        StepKeepsInv(before, Full);
        StepKeepsInv(Apply(before, Full), CountFull);
        queueDrops := queueDrops + 1;
      }
      emitted := emitted + 1;
    }

    /** ok is what XADD answers. */
    method Publish(e: Event, ok: bool)
      requires Inv(View()) && worker.Publishing? && worker.event == e
      modifies this`xaddDrops, this`settled, this`worker
      ensures Inv(View())
      ensures View() == if ok then Apply(old(View()), XaddOk) else Apply(Apply(old(View()), XaddFail), CountFail)
    {
      hide Inv;
      ghost var before := View();
      if ok {
        StepKeepsInv(before, XaddOk);
      } else {
        StepKeepsInv(before, XaddFail);
        StepKeepsInv(Apply(before, XaddFail), CountFail);
        xaddDrops := xaddDrops + 1;
      }
      settled := settled + [Settled(e, ok)];
      worker := Resume(worker.draining);
    }

    /** One turn of drain's loop. */
    method DrainOne(ok: bool)
      requires Inv(View()) && worker.Draining? && ch != []
      modifies this`ch, this`xaddDrops, this`settled, this`worker
      ensures Inv(View()) && worker.Draining? && ch == old(ch)[1..]
      ensures settled == old(settled) + [Settled(old(ch)[0], ok)]
      ensures xaddDrops == old(xaddDrops) + if ok then 0 else 1
    {
      hide Inv;
      StepKeepsInv(View(), DrainTake);
      var e := ch[0];
      ch := ch[1..];
      worker := Publishing(e, true);
      Publish(e, ok);
    }

    /** drain with no emitter at work: every queued event is settled, in order, and nothing else changes. */
    method Drain(replies: seq<bool>)
      requires Inv(View()) && worker.Draining? && |ch| <= |replies|
      modifies this`ch, this`xaddDrops, this`settled, this`worker
      ensures Inv(View()) && ch == [] && worker.Stopped?
      ensures settled == old(settled) + SettledBy(old(ch), replies) && EventsOf(settled) == accepted
      ensures xaddDrops == old(xaddDrops) + CountIf(SettledBy(old(ch), replies), false)
    {
      hide CountIf, Sum, EventsOf, Inv;
      ghost var queue := ch;
      var n := 0;
      NoneSettled();
      assert SettledBy(queue[..0], replies) == [];
      while |ch| > 0
        invariant Inv(View()) && worker.Draining? && n + |ch| == |queue| && ch == queue[n..]
        invariant settled == old(settled) + SettledBy(queue[..n], replies)
        invariant xaddDrops == old(xaddDrops) + CountIf(SettledBy(queue[..n], replies), false)
        decreases |ch|
      {
        DrainOne(replies[n]);
        assert SettledBy(queue[..n + 1], replies) == SettledBy(queue[..n], replies) + [Settled(queue[n], replies[n])];
        Snoc(SettledBy(queue[..n], replies), Settled(queue[n], replies[n]));
        n := n + 1;
      }
      StepKeepsInv(View(), DrainDone);
      AllSettled(View());
      assert queue[..n] == queue;
      worker := Stopped;
    }
  }

  /** A whole tick that nobody interrupts. */
  function Ticked(s: State): State
    requires s.ticker.Waiting?
  {
    Apply(Apply(Apply(Apply(s, LoadQueue), LogQueue), LoadXadd), LogXadd)
  }

  lemma TickedMeans(s: State)
    requires s.ticker.Waiting?
    ensures Ticked(s) == s.(queueLog := Logged(s.queueLog, s.prevQueue, s.queueDrops), prevQueue := s.queueDrops,
                            xaddLog := Logged(s.xaddLog, s.prevXadd, s.xaddDrops), prevXadd := s.xaddDrops)
  {
    hide Logged;
  }

  /** What statsLoop keeps from tick to tick, and what it has logged. */
  class StatsLoop {
    var prevQueue: nat
    var prevXadd: nat
    ghost var queueLog: seq<nat>
    ghost var xaddLog: seq<nat>

    constructor ()
      ensures View(0, 0) == Init
    {
      prevQueue, prevXadd := 0, 0;
      queueLog, xaddLog := [], [];
    }

    /** The loop's part of the state, beside these values of the two counters. */
    ghost function View(queueDrops: nat, xaddDrops: nat): State
      reads this
    {
      Init.(queueDrops := queueDrops, xaddDrops := xaddDrops,
            prevQueue := prevQueue, prevXadd := prevXadd, queueLog := queueLog, xaddLog := xaddLog)
    }

    /** The deltas returned are what is logged; zero stands for a suppressed line. */
    method Tick(curQueue: nat, curXadd: nat) returns (queueDelta: nat, xaddDelta: nat)
      modifies this
      ensures View(curQueue, curXadd) == Ticked(old(View(curQueue, curXadd)))
      ensures queueDelta == (if curQueue > old(prevQueue) then curQueue - old(prevQueue) else 0)
      ensures xaddDelta == (if curXadd > old(prevXadd) then curXadd - old(prevXadd) else 0)
      ensures Sum(old(queueLog)) == old(prevQueue) <= curQueue ==> Sum(queueLog) == curQueue
      ensures Sum(old(xaddLog)) == old(prevXadd) <= curXadd ==> Sum(xaddLog) == curXadd
    {
      hide Sum, Apply, Ticked;
      TickedMeans(View(curQueue, curXadd));
      if Sum(queueLog) == prevQueue <= curQueue { LogAdds(queueLog, prevQueue, curQueue); }
      if Sum(xaddLog) == prevXadd <= curXadd { LogAdds(xaddLog, prevXadd, curXadd); }
      queueDelta, xaddDelta := 0, 0;
      if curQueue > prevQueue {
        queueDelta := curQueue - prevQueue;
        queueLog := queueLog + [queueDelta];
      }
      prevQueue := curQueue;
      if curXadd > prevXadd {
        xaddDelta := curXadd - prevXadd;
        xaddLog := xaddLog + [xaddDelta];
      }
      prevXadd := curXadd;
    }
  }

  lemma NoneSettled() ensures CountIf([], false) == 0 {}

  lemma AllSettled(s: State)
    requires Inv(s) && s.worker.Draining? && s.queue == []
    ensures EventsOf(s.settled) == s.accepted
  {}
}
