/**
 Handing fibers to a processer while it runs (src/fiber/processer.cc:58-81, 113-210): every access to shared state
 is one step, steps of the two sides interleave freely, and one thread at a time adds fibers.

 `newQueue` (a boost spsc_queue, not part of this model) is a FIFO of 128 places.
 */
module ProcesserSteps {

  type Fiber = nat

  const CAPACITY: nat := 128
  const GC_LIMIT: nat := 32

  datatype TaskState = Init | Running | Block | Idle | Stop | Done | Except

  datatype Producer = Ready | Pushing(fiber: Fiber) | Counting

  /** `Holding`: taken from the runable queue, not yet switched to.  `Executing`: switched to.  `atTop` says which
      of the two calls to getNewFibers is under way. */
  datatype Consumer =
    | Top
    | Holding(fiber: Fiber)
    | Executing(fiber: Fiber)
    | Glance
    | Load(atTop: bool)
    | Cas(size: nat, atTop: bool)
    | Popping(left: nat, atTop: bool)
    | Idling
    | Ended

  /** How a fiber comes back from its turn. */
  datatype Result = Runs | Blocks | Finishes | Throws

  /** An entry into the runable queue, from `newQueue` or from the fiber's own last turn. */
  datatype Entry = Entry(fiber: Fiber, isNew: bool)

  datatype Log = Log(
    accepted: seq<Fiber>, entered: seq<Entry>, swapped: seq<Fiber>, blocked: seq<Fiber>, finished: seq<Fiber>,
    collected: seq<Fiber>, dropped: seq<Fiber>)

  datatype System = System(
    newQueue: seq<Fiber>, count: nat, state: TaskState, stopping: bool, runable: seq<Fiber>, gcQueue: seq<Fiber>,
    nowSize: nat, fiberCount: nat, producer: Producer, consumer: Consumer, log: Log)

  datatype Move = Begin(fiber: Fiber) | Produce | Consume(result: Result) | SetState(state: TaskState) | StopScheduler

  function Start(): System {
    System([], 0, Running, false, [], [], 0, 0, Ready, Top, Log([], [], [], [], [], [], []))
  }

  /** addFiber: look at the state, push until it goes in, then count. */
  function BeginAdd(s: System, f: Fiber): System {
    if !s.producer.Ready? || s.state.Stop? || s.state.Done? then s else s.(producer := Pushing(f))
  }

  function ProducerStep(s: System): System {
    match s.producer
    case Ready => s
    case Pushing(f) =>
      if |s.newQueue| >= CAPACITY then s
      else s.(newQueue := s.newQueue + [f], producer := Counting, log := s.log.(accepted := s.log.accepted + [f]))
    case Counting => s.(count := s.count + 1, producer := Ready)
  }

  function TakeFront(s: System): System
    requires s.runable != []
  {
    s.(consumer := Holding(s.runable[0]), runable := s.runable[1..])
  }

  function SwapIn(s: System, f: Fiber): System {
    s.(consumer := Executing(f), log := s.log.(swapped := s.log.swapped + [f]))
  }

  /** Leaving because the scheduler is stopping drops the fiber in hand. */
  function Drop(s: System, f: Fiber): System {
    s.(consumer := Ended, log := s.log.(dropped := s.log.dropped + [f]))
  }

  function Requeue(s: System, f: Fiber): System {
    s.(consumer := Glance, runable := s.runable + [f], log := s.log.(entered := s.log.entered + [Entry(f, false)]))
  }

  function Leave(s: System, f: Fiber): System {
    s.(consumer := Top, log := s.log.(blocked := s.log.blocked + [f]))
  }

  function Collect(s: System): System {
    s.(gcQueue := [], log := s.log.(collected := s.log.collected + s.gcQueue))
  }

  function Finish(s: System, f: Fiber, threw: bool): System {
    var s' := if |s.gcQueue| > GC_LIMIT then Collect(s) else s;
    s'.(gcQueue := s'.gcQueue + [f], log := s'.log.(finished := s'.log.finished + [f]),
        fiberCount := if threw then s.fiberCount else s.fiberCount + 1,
        consumer := if threw then Ended else Top)
  }

  function Claim(s: System, atTop: bool): System {
    s.(consumer := Popping(s.count, atTop), count := 0, nowSize := s.nowSize + s.count)
  }

  function Pop(s: System, left: nat, atTop: bool): System
    requires left > 0
  {
    if s.newQueue == [] then s.(consumer := Popping(left - 1, atTop))
    else
      s.(consumer := Popping(left - 1, atTop), newQueue := s.newQueue[1..], runable := s.runable + [s.newQueue[0]],
         log := s.log.(entered := s.log.entered + [Entry(s.newQueue[0], true)]))
  }

  /** One step of execute, including getNewFibers and gc. */
  function ConsumerStep(s: System, result: Result): System {
    match s.consumer
    case Top =>
      if s.stopping then s.(consumer := Ended)
      else if s.runable != [] then TakeFront(s)
      else s.(consumer := Load(true))
    case Holding(f) => if s.stopping then Drop(s, f) else SwapIn(s, f)
    case Executing(f) =>
      (match result
       case Runs => Requeue(s, f)
       case Blocks => Leave(s, f)
       case Finishes => Finish(s, f, false)
       case Throws => Finish(s, f, true))
    case Glance => s.(consumer := if s.count > 32 then Load(false) else Top)
    case Load(atTop) => s.(consumer := Cas(s.count, atTop))
    case Cas(size, atTop) => if s.count == size then Claim(s, atTop) else s.(consumer := Load(atTop))
    case Popping(left, atTop) =>
      if left > 0 then Pop(s, left, atTop)
      else if atTop && s.runable == [] then Collect(s).(consumer := Idling)
      else s.(consumer := Top)
    case Idling => s.(consumer := Top)
    case Ended => s
  }

  function Apply(s: System, m: Move): System {
    match m
    case Begin(f) => BeginAdd(s, f)
    case Produce => ProducerStep(s)
    case Consume(result) => ConsumerStep(s, result)
    case SetState(state) => s.(state := state)
    case StopScheduler => s.(stopping := true)
  }

  function Run(s: System, moves: seq<Move>): System
    decreases |moves|
  {
    if moves == [] then s else Run(Apply(s, moves[0]), moves[1..])
  }

  ghost predicate ReachableFrom(s: System, s': System) {
    exists moves :: Run(s, moves) == s'
  }

  ghost predicate Reachable(s: System) {
    ReachableFrom(Start(), s)
  }

  // ---------------------------------------------------------------- what is where

  function Uncounted(p: Producer): nat {
    if p.Counting? then 1 else 0
  }

  function Claimed(c: Consumer): nat {
    if c.Popping? then c.left else 0
  }

  function InHand(c: Consumer): seq<Fiber> {
    if c.Holding? then [c.fiber] else []
  }

  function Busy(c: Consumer): seq<Fiber> {
    if c.Holding? || c.Executing? then [c.fiber] else []
  }

  function Fibers(entries: seq<Entry>): seq<Fiber> {
    if entries == [] then [] else Fibers(entries[..|entries| - 1]) + [entries[|entries| - 1].fiber]
  }

  /** The fibers of the entries that came from newQueue. */
  function Newcomers(entries: seq<Entry>): seq<Fiber> {
    if entries == [] then []
    else
      var before := Newcomers(entries[..|entries| - 1]);
      if entries[|entries| - 1].isNew then before + [entries[|entries| - 1].fiber] else before
  }

  function Times(fibers: seq<Fiber>, f: Fiber): nat {
    if fibers == [] then 0 else (if fibers[0] == f then 1 else 0) + Times(fibers[1..], f)
  }

  lemma Snoc(entries: seq<Entry>, e: Entry)
    ensures Fibers(entries + [e]) == Fibers(entries) + [e.fiber]
    ensures Newcomers(entries + [e]) == Newcomers(entries) + if e.isNew then [e.fiber] else []
  {
    assert (entries + [e])[..|entries|] == entries;
  }

  lemma {:induction false} TimesAdd(a: seq<Fiber>, b: seq<Fiber>, f: Fiber)
    ensures Times(a + b, f) == Times(a, f) + Times(b, f)
  {
    if a == [] {
      assert a + b == b;
    } else {
      assert (a + b)[1..] == a[1..] + b;
      TimesAdd(a[1..], b, f);
    }
  }

  lemma TimesOfFront(a: seq<Fiber>, f: Fiber)
    requires a != []
    ensures Times(a, f) == Times(a[1..], f) + Times([a[0]], f)
  {
  }

  // ---------------------------------------------------------------- counting

  /** The queue holds the counted entries, the one pushed but not yet counted, and those claimed but not popped. */
  predicate Counted(s: System) {
    && |s.newQueue| == s.count + Uncounted(s.producer) + Claimed(s.consumer)
    && |s.newQueue| <= CAPACITY
    && s.nowSize == |Newcomers(s.log.entered)| + Claimed(s.consumer)
  }

  lemma PopCounts(s: System)
    requires Counted(s) && s.consumer.Popping? && s.consumer.left > 0
    ensures Counted(Pop(s, s.consumer.left, s.consumer.atTop))
  {
    Snoc(s.log.entered, Entry(s.newQueue[0], true));
  }

  lemma ExecutingCounts(s: System, result: Result)
    requires Counted(s) && s.consumer.Executing?
    ensures Counted(ConsumerStep(s, result))
  {
    Snoc(s.log.entered, Entry(s.consumer.fiber, false));
  }

  lemma ApplyCounts(s: System, m: Move)
    requires Counted(s)
    ensures Counted(Apply(s, m))
  {
    if m.Consume? {
      if s.consumer.Executing? {
        ExecutingCounts(s, m.result);
      } else if s.consumer.Popping? && s.consumer.left > 0 {
        PopCounts(s);
      }
    }
  }

  // ---------------------------------------------------------------- order

  /** Entries leave the runable queue in the order they came in, and those from newQueue came in the order they
      were accepted. */
  predicate Ordered(s: System) {
    && Fibers(s.log.entered) == s.log.swapped + s.log.dropped + InHand(s.consumer) + s.runable
    && s.log.accepted == Newcomers(s.log.entered) + s.newQueue
    && (s.log.dropped != [] ==> s.stopping && s.consumer.Ended? && |s.log.dropped| == 1)
  }

  lemma PopKeepsOrder(s: System)
    requires Counted(s) && Ordered(s) && s.consumer.Popping? && s.consumer.left > 0
    ensures Ordered(Pop(s, s.consumer.left, s.consumer.atTop))
  {
    Snoc(s.log.entered, Entry(s.newQueue[0], true));
    assert s.newQueue == [s.newQueue[0]] + s.newQueue[1..];
  }

  lemma ExecutingKeepsOrder(s: System, result: Result)
    requires Ordered(s) && s.consumer.Executing?
    ensures Ordered(ConsumerStep(s, result))
  {
    Snoc(s.log.entered, Entry(s.consumer.fiber, false));
  }

  lemma HandKeepsOrder(s: System, result: Result)
    requires Ordered(s) && (s.consumer.Top? || s.consumer.Holding?)
    ensures Ordered(ConsumerStep(s, result))
  {
    if s.consumer.Top? && s.runable != [] {
      assert s.runable == [s.runable[0]] + s.runable[1..];
    }
  }

  lemma ConsumeKeepsOrder(s: System, result: Result)
    requires Counted(s) && Ordered(s)
    ensures Ordered(ConsumerStep(s, result))
  {
    if s.consumer.Executing? {
      ExecutingKeepsOrder(s, result);
    } else if s.consumer.Popping? && s.consumer.left > 0 {
      PopKeepsOrder(s);
    } else if s.consumer.Top? || s.consumer.Holding? {
      HandKeepsOrder(s, result);
    }
  }

  lemma ApplyKeepsOrder(s: System, m: Move)
    requires Counted(s) && Ordered(s)
    ensures Ordered(Apply(s, m))
  {
    match m
    case Consume(result) => ConsumeKeepsOrder(s, result);
    case _ =>
  }

  // ---------------------------------------------------------------- conservation

  /** Each time a fiber was accepted it is in one place. */
  predicate Conserved(s: System, f: Fiber) {
    Times(s.log.accepted, f) ==
      Times(s.newQueue, f) + Times(s.runable, f) + Times(Busy(s.consumer), f)
      + Times(s.log.blocked, f) + Times(s.log.finished, f) + Times(s.log.dropped, f)
  }

  lemma PopConserves(s: System, f: Fiber)
    requires Conserved(s, f) && s.consumer.Popping? && s.consumer.left > 0
    ensures Conserved(Pop(s, s.consumer.left, s.consumer.atTop), f)
  {
    if s.newQueue != [] {
      TimesOfFront(s.newQueue, f);
      TimesAdd(s.runable, [s.newQueue[0]], f);
    }
  }

  lemma RequeueConserves(s: System, f: Fiber)
    requires Conserved(s, f) && s.consumer.Executing?
    ensures Conserved(Requeue(s, s.consumer.fiber), f)
  {
    TimesAdd(s.runable, [s.consumer.fiber], f);
  }

  lemma LeaveConserves(s: System, f: Fiber)
    requires Conserved(s, f) && s.consumer.Executing?
    ensures Conserved(Leave(s, s.consumer.fiber), f)
  {
    TimesAdd(s.log.blocked, [s.consumer.fiber], f);
  }

  lemma FinishConserves(s: System, threw: bool, f: Fiber)
    requires Conserved(s, f) && s.consumer.Executing?
    ensures Conserved(Finish(s, s.consumer.fiber, threw), f)
  {
    TimesAdd(s.log.finished, [s.consumer.fiber], f);
  }

  lemma NothingMoved(s: System, s': System, f: Fiber)
    requires Conserved(s, f) && s'.newQueue == s.newQueue && s'.runable == s.runable
    requires s'.log.(collected := []) == s.log.(collected := []) && Busy(s'.consumer) == Busy(s.consumer)
    ensures Conserved(s', f)
  {
    assert s'.log.accepted == s.log.(collected := []).accepted;
    assert s'.log.blocked == s.log.(collected := []).blocked;
    assert s'.log.finished == s.log.(collected := []).finished;
    assert s'.log.dropped == s.log.(collected := []).dropped;
  }

  lemma HandConserves(s: System, result: Result, f: Fiber)
    requires Conserved(s, f) && (s.consumer.Top? || s.consumer.Holding?)
    ensures Conserved(ConsumerStep(s, result), f)
  {
    if s.consumer.Holding? {
      TimesAdd(s.log.dropped, [s.consumer.fiber], f);
    } else if s.runable != [] {
      TimesOfFront(s.runable, f);
    }
  }

  lemma ConsumeConserves(s: System, result: Result, f: Fiber)
    requires Conserved(s, f)
    ensures Conserved(ConsumerStep(s, result), f)
  {
    if s.consumer.Executing? {
      match result
      case Runs => RequeueConserves(s, f);
      case Blocks => LeaveConserves(s, f);
      case Finishes => FinishConserves(s, false, f);
      case Throws => FinishConserves(s, true, f);
    } else if s.consumer.Popping? && s.consumer.left > 0 {
      PopConserves(s, f);
    } else if s.consumer.Top? || s.consumer.Holding? {
      HandConserves(s, result, f);
    } else {
      QuietStep(s, result);
      NothingMoved(s, ConsumerStep(s, result), f);
    }
  }

  /** The steps that only look, claim or reclaim move no fiber between places. */
  lemma QuietStep(s: System, result: Result)
    requires !s.consumer.Executing? && !s.consumer.Top? && !s.consumer.Holding?
    requires s.consumer.Popping? ==> s.consumer.left == 0
    ensures var s' := ConsumerStep(s, result);
      && s'.newQueue == s.newQueue && s'.runable == s.runable
      && s'.log.(collected := []) == s.log.(collected := []) && Busy(s'.consumer) == Busy(s.consumer)
  {
  }

  lemma ApplyConserves(s: System, m: Move, f: Fiber)
    requires Conserved(s, f)
    ensures Conserved(Apply(s, m), f)
  {
    match m
    case Produce =>
      if s.producer.Pushing? {
        TimesAdd(s.newQueue, [s.producer.fiber], f);
        TimesAdd(s.log.accepted, [s.producer.fiber], f);
      }
    case Consume(result) => ConsumeConserves(s, result, f);
    case _ =>
  }

  // ---------------------------------------------------------------- reclaiming

  /** Finished fibers wait in gcQueue, at most 33 of them, and are destroyed once, in the order they finished. */
  predicate Reclaimed(s: System) {
    && s.log.finished == s.log.collected + s.gcQueue
    && |s.gcQueue| <= GC_LIMIT + 1
    && s.fiberCount <= |s.log.finished|
    && (!s.consumer.Ended? ==> s.fiberCount == |s.log.finished|)
  }

  lemma ApplyReclaims(s: System, m: Move)
    requires Reclaimed(s)
    ensures Reclaimed(Apply(s, m))
  {
  }

  // ---------------------------------------------------------------- over all runs

  lemma {:induction false} RunKeeps(s: System, moves: seq<Move>)
    requires Counted(s) && Ordered(s) && Reclaimed(s)
    ensures var s' := Run(s, moves); Counted(s') && Ordered(s') && Reclaimed(s')
    decreases |moves|
  {
    if moves != [] {
      ApplyCounts(s, moves[0]);
      ApplyKeepsOrder(s, moves[0]);
      ApplyReclaims(s, moves[0]);
      RunKeeps(Apply(s, moves[0]), moves[1..]);
    }
  }

  lemma {:induction false} RunConserves(s: System, moves: seq<Move>, f: Fiber)
    requires Conserved(s, f)
    ensures Conserved(Run(s, moves), f)
    decreases |moves|
  {
    if moves != [] {
      ApplyConserves(s, moves[0], f);
      RunConserves(Apply(s, moves[0]), moves[1..], f);
    }
  }

  lemma KeptFrom(s: System, s': System)
    requires ReachableFrom(s, s') && Counted(s) && Ordered(s) && Reclaimed(s)
    ensures Counted(s') && Ordered(s') && Reclaimed(s')
  {
    var moves :| Run(s, moves) == s';
    RunKeeps(s, moves);
  }

  lemma ConservedFrom(s: System, s': System, f: Fiber)
    requires ReachableFrom(s, s') && Conserved(s, f)
    ensures Conserved(s', f)
  {
    var moves :| Run(s, moves) == s';
    RunConserves(s, moves, f);
  }

  lemma ReachableKeeps(s: System)
    requires Reachable(s)
    ensures Counted(s) && Ordered(s) && Reclaimed(s)
  {
    KeptFrom(Start(), s);
  }

  /** The count is exact in every interleaving, so each pop of a claimed entry finds one. */
  lemma EveryClaimedPopSucceeds(s: System)
    requires Reachable(s)
    ensures
      && |s.newQueue| == s.count + Uncounted(s.producer) + Claimed(s.consumer)
      && (s.consumer.Popping? && s.consumer.left > 0 ==> s.newQueue != [])
      && s.nowSize == |Newcomers(s.log.entered)| + Claimed(s.consumer)
  {
    ReachableKeeps(s);
  }

  /** Fibers are switched to exactly in the order they entered the runable queue; only a stopping scheduler drops
      one, the one in hand. */
  lemma SwappedInEntryOrder(s: System)
    requires Reachable(s)
    ensures
      && Fibers(s.log.entered) == s.log.swapped + s.log.dropped + InHand(s.consumer) + s.runable
      && (!s.stopping ==> Fibers(s.log.entered) == s.log.swapped + InHand(s.consumer) + s.runable)
      && |s.log.dropped| <= 1
  {
    ReachableKeeps(s);
    WithoutDrops(s);
  }

  lemma WithoutDrops(s: System)
    requires Ordered(s)
    ensures !s.stopping ==> Fibers(s.log.entered) == s.log.swapped + InHand(s.consumer) + s.runable
    ensures |s.log.dropped| <= 1
  {
    if s.log.dropped == [] {
      assert s.log.swapped + [] == s.log.swapped;
    }
  }

  /** What has been accepted is, in order, what entered the runable queue for the first time and what still waits
      in newQueue: first turns come in the order of acceptance. */
  lemma FirstTurnsInAcceptedOrder(s: System)
    requires Reachable(s)
    ensures
      && s.log.accepted == Newcomers(s.log.entered) + s.newQueue
      && |s.log.swapped| <= |s.log.entered|
      && Newcomers(s.log.entered[..|s.log.swapped|]) <= s.log.accepted
      && Fibers(s.log.entered[..|s.log.swapped|]) == s.log.swapped
  {
    ReachableKeeps(s);
    FibersLength(s.log.entered);
    PrefixOfEntries(s.log.entered, |s.log.swapped|);
  }

  lemma {:induction false} FibersLength(entries: seq<Entry>)
    ensures |Fibers(entries)| == |entries|
  {
    if entries != [] {
      FibersLength(entries[..|entries| - 1]);
    }
  }

  lemma {:induction false} PrefixOfEntries(entries: seq<Entry>, n: nat)
    requires n <= |entries|
    ensures Newcomers(entries[..n]) <= Newcomers(entries)
    ensures |Fibers(entries)| == |entries| && Fibers(entries[..n]) == Fibers(entries)[..n]
    decreases |entries|
  {
    FibersLength(entries);
    if n < |entries| {
      PrefixOfEntries(entries[..|entries| - 1], n);
      assert entries[..|entries| - 1][..n] == entries[..n];
      FibersLength(entries[..|entries| - 1]);
    } else {
      assert entries[..n] == entries;
    }
  }

  /** Nothing is lost or doubled: each acceptance of a fiber ends in one place. */
  lemma FibersAreConserved(s: System, f: Fiber)
    requires Reachable(s)
    ensures Conserved(s, f)
  {
    ConservedFrom(Start(), s, f);
  }

  lemma FinishedAreReclaimedInOrder(s: System)
    requires Reachable(s)
    ensures
      && |s.gcQueue| <= 33
      && s.log.finished == s.log.collected + s.gcQueue
      && (!s.consumer.Ended? ==> s.fiberCount == |s.log.finished|)
  {
    ReachableKeeps(s);
  }

  // ---------------------------------------------------------------- stopping

  predicate Shut(state: TaskState) {
    state == Stop || state == Done
  }

  lemma ShutStep(s: System, m: Move)
    requires Shut(s.state) && !s.producer.Pushing? && !m.SetState?
    ensures var s' := Apply(s, m);
      Shut(s'.state) && !s'.producer.Pushing? && s'.log.accepted == s.log.accepted
  {
  }

  /** A processer whose state is stop or done accepts no fiber, in any further run, but one already being pushed. */
  lemma {:induction false} ShutAcceptsNothing(s: System, moves: seq<Move>)
    requires Shut(s.state) && !s.producer.Pushing? && forall i | 0 <= i < |moves| :: !moves[i].SetState?
    ensures Run(s, moves).log.accepted == s.log.accepted
    decreases |moves|
  {
    if moves != [] {
      ShutStep(s, moves[0]);
      ShutAcceptsNothing(Apply(s, moves[0]), moves[1..]);
    }
  }

  lemma StoppingStep(s: System, m: Move)
    requires s.stopping
    ensures Apply(s, m).stopping && Apply(s, m).log.swapped == s.log.swapped
  {
  }

  /** A processer that is about to take up a fiber, or has just done so, ends instead. */
  lemma StoppingEnds(s: System, result: Result)
    requires s.stopping && (s.consumer.Top? || s.consumer.Holding?)
    ensures var s' := ConsumerStep(s, result);
      s'.consumer.Ended? && s'.runable == s.runable && s'.log.dropped == s.log.dropped + InHand(s.consumer)
  {
  }

  /** getNewFibers does not come back empty-handed from a lost race: it claims exactly what is counted at the moment of
      its CAS, or reads the count again. */
  lemma ClaimsExactly(s: System, result: Result)
    requires s.consumer.Cas?
    ensures var s' := ConsumerStep(s, result);
      || (s'.consumer == Popping(s.count, s.consumer.atTop) && s'.count == 0 && s.count == s.consumer.size)
      || (s' == s.(consumer := Load(s.consumer.atTop)) && s.count != s.consumer.size)
  {
  }

  /** Once the scheduler is stopping no fiber is switched to any more, whatever is added or still waits. */
  lemma {:induction false} NothingStartsAfterStop(s: System, moves: seq<Move>)
    requires s.stopping
    ensures Run(s, moves).log.swapped == s.log.swapped
    decreases |moves|
  {
    if moves != [] {
      StoppingStep(s, moves[0]);
      NothingStartsAfterStop(Apply(s, moves[0]), moves[1..]);
    }
  }
}
