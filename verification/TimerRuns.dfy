/**
 Whole runs of the timer beside the poller thread (src/fiber/timer.cc, src/fiber/poller.cc:214-331).

 A move is one critical section, one clock change, one pending notification being written to the pipe, or one
 step of the poller's loop; moves interleave in any order.
 */
module TimerRuns {
  import opened TimerEffects
  import opened TimerTasks

  /** `Sleeping` remembers when the poll wait is planned to end, counted from the clock reading it was computed
      from, and whether that reading left any time at all. */
  datatype Poller = Polling | Sleeping(wake: nat, planned: bool) | Collecting | Draining

  /** `owed` counts threads that have unlocked but not yet written to the pipe; `fired` and `cancelled` are the
      tasks handed out by getExecuteTask and the tasks whose cancel returned true, in order. */
  datatype System = System(
    timer: Timer, hollow: set<Id>, clock: nat, owed: nat, pipe: nat, poller: Poller,
    fired: seq<Id>, cancelled: seq<Id>)

  datatype Move =
    | SetClock(to: nat)
    | CreateTask(id: Id, cb: Callback, ms: nat, recurring: bool, now: nat)
    | CancelTask(id: Id)
    | RefreshTask(id: Id)
    | ResetTask(id: Id, ms: nat, fromNow: bool)
    | Notify
    | Poll
    | Interrupt
    | Return
    | CollectDue(now: nat, later: nat, probe: Id)
    | Drain
    | SkipDrain

  const MAX_TIMEOUT: nat := 3000

  function Start(now: nat): System {
    System(Timer(map[], [], false, now), {}, now, 0, 0, Polling, [], [])
  }

  ghost predicate Good(s: System) {
    && Valid(s.timer, s.hollow)
    && forall i | 0 <= i < |s.timer.order| :: s.timer.order[i] in s.timer.tasks
  }

  function Apply(s: System, m: Move): System
    requires forall i | 0 <= i < |s.timer.order| :: s.timer.order[i] in s.timer.tasks
  {
    match m
    case SetClock(to) => s.(clock := to)
    case CreateTask(id, cb, ms, recurring, now) =>
      if id in s.timer.tasks then s
      else
        var a := Create(s.timer, id, cb, ms, recurring, now);
        s.(timer := a.timer, owed := s.owed + (if a.notify then 1 else 0),
           hollow := if cb.Empty? then s.hollow + {id} else s.hollow)
    case CancelTask(id) =>
      if id !in s.timer.tasks then s
      else
        var o := Cancel(s.timer, id);
        s.(timer := o.timer, cancelled := if o.ok then s.cancelled + [id] else s.cancelled)
    case RefreshTask(id) =>
      if id !in s.timer.tasks then s else s.(timer := Refresh(s.timer, id, s.clock).timer)
    case ResetTask(id, ms, fromNow) =>
      if id !in s.timer.tasks then s
      else
        var o := Reset(s.timer, id, ms, fromNow, s.clock);
        s.(timer := o.timer, owed := s.owed + (if o.notify then 1 else 0))
    case Notify => if s.owed == 0 then s else s.(owed := s.owed - 1, pipe := s.pipe + 1)
    case Poll =>
      if !s.poller.Polling? then s
      else
        var t := NextTimeout(s.timer, s.clock);
        var capped := if t.ms > MAX_TIMEOUT then MAX_TIMEOUT else t.ms;
        var wait := if capped == 0 then MAX_TIMEOUT else capped;
        s.(timer := t.timer, poller := Sleeping(s.clock + wait, t.ms != 0))
    case Interrupt => if s.poller.Sleeping? then s.(poller := Polling) else s
    case Return => if s.poller.Sleeping? then s.(poller := Collecting) else s
    case CollectDue(now, later, probe) =>
      if !s.poller.Collecting? then s
      else s.(timer := Collect(s.timer, now, later, probe).timer, poller := Draining,
              fired := s.fired + Expired(s.timer, now, later, probe))
    case Drain => if s.poller.Draining? then s.(pipe := 0, poller := Polling) else s
    case SkipDrain => if s.poller.Draining? then s.(poller := Polling) else s
  }

  lemma ApplyKeepsGood(s: System, m: Move)
    requires Good(s)
    ensures Good(Apply(s, m))
  {
    match m
    case CreateTask(id, cb, ms, recurring, now) =>
      if id !in s.timer.tasks { CreateKeepsValid(s.timer, s.hollow, id, cb, ms, recurring, now); }
    case CancelTask(id) => if id in s.timer.tasks { CancelKeepsValid(s.timer, s.hollow, id); }
    case RefreshTask(id) => if id in s.timer.tasks { RefreshKeepsValid(s.timer, s.hollow, id, s.clock); }
    case ResetTask(id, ms, fromNow) =>
      if id in s.timer.tasks { ResetKeepsValid(s.timer, s.hollow, id, ms, fromNow, s.clock); }
    case CollectDue(now, later, probe) => CollectKeepsValid(s.timer, s.hollow, now, later, probe);
    case _ =>
  }

  /** The state after a list of moves. */
  ghost function Run(s: System, moves: seq<Move>): (s': System)
    requires Good(s)
    ensures Good(s')
    decreases |moves|
  {
    if moves == [] then s
    else
      ApplyKeepsGood(s, moves[0]);
      Run(Apply(s, moves[0]), moves[1..])
  }

  // ---------------------------------------------------------------- conservation of one-shot tasks

  function Pending(t: Timer, id: Id): nat {
    if id in t.order then 1 else 0
  }

  /** Every one-shot task has fired once, or been cancelled once, or is still waiting; never two of these. */
  ghost predicate Conserved(s: System) {
    && (forall id | id in s.timer.tasks && !s.timer.tasks[id].recurring ::
          multiset(s.fired)[id] + multiset(s.cancelled)[id] + Pending(s.timer, id) == 1)
    && (forall id | id in s.fired :: id in s.timer.tasks)
    && (forall id | id in s.cancelled :: id in s.timer.tasks)
  }

  lemma MembersCount(a: seq<Id>, b: seq<Id>, id: Id)
    ensures multiset(a + b)[id] == multiset(a)[id] + multiset(b)[id]
    ensures multiset(a)[id] > 0 <==> id in a
  {
  }

  lemma DistinctCount(a: seq<Id>, id: Id)
    requires forall i, j | 0 <= i < j < |a| :: a[i] != a[j]
    ensures multiset(a)[id] == if id in a then 1 else 0
    decreases |a|
  {
    if a != [] {
      assert a == [a[0]] + a[1..];
      DistinctCount(a[1..], id);
      MembersCount([a[0]], a[1..], id);
    }
  }

  lemma CreateMembers(s: System, m: Move)
    requires Good(s) && m.CreateTask? && m.id !in s.timer.tasks
    ensures var s' := Apply(s, m);
      && s'.fired == s.fired && s'.cancelled == s.cancelled
      && s'.timer.tasks == s.timer.tasks[m.id := Task(m.cb, m.ms, Deadline(m.now, m.ms), m.recurring)]
      && forall id :: id in s'.timer.order <==> id in s.timer.order || id == m.id
  {
    var task := Task(m.cb, m.ms, Deadline(m.now, m.ms), m.recurring);
    RekeyKeepsSorted(s.timer.tasks, s.timer.order, m.id, task);
    InsertKeepsSorted(s.timer.tasks[m.id := task], s.timer.order, m.id);
  }

  lemma CreateConserves(s: System, m: Move)
    requires Good(s) && Conserved(s) && m.CreateTask? && m.id !in s.timer.tasks
    ensures Conserved(Apply(s, m))
  {
    CreateMembers(s, m);
    MembersCount(s.fired, [], m.id);
    MembersCount(s.cancelled, [], m.id);
  }

  lemma CancelConserves(s: System, m: Move)
    requires Good(s) && Conserved(s) && m.CancelTask? && m.id in s.timer.tasks
    ensures Conserved(Apply(s, m))
  {
    var s' := Apply(s, m);
    var id := m.id;
    if s.timer.tasks[id].cb.Call? {
      WithoutKeepsSorted(s.timer.tasks, s.timer.order, id);
      forall x | x in s'.timer.tasks && !s'.timer.tasks[x].recurring
        ensures multiset(s'.fired)[x] + multiset(s'.cancelled)[x] + Pending(s'.timer, x) == 1
      {
        MembersCount(s.cancelled, [id], x);
        assert multiset([id])[x] == if x == id then 1 else 0;
      }
    }
  }

  lemma CollectConserves(s: System, m: Move)
    requires Good(s) && Conserved(s) && m.CollectDue? && s.poller.Collecting?
    ensures Conserved(Apply(s, m))
  {
    var s' := Apply(s, m);
    var expired := Expired(s.timer, m.now, m.later, m.probe);
    CollectSpec(s.timer, s.hollow, m.now, m.later, m.probe);
    forall x | x in s'.timer.tasks && !s'.timer.tasks[x].recurring
      ensures multiset(s'.fired)[x] + multiset(s'.cancelled)[x] + Pending(s'.timer, x) == 1
    {
      FiredOnce(s.timer.tasks, s.timer.order, s.fired, expired, x);
    }
    forall x | x in s'.fired ensures x in s'.timer.tasks {
      assert x in s.fired || x in expired;
    }
  }

  /** A batch taken off the front of the set adds one firing of each task in it, and of no other. */
  lemma FiredOnce(tasks: map<Id, Task>, order: seq<Id>, fired: seq<Id>, batch: seq<Id>, x: Id)
    requires Sorted(tasks, order) && batch <= order
    ensures multiset(fired + batch)[x] == multiset(fired)[x] + if x in batch then 1 else 0
    ensures x in batch ==> x in order
  {
    SortedTail(tasks, order, |batch|);
    MembersCount(fired, batch, x);
    DistinctCount(batch, x);
  }

  lemma RefreshConserves(s: System, m: Move)
    requires Good(s) && Conserved(s) && m.RefreshTask? && m.id in s.timer.tasks
    ensures Conserved(Apply(s, m))
  {
    RefreshKeepsMembers(s.timer, s.hollow, m.id, s.clock);
  }

  lemma ResetConserves(s: System, m: Move)
    requires Good(s) && Conserved(s) && m.ResetTask? && m.id in s.timer.tasks
    ensures Conserved(Apply(s, m))
  {
    ResetKeepsMembers(s.timer, s.hollow, m.id, m.ms, m.fromNow, s.clock);
  }

  lemma ApplyConserves(s: System, m: Move)
    requires Good(s) && Conserved(s)
    ensures Conserved(Apply(s, m))
  {
    match m
    case CreateTask(id, cb, ms, recurring, now) => if id !in s.timer.tasks { CreateConserves(s, m); }
    case CancelTask(id) => if id in s.timer.tasks { CancelConserves(s, m); }
    case RefreshTask(id) => if id in s.timer.tasks { RefreshConserves(s, m); }
    case ResetTask(id, ms, fromNow) => if id in s.timer.tasks { ResetConserves(s, m); }
    case CollectDue(now, later, probe) => if s.poller.Collecting? { CollectConserves(s, m); }
    case _ =>
  }

  lemma {:induction false} RunConserves(s: System, moves: seq<Move>)
    requires Good(s) && Conserved(s)
    ensures Conserved(Run(s, moves))
    decreases |moves|
  {
    if moves != [] {
      ApplyKeepsGood(s, moves[0]);
      ApplyConserves(s, moves[0]);
      RunConserves(Apply(s, moves[0]), moves[1..]);
    }
  }

  /** Times fired + successful cancels + (1 if still waiting) = 1 for every one-shot task, in every run, whatever
      the clock does. */
  lemma OneShotsAreConserved(now: nat, moves: seq<Move>, id: Id)
    ensures var s := Run(Start(now), moves);
      id in s.timer.tasks && !s.timer.tasks[id].recurring ==>
        multiset(s.fired)[id] + multiset(s.cancelled)[id] + Pending(s.timer, id) == 1
  {
    RunConserves(Start(now), moves);
  }

  // ---------------------------------------------------------------- deadlines are kept

  /** The task is to fire at d. */
  ghost predicate Waits(s: System, id: Id, d: nat) {
    && id in s.timer.tasks && id in s.timer.order
    && s.timer.tasks[id].cb.Call? && s.timer.tasks[id].next == d
  }

  /** The move is no operation on this task, and no collection that reaches d or sees the clock roll over. */
  predicate LeavesAlone(s: System, m: Move, id: Id, d: nat) {
    match m
    case CancelTask(x) => x != id
    case RefreshTask(x) => x != id
    case ResetTask(x, _, _) => x != id
    case CollectDue(now, later, _) =>
      s.poller.Collecting? ==> now <= later < MODULUS && later < d && !Rollover(now, s.timer.previous)
    case _ => true
  }

  ghost predicate AllLeaveAlone(s: System, moves: seq<Move>, id: Id, d: nat)
    requires Good(s)
    decreases |moves|
  {
    moves == [] || (
      LeavesAlone(s, moves[0], id, d) &&
      (ApplyKeepsGood(s, moves[0]); AllLeaveAlone(Apply(s, moves[0]), moves[1..], id, d)))
  }

  /** createTimer, refresh and reset from now make a task due its period after the clock reading. */
  lemma OperationsSetDeadlines(s: System, m: Move)
    requires Good(s)
    ensures m.CreateTask? && m.id !in s.timer.tasks && m.cb.Call? && m.now + m.ms < MODULUS ==>
              Waits(Apply(s, m), m.id, m.now + m.ms)
    ensures m.RefreshTask? && m.id in s.timer.tasks && s.timer.tasks[m.id].cb.Call?
            && s.clock + s.timer.tasks[m.id].ms < MODULUS ==>
              Waits(Apply(s, m), m.id, s.clock + s.timer.tasks[m.id].ms)
    ensures m.ResetTask? && m.id in s.timer.tasks && s.timer.tasks[m.id].cb.Call? && m.fromNow
            && s.timer.tasks[m.id].next < MODULUS && s.clock + m.ms < MODULUS ==>
              Waits(Apply(s, m), m.id, s.clock + m.ms)
  {
    match m
    case CreateTask(id, cb, ms, recurring, now) =>
      if id !in s.timer.tasks { CreateSets(s.timer, s.hollow, id, cb, ms, recurring, now); }
    case RefreshTask(id) => if id in s.timer.tasks { RefreshSets(s.timer, s.hollow, id, s.clock); }
    case ResetTask(id, ms, fromNow) =>
      if id in s.timer.tasks && s.timer.tasks[id].cb.Call? && s.timer.tasks[id].next < MODULUS && fromNow {
        ResetSets(s.timer, s.hollow, id, ms, fromNow, s.clock);
      }
    case _ =>
  }

  lemma OthersOperationsKeep(s: System, m: Move, id: Id, d: nat)
    requires Good(s) && Waits(s, id, d) && LeavesAlone(s, m, id, d) && !m.CollectDue?
    ensures Waits(Apply(s, m), id, d) && Apply(s, m).fired == s.fired
  {
    match m
    case CreateTask(x, cb, ms, recurring, now) =>
      if x !in s.timer.tasks { CreateSets(s.timer, s.hollow, x, cb, ms, recurring, now); }
    case CancelTask(x) => if x in s.timer.tasks { CancelDoes(s.timer, s.hollow, x); }
    case RefreshTask(x) => if x in s.timer.tasks { RefreshSets(s.timer, s.hollow, x, s.clock); }
    case ResetTask(x, ms, fromNow) => if x in s.timer.tasks { ResetKeepsOthers(s, x, ms, fromNow); }
    case _ =>
  }

  lemma ResetKeepsOthers(s: System, x: Id, ms: nat, fromNow: bool)
    requires Good(s) && x in s.timer.tasks
    ensures OthersKept(s.timer, Reset(s.timer, x, ms, fromNow, s.clock).timer, x)
  {
    if !(ms == s.timer.tasks[x].ms && !fromNow) && s.timer.tasks[x].cb.Call? {
      var before := s.timer.tasks[x];
      RekeyKeepsOthers(s.timer, s.hollow, x, before.(ms := ms, next := ResetDeadline(before, ms, fromNow, s.clock)));
    }
  }

  /** What a collection does to one task. */
  lemma CollectOne(t: Timer, hollow: set<Id>, now: nat, later: nat, probe: Id, id: Id)
    requires Valid(t, hollow) && id in t.tasks
    ensures var t', taken := Collect(t, now, later, probe).timer, id in Expired(t, now, later, probe);
      && id in t'.tasks && t'.tasks[id] == After(t.tasks[id], taken, now)
      && (id in t'.order <==> id in t.order && (taken ==> t.tasks[id].recurring))
  {
    CollectSpec(t, hollow, now, later, probe);
  }

  /** A collection that does not reach d does not take the task. */
  lemma EarlyCollectionKeeps(s: System, m: Move, id: Id, d: nat)
    requires Good(s) && Waits(s, id, d) && LeavesAlone(s, m, id, d) && m.CollectDue? && s.poller.Collecting?
    ensures Waits(Apply(s, m), id, d) && multiset(Apply(s, m).fired)[id] == multiset(s.fired)[id]
  {
    CollectOne(s.timer, s.hollow, m.now, m.later, m.probe, id);
    CollectFiresTheDue(s.timer, s.hollow, m.now, m.later, m.probe);
    var expired := Expired(s.timer, m.now, m.later, m.probe);
    forall i | 0 <= i < |expired| ensures expired[i] != id {
      assert s.timer.tasks[expired[i]].next <= m.later;
    }
    FiredOnce(s.timer.tasks, s.timer.order, s.fired, expired, id);
  }

  /** Never early: until a collection reaches its deadline or the clock rolls over, a task that nobody cancels,
      refreshes or resets keeps its deadline and is not handed out, whatever else happens. */
  lemma {:induction false} NeverFiresEarly(s: System, moves: seq<Move>, id: Id, d: nat)
    requires Good(s) && Waits(s, id, d) && AllLeaveAlone(s, moves, id, d)
    ensures Waits(Run(s, moves), id, d)
    ensures multiset(Run(s, moves).fired)[id] == multiset(s.fired)[id]
    decreases |moves|
  {
    if moves != [] {
      var m := moves[0];
      ApplyKeepsGood(s, m);
      if !m.CollectDue? {
        OthersOperationsKeep(s, m, id, d);
      } else if s.poller.Collecting? {
        EarlyCollectionKeeps(s, m, id, d);
      }
      NeverFiresEarly(Apply(s, m), moves[1..], id, d);
    }
  }

  /** Never missed: the first collection whose clock reading has reached the deadline hands the task out, once; a
      one-shot is then done, and a recurring task is due its period later. */
  lemma FiresWhenDue(s: System, m: Move, id: Id, d: nat)
    requires Good(s) && Waits(s, id, d) && m.CollectDue? && s.poller.Collecting?
    requires d <= m.now <= m.later < MODULUS && !Rollover(m.now, s.timer.previous)
    ensures var s', task := Apply(s, m), s.timer.tasks[id];
      && multiset(s'.fired)[id] == multiset(s.fired)[id] + 1
      && id in s'.timer.tasks
      && (!task.recurring ==> s'.timer.tasks[id].cb.Empty? && id !in s'.timer.order)
      && (task.recurring && m.now + task.ms < MODULUS ==> Waits(s', id, m.now + task.ms))
  {
    var expired := Expired(s.timer, m.now, m.later, m.probe);
    DueIsTaken(s.timer, s.hollow, id, m.now, m.later, m.probe);
    CollectOne(s.timer, s.hollow, m.now, m.later, m.probe, id);
    FiredOnce(s.timer.tasks, s.timer.order, s.fired, expired, id);
    AfterFiring(s.timer.tasks[id], m.now);
  }

  lemma DueIsTaken(t: Timer, hollow: set<Id>, id: Id, now: nat, later: nat, probe: Id)
    requires Valid(t, hollow) && id in t.order && id in t.tasks && t.tasks[id].next <= now <= later < MODULUS
    requires !Rollover(now, t.previous)
    ensures id in Expired(t, now, later, probe)
  {
    CollectFiresTheDue(t, hollow, now, later, probe);
    var i :| 0 <= i < |t.order| && t.order[i] == id;
  }

  lemma AfterFiring(task: Task, now: nat)
    ensures !task.recurring ==> After(task, true, now) == task.(cb := Empty)
    ensures task.recurring && now + task.ms < MODULUS ==> After(task, true, now) == task.(next := now + task.ms)
  {
    DueAfter(now, task.ms);
  }

  // ---------------------------------------------------------------- after a cancel

  /** The task has no callback and is not in the set. */
  ghost predicate Retired(s: System, id: Id) {
    id in s.timer.tasks && s.timer.tasks[id].cb.Empty? && id !in s.timer.order
  }

  lemma StaysRetired(s: System, m: Move, id: Id)
    requires Good(s) && Retired(s, id)
    ensures Retired(Apply(s, m), id) && multiset(Apply(s, m).fired)[id] == multiset(s.fired)[id]
  {
    match m
    case CreateTask(x, cb, ms, recurring, now) =>
      if x !in s.timer.tasks { CreateSets(s.timer, s.hollow, x, cb, ms, recurring, now); }
    case CancelTask(x) => if x in s.timer.tasks { CancelDoes(s.timer, s.hollow, x); }
    case RefreshTask(x) => if x in s.timer.tasks { RefreshSets(s.timer, s.hollow, x, s.clock); }
    case ResetTask(x, ms, fromNow) =>
      if x in s.timer.tasks {
        ResetAnswers(s.timer, s.hollow, x, ms, fromNow, s.clock);
        ResetKeepsOthers(s, x, ms, fromNow);
      }
    case CollectDue(now, later, probe) =>
      if s.poller.Collecting? { CollectLeavesRetired(s, m, id); }
    case _ =>
  }

  lemma CollectLeavesRetired(s: System, m: Move, id: Id)
    requires Good(s) && Retired(s, id) && m.CollectDue? && s.poller.Collecting?
    ensures Retired(Apply(s, m), id) && multiset(Apply(s, m).fired)[id] == multiset(s.fired)[id]
  {
    CollectOne(s.timer, s.hollow, m.now, m.later, m.probe, id);
    FiredOnce(s.timer.tasks, s.timer.order, s.fired, Expired(s.timer, m.now, m.later, m.probe), id);
  }

  lemma {:induction false} RunStaysRetired(s: System, moves: seq<Move>, id: Id)
    requires Good(s) && Retired(s, id)
    ensures Retired(Run(s, moves), id) && multiset(Run(s, moves).fired)[id] == multiset(s.fired)[id]
    decreases |moves|
  {
    if moves != [] {
      ApplyKeepsGood(s, moves[0]);
      StaysRetired(s, moves[0], id);
      RunStaysRetired(Apply(s, moves[0]), moves[1..], id);
    }
  }

  /** A task that a cancel was granted on, one-shot or recurring, never fires again, whatever is done with it. */
  lemma CancelledNeverFires(s: System, id: Id, moves: seq<Move>)
    requires Good(s) && id in s.timer.tasks && s.timer.tasks[id].cb.Call?
    ensures var s' := Apply(s, CancelTask(id));
      && Good(s') && s'.cancelled == s.cancelled + [id] && s'.fired == s.fired
      && multiset(Run(s', moves).fired)[id] == multiset(s.fired)[id]
  {
    ApplyKeepsGood(s, CancelTask(id));
    CancelDoes(s.timer, s.hollow, id);
    RunStaysRetired(Apply(s, CancelTask(id)), moves, id);
  }

  // ---------------------------------------------------------------- how long the poller sleeps

  /** The poller plans to wake at the earliest deadline, but after 3000 ms at the latest; if a task is due already it
      sleeps the 3000 ms.  Going to sleep clears `m_tickled` and changes nothing else. */
  lemma SleepsUntil(s: System)
    requires Good(s) && s.poller.Polling?
    ensures var s' := Apply(s, Poll);
      && s'.poller.Sleeping? && s' == s.(timer := s.timer.(tickled := false), poller := s'.poller)
      && s.clock < s'.poller.wake <= s.clock + 3000
      && (s'.poller.planned <==>
            forall id | id in s.timer.order :: id in s.timer.tasks && s.clock < s.timer.tasks[id].next)
      && (!s'.poller.planned ==> s'.poller.wake == s.clock + 3000)
      && (s'.poller.planned ==>
            && (forall id | id in s.timer.order :: id in s.timer.tasks && s'.poller.wake <= s.timer.tasks[id].next)
            && (s'.poller.wake == s.clock + 3000
                || exists id :: id in s.timer.order && id in s.timer.tasks && s'.poller.wake == s.timer.tasks[id].next))
  {
    TimeoutIs(s.timer, s.hollow, s.clock);
  }

  /** The poller's loop: an interrupted wait is planned anew, a finished one is followed by a collection, and then the
      pipe is emptied if it was seen readable. */
  lemma PollerGoesRound(s: System, m: Move)
    requires Good(s)
    ensures s.poller.Sleeping? && m.Interrupt? ==> Apply(s, m) == s.(poller := Polling)
    ensures s.poller.Sleeping? && m.Return? ==> Apply(s, m) == s.(poller := Collecting)
    ensures s.poller.Collecting? && m.CollectDue? ==>
              var s' := Apply(s, m);
              && s'.poller.Draining? && s.fired <= s'.fired && s'.pipe == s.pipe && s'.owed == s.owed
    ensures s.poller.Draining? && m.Drain? ==> Apply(s, m) == s.(pipe := 0, poller := Polling)
    ensures s.poller.Draining? && m.SkipDrain? ==> Apply(s, m) == s.(poller := Polling)
  {
  }

  // ---------------------------------------------------------------- no wake-up is lost

  /** While the poller sleeps towards a planned wake, any task due before it means that a notification is under
      way: `m_tickled` is set and a byte is in the pipe or about to be written. */
  ghost predicate WakeUpSafe(s: System) {
    s.poller.Sleeping? ==>
      && (s.timer.tickled ==> s.pipe + s.owed > 0)
      && (s.poller.planned ==> DueOnlyIfTickled(s.timer, s.poller.wake))
  }

  ghost predicate DueOnlyIfTickled(t: Timer, wake: nat) {
    forall i | 0 <= i < |t.order| && t.order[i] in t.tasks && t.tasks[t.order[i]].next < wake :: t.tickled
  }

  /** A refresh that does not move its deadline forward to an earlier moment. */
  predicate Careful(s: System, m: Move) {
    m.RefreshTask? && m.id in s.timer.tasks ==>
      Deadline(s.clock, s.timer.tasks[m.id].ms) >= s.timer.tasks[m.id].next
  }

  ghost predicate AllCareful(s: System, moves: seq<Move>)
    requires Good(s)
    decreases |moves|
  {
    moves == [] || (
      Careful(s, moves[0]) &&
      (ApplyKeepsGood(s, moves[0]); AllCareful(Apply(s, moves[0]), moves[1..])))
  }

  /** Inserting through addTimerTask: either the new task is first and sets the flag, or the first one, no later
      than it, had already made sure the flag is set. */
  lemma AddIsSafe(t: Timer, id: Id, wake: nat)
    requires Sorted(t.tasks, t.order) && id in t.tasks && id !in t.order && DueOnlyIfTickled(t, wake)
    ensures DueOnlyIfTickled(Add(t, id).timer, wake)
    ensures Add(t, id).notify <==> Add(t, id).timer.tickled && !t.tickled
  {
    var t' := Add(t, id).timer;
    InsertKeepsSorted(t.tasks, t.order, id);
    SortedByDeadline(t'.tasks, t'.order);
    if i :| 0 <= i < |t'.order| && t'.tasks[t'.order[i]].next < wake {
      var first := t'.order[0];
      assert t'.tasks[first].next < wake;
      if first != id {
        assert first in t'.order;
        assert first in t.order;
      }
    }
  }

  lemma FewerIsSafe(t: Timer, t': Timer, wake: nat)
    requires DueOnlyIfTickled(t, wake) && t'.tickled == t.tickled
    requires forall i | 0 <= i < |t'.order| ::
      t'.order[i] in t.order && t'.order[i] in t.tasks && t'.order[i] in t'.tasks &&
      t'.tasks[t'.order[i]].next >= t.tasks[t'.order[i]].next
    ensures DueOnlyIfTickled(t', wake)
  {
    if i :| 0 <= i < |t'.order| && t'.tasks[t'.order[i]].next < wake {
      var k :| 0 <= k < |t.order| && t.order[k] == t'.order[i];
    }
  }

  lemma CreateIsSafe(s: System, m: Move)
    requires Good(s) && WakeUpSafe(s) && s.poller.Sleeping? && m.CreateTask? && m.id !in s.timer.tasks
    ensures WakeUpSafe(Apply(s, m))
  {
    var task := Task(m.cb, m.ms, Deadline(m.now, m.ms), m.recurring);
    var t := s.timer.(tasks := s.timer.tasks[m.id := task]);
    assert m.id !in s.timer.order;
    RekeyKeepsSorted(s.timer.tasks, s.timer.order, m.id, task);
    if s.poller.planned {
      assert forall i | 0 <= i < |t.order| :: t.order[i] in s.timer.order;
      FewerIsSafe(s.timer, t, s.poller.wake);
      AddIsSafe(t, m.id, s.poller.wake);
    }
  }

  lemma ResetIsSafe(s: System, m: Move)
    requires Good(s) && WakeUpSafe(s) && s.poller.Sleeping? && m.ResetTask? && m.id in s.timer.tasks
    ensures WakeUpSafe(Apply(s, m))
  {
    var id, task0 := m.id, s.timer.tasks[m.id];
    if !(m.ms == task0.ms && !m.fromNow) && task0.cb.Call? && id in s.timer.order {
      var task := task0.(ms := m.ms, next := ResetDeadline(task0, m.ms, m.fromNow, s.clock));
      var t := s.timer.(tasks := s.timer.tasks[id := task], order := Without(s.timer.order, id));
      WithoutKeepsSorted(s.timer.tasks, s.timer.order, id);
      WithoutIsSubset(s.timer.order, id);
      RekeyKeepsSorted(s.timer.tasks, t.order, id, task);
      if s.poller.planned {
        forall i | 0 <= i < |t.order| ensures t.order[i] in s.timer.order && t.order[i] != id {
          assert t.order[i] in t.order;
        }
        FewerIsSafe(s.timer, t, s.poller.wake);
        AddIsSafe(t, id, s.poller.wake);
      }
    }
  }

  lemma RefreshIsSafe(s: System, m: Move)
    requires Good(s) && WakeUpSafe(s) && s.poller.Sleeping? && m.RefreshTask? && m.id in s.timer.tasks
    requires Careful(s, m)
    ensures WakeUpSafe(Apply(s, m))
  {
    RefreshKeepsMembers(s.timer, s.hollow, m.id, s.clock);
    RefreshKeepsValid(s.timer, s.hollow, m.id, s.clock);
    var t' := Apply(s, m).timer;
    if s.poller.planned {
      forall i | 0 <= i < |t'.order| ensures t'.order[i] in s.timer.order {
        assert t'.order[i] in t'.order;
      }
      FewerIsSafe(s.timer, t', s.poller.wake);
    }
  }

  lemma CancelIsSafe(s: System, m: Move)
    requires Good(s) && WakeUpSafe(s) && s.poller.Sleeping? && m.CancelTask? && m.id in s.timer.tasks
    ensures WakeUpSafe(Apply(s, m))
  {
    CancelKeepsValid(s.timer, s.hollow, m.id);
    WithoutIsSubset(s.timer.order, m.id);
    if s.poller.planned {
      FewerIsSafe(s.timer, Apply(s, m).timer, s.poller.wake);
    }
  }

  /** Going to sleep: nothing is due before the planned wake. */
  lemma PollIsSafe(s: System)
    requires Good(s) && s.poller.Polling?
    ensures WakeUpSafe(Apply(s, Poll))
  {
    SortedByDeadline(s.timer.tasks, s.timer.order);
  }

  lemma ApplyIsSafe(s: System, m: Move)
    requires Good(s) && WakeUpSafe(s) && Careful(s, m)
    ensures WakeUpSafe(Apply(s, m))
  {
    if m.Poll? && s.poller.Polling? {
      PollIsSafe(s);
    } else if s.poller.Sleeping? {
      match m
      case CreateTask(id, _, _, _, _) => if id !in s.timer.tasks { CreateIsSafe(s, m); }
      case CancelTask(id) => if id in s.timer.tasks { CancelIsSafe(s, m); }
      case RefreshTask(id) => if id in s.timer.tasks { RefreshIsSafe(s, m); }
      case ResetTask(id, _, _) => if id in s.timer.tasks { ResetIsSafe(s, m); }
      case _ =>
    }
  }

  lemma {:induction false} RunIsSafe(s: System, moves: seq<Move>)
    requires Good(s) && WakeUpSafe(s) && AllCareful(s, moves)
    ensures WakeUpSafe(Run(s, moves))
    decreases |moves|
  {
    if moves != [] {
      ApplyKeepsGood(s, moves[0]);
      ApplyIsSafe(s, moves[0]);
      RunIsSafe(Apply(s, moves[0]), moves[1..]);
    }
  }

  /** No wake-up is lost in any run whose refreshes are careful. */
  lemma NoLostWakeUp(now: nat, moves: seq<Move>)
    requires AllCareful(Start(now), moves)
    ensures WakeUpSafe(Run(Start(now), moves))
  {
    RunIsSafe(Start(now), moves);
  }

  /** Exactly when a refresh is harmless to a sleeping poller: its new deadline is not before the planned wake, or
      a notification is under way anyway. */
  lemma RefreshIsHarmlessIff(s: System, id: Id)
    requires Good(s) && WakeUpSafe(s) && s.poller.Sleeping? && s.poller.planned
    requires id in s.timer.tasks && id in s.timer.order && s.timer.tasks[id].cb.Call?
    ensures WakeUpSafe(Apply(s, RefreshTask(id))) <==>
              Deadline(s.clock, s.timer.tasks[id].ms) >= s.poller.wake || s.timer.tickled
  {
    RefreshKeepsMembers(s.timer, s.hollow, id, s.clock);
    RefreshKeepsValid(s.timer, s.hollow, id, s.clock);
    var t, t' := s.timer, Apply(s, RefreshTask(id)).timer;
    assert id in t'.order;
    var k :| 0 <= k < |t'.order| && t'.order[k] == id;
    if Deadline(s.clock, t.tasks[id].ms) >= s.poller.wake && !t.tickled {
      forall i | 0 <= i < |t'.order|
        ensures t'.order[i] in t'.tasks && t'.tasks[t'.order[i]].next >= s.poller.wake
      {
        assert t'.order[i] in t'.order;
        assert t'.order[i] in t.order;
        var j :| 0 <= j < |t.order| && t.order[j] == t'.order[i];
      }
    }
  }

  /** A refresh that a sleeping poller can do without hearing of: it does nothing, or sets a deadline no earlier than
      the planned wake, or finds a notification under way. */
  predicate Harmless(s: System, m: Move) {
    PlannedRefresh(s, m) ==> Deadline(s.clock, s.timer.tasks[m.id].ms) >= s.poller.wake || s.timer.tickled
  }

  /** A refresh that succeeds while the poller sleeps towards a planned wake. */
  predicate PlannedRefresh(s: System, m: Move) {
    && m.RefreshTask? && s.poller.Sleeping? && s.poller.planned
    && m.id in s.timer.tasks && m.id in s.timer.order && s.timer.tasks[m.id].cb.Call?
  }

  lemma IdleRefreshIsSafe(s: System, m: Move)
    requires Good(s) && WakeUpSafe(s) && m.RefreshTask? && !PlannedRefresh(s, m)
    ensures WakeUpSafe(Apply(s, m))
  {
  }

  lemma ApplyIsSafeIff(s: System, m: Move)
    requires Good(s) && WakeUpSafe(s)
    ensures WakeUpSafe(Apply(s, m)) <==> Harmless(s, m)
  {
    if PlannedRefresh(s, m) {
      RefreshIsHarmlessIff(s, m.id);
    } else if m.RefreshTask? {
      IdleRefreshIsSafe(s, m);
    } else {
      ApplyIsSafe(s, m);
    }
  }

  ghost predicate AllHarmless(s: System, moves: seq<Move>)
    requires Good(s)
    decreases |moves|
  {
    moves == [] || (
      Harmless(s, moves[0]) &&
      (ApplyKeepsGood(s, moves[0]); AllHarmless(Apply(s, moves[0]), moves[1..])))
  }

  /** No moment of the run has lost a wake-up. */
  ghost predicate SafeThroughout(s: System, moves: seq<Move>)
    requires Good(s)
  {
    forall n | 0 <= n <= |moves| :: WakeUpSafe(Run(s, moves[..n]))
  }

  lemma ThroughoutFromNext(s: System, moves: seq<Move>)
    requires Good(s) && moves != [] && Good(Apply(s, moves[0]))
    ensures SafeThroughout(s, moves) <==> WakeUpSafe(s) && SafeThroughout(Apply(s, moves[0]), moves[1..])
  {
    var s', rest := Apply(s, moves[0]), moves[1..];
    assert moves[..0] == [];
    if SafeThroughout(s, moves) {
      forall n | 0 <= n <= |rest| ensures WakeUpSafe(Run(s', rest[..n])) {
        assert moves[..n + 1][1..] == rest[..n];
        assert WakeUpSafe(Run(s, moves[..n + 1]));
      }
    }
    if WakeUpSafe(s) && SafeThroughout(s', rest) {
      forall n | 0 < n <= |moves| ensures WakeUpSafe(Run(s, moves[..n])) {
        assert moves[..n][1..] == rest[..n - 1];
        assert WakeUpSafe(Run(s', rest[..n - 1]));
      }
    }
  }

  lemma {:induction false} SafeThroughoutIff(s: System, moves: seq<Move>)
    requires Good(s) && WakeUpSafe(s)
    ensures SafeThroughout(s, moves) <==> AllHarmless(s, moves)
    decreases |moves|
  {
    if moves == [] {
      assert moves[..0] == [];
    } else {
      var s' := Apply(s, moves[0]);
      ApplyKeepsGood(s, moves[0]);
      ThroughoutFromNext(s, moves);
      ApplyIsSafeIff(s, moves[0]);
      if WakeUpSafe(s') {
        SafeThroughoutIff(s', moves[1..]);
      } else {
        NotSafeAtFirst(s', moves[1..]);
      }
    }
  }

  lemma NotSafeAtFirst(s: System, moves: seq<Move>)
    requires Good(s) && !WakeUpSafe(s)
    ensures !SafeThroughout(s, moves)
  {
    assert moves[..0] == [];
  }

  /** A run never loses a wake-up exactly when each of its refreshes during a planned sleep sets a deadline no earlier
      than the planned wake or finds `m_tickled` set. */
  lemma NoLostWakeUpIff(now: nat, moves: seq<Move>)
    ensures SafeThroughout(Start(now), moves) <==> AllHarmless(Start(now), moves)
  {
    SafeThroughoutIff(Start(now), moves);
  }

  // ---------------------------------------------------------------- runs in which every refresh is careful

  /** The regime the source's own callers keep to: the clock does not step back, readings taken before a lock are
      no later than the clock under it, resets are from now, and no sum reaches 2^64. */
  predicate Regular(s: System, m: Move) {
    match m
    case SetClock(to) => s.clock <= to
    case CreateTask(_, _, ms, _, now) => now <= s.clock && now + ms < MODULUS
    case RefreshTask(id) => id in s.timer.tasks ==> s.clock + s.timer.tasks[id].ms < MODULUS
    case ResetTask(id, ms, fromNow) => fromNow && s.clock + ms < MODULUS
    case CollectDue(now, _, _) =>
      now <= s.clock && forall id | id in s.timer.tasks :: now + s.timer.tasks[id].ms < MODULUS
    case _ => true
  }

  ghost predicate AllRegular(s: System, moves: seq<Move>)
    requires Good(s)
    decreases |moves|
  {
    moves == [] || (
      Regular(s, moves[0]) &&
      (ApplyKeepsGood(s, moves[0]); AllRegular(Apply(s, moves[0]), moves[1..])))
  }

  /** No deadline is further away than its own period. */
  ghost predicate WithinPeriod(s: System) {
    forall id | id in s.timer.tasks :: WithinOwnPeriod(s.timer.tasks[id], s.clock)
  }

  predicate WithinOwnPeriod(task: Task, clock: nat) {
    task.next <= clock + task.ms
  }

  lemma DeadlineIsSum(now: nat, ms: nat)
    requires now + ms < MODULUS
    ensures Deadline(now, ms) == now + ms
  {
  }

  lemma CreatePeriod(s: System, m: Move)
    requires Good(s) && WithinPeriod(s) && Regular(s, m) && m.CreateTask? && m.id !in s.timer.tasks
    ensures WithinPeriod(Apply(s, m))
  {
    DeadlineIsSum(m.now, m.ms);
    var s' := Apply(s, m);
    assert s'.timer.tasks == s.timer.tasks[m.id := Task(m.cb, m.ms, m.now + m.ms, m.recurring)];
  }

  lemma RefreshPeriod(s: System, m: Move)
    requires Good(s) && WithinPeriod(s) && Regular(s, m) && m.RefreshTask? && m.id in s.timer.tasks
    ensures WithinPeriod(Apply(s, m)) && Careful(s, m)
  {
    var task := s.timer.tasks[m.id];
    DeadlineIsSum(s.clock, task.ms);
    var s' := Apply(s, m);
    assert s'.timer.tasks == s.timer.tasks
      || s'.timer.tasks == s.timer.tasks[m.id := task.(next := s.clock + task.ms)];
  }

  lemma ResetPeriod(s: System, m: Move)
    requires Good(s) && WithinPeriod(s) && Regular(s, m) && m.ResetTask? && m.id in s.timer.tasks
    ensures WithinPeriod(Apply(s, m))
  {
    var task := s.timer.tasks[m.id];
    DeadlineIsSum(s.clock, m.ms);
    var s' := Apply(s, m);
    assert s'.timer.tasks == s.timer.tasks
      || s'.timer.tasks == s.timer.tasks[m.id := task.(ms := m.ms, next := s.clock + m.ms)];
  }

  lemma AfterPeriod(task: Task, fired: bool, now: nat, clock: nat)
    requires WithinOwnPeriod(task, clock) && now <= clock && now + task.ms < MODULUS
    ensures WithinOwnPeriod(After(task, fired, now), clock)
  {
    DeadlineIsSum(now, task.ms);
  }

  lemma CollectPeriod(s: System, m: Move)
    requires Good(s) && WithinPeriod(s) && Regular(s, m) && m.CollectDue? && s.poller.Collecting?
    ensures WithinPeriod(Apply(s, m))
  {
    CollectSpec(s.timer, s.hollow, m.now, m.later, m.probe);
    var expired := Expired(s.timer, m.now, m.later, m.probe);
    var s' := Apply(s, m);
    forall id | id in s'.timer.tasks ensures WithinOwnPeriod(s'.timer.tasks[id], s'.clock) {
      AfterPeriod(s.timer.tasks[id], id in expired, m.now, s.clock);
    }
  }

  lemma RegularKeepsPeriod(s: System, m: Move)
    requires Good(s) && WithinPeriod(s) && Regular(s, m)
    ensures WithinPeriod(Apply(s, m)) && Careful(s, m)
  {
    match m
    case CreateTask(id, _, _, _, _) => if id !in s.timer.tasks { CreatePeriod(s, m); }
    case RefreshTask(id) => if id in s.timer.tasks { RefreshPeriod(s, m); }
    case ResetTask(id, _, _) => if id in s.timer.tasks { ResetPeriod(s, m); }
    case CollectDue(_, _, _) => if s.poller.Collecting? { CollectPeriod(s, m); }
    case _ =>
  }

  lemma {:induction false} RegularIsCareful(s: System, moves: seq<Move>)
    requires Good(s) && WithinPeriod(s) && AllRegular(s, moves)
    ensures AllCareful(s, moves)
    decreases |moves|
  {
    if moves != [] {
      ApplyKeepsGood(s, moves[0]);
      RegularKeepsPeriod(s, moves[0]);
      RegularIsCareful(Apply(s, moves[0]), moves[1..]);
    }
  }

  /** With a clock that does not step back and resets that are from now, no wake-up is lost. */
  lemma NoLostWakeUpInRegularRuns(now: nat, moves: seq<Move>)
    requires AllRegular(Start(now), moves)
    ensures WakeUpSafe(Run(Start(now), moves))
  {
    RegularIsCareful(Start(now), moves);
    NoLostWakeUp(now, moves);
  }

  // ---------------------------------------------------------------- a run whose last refresh is not careful

  lemma RunStep(s: System, m: Move, rest: seq<Move>, s': System)
    requires Good(s) && Apply(s, m) == s'
    ensures Good(s') && Run(s, [m] + rest) == Run(s', rest)
  {
    ApplyKeepsGood(s, m);
    assert ([m] + rest)[1..] == rest;
  }

  function Only(task: Task, tickled: bool, previous: nat): Timer {
    Timer(map[0 := task], [0], tickled, previous)
  }

  const LONG_TASK := Task(Call(0), 10000, 15000, false)
  const SHORT_TASK := Task(Call(0), 1, 15000, false)
  const SOON_TASK := Task(Call(0), 1, 5001, false)

  function MoveAt(k: nat): Move {
    if k == 0 then CreateTask(0, Call(0), 10000, false, 5000)
    else if k == 1 then ResetTask(0, 1, false)
    else if k == 2 then Notify
    else if k == 3 then Poll
    else if k == 4 then Return
    else if k == 5 then CollectDue(5000, 5000, 1)
    else if k == 6 then Drain
    else if k == 7 then Poll
    else RefreshTask(0)
  }

  /** The state before move k. */
  function Stage(k: nat): System {
    if k == 0 then Start(5000)
    else if k == 1 then System(Only(LONG_TASK, true, 5000), {}, 5000, 1, 0, Polling, [], [])
    else if k == 2 then System(Only(SHORT_TASK, true, 5000), {}, 5000, 1, 0, Polling, [], [])
    else if k == 3 then System(Only(SHORT_TASK, true, 5000), {}, 5000, 0, 1, Polling, [], [])
    else if k == 4 then System(Only(SHORT_TASK, false, 5000), {}, 5000, 0, 1, Sleeping(8000, true), [], [])
    else if k == 5 then System(Only(SHORT_TASK, false, 5000), {}, 5000, 0, 1, Collecting, [], [])
    else if k == 6 then System(Only(SHORT_TASK, false, 5000), {}, 5000, 0, 1, Draining, [], [])
    else if k == 7 then System(Only(SHORT_TASK, false, 5000), {}, 5000, 0, 0, Polling, [], [])
    else if k == 8 then System(Only(SHORT_TASK, false, 5000), {}, 5000, 0, 0, Sleeping(8000, true), [], [])
    else System(Only(SOON_TASK, false, 5000), {}, 5000, 0, 0, Sleeping(8000, true), [], [])
  }

  lemma EarlyStep(k: nat)
    requires k < 3
    ensures Apply(Stage(k), MoveAt(k)) == Stage(k + 1)
  {
    ShortenedThenRefreshedSteps(LONG_TASK, SHORT_TASK, SOON_TASK);
  }

  lemma MiddleStep(k: nat)
    requires 3 <= k < 6
    ensures Apply(Stage(k), MoveAt(k)) == Stage(k + 1)
  {
    ShortenedThenRefreshedSteps(LONG_TASK, SHORT_TASK, SOON_TASK);
  }

  lemma LateStep(k: nat)
    requires 6 <= k < 8
    ensures Apply(Stage(k), MoveAt(k)) == Stage(k + 1)
  {
    assert Only(SHORT_TASK, false, 5000).order == [0];
  }

  lemma LastStep()
    ensures Apply(Stage(8), MoveAt(8)) == Stage(9)
  {
    ShortenedThenRefreshedSteps(LONG_TASK, SHORT_TASK, SOON_TASK);
    assert MoveAt(8) == RefreshTask(0);
  }

  lemma StageStep(k: nat)
    requires k < 9
    ensures forall i | 0 <= i < |Stage(k).timer.order| :: Stage(k).timer.order[i] in Stage(k).timer.tasks
    ensures Apply(Stage(k), MoveAt(k)) == Stage(k + 1)
  {
    if k < 3 {
      EarlyStep(k);
    } else if k < 6 {
      MiddleStep(k);
    } else if k < 8 {
      LateStep(k);
    } else {
      LastStep();
    }
  }

  lemma {:induction false} RunFromStage(k: nat) returns (moves: seq<Move>)
    requires k <= 9 && Good(Stage(k))
    ensures Run(Stage(k), moves) == Stage(9)
    decreases 9 - k
  {
    if k == 9 {
      moves := [];
    } else {
      StageStep(k);
      ApplyKeepsGood(Stage(k), MoveAt(k));
      var rest := RunFromStage(k + 1);
      moves := [MoveAt(k)] + rest;
      RunStep(Stage(k), MoveAt(k), rest, Stage(k + 1));
    }
  }

  /** A reset that is not from now shortens the period and leaves the deadline; a later refresh then moves the
      deadline before the planned wake and tells nobody.  The poller sleeps 3000 ms over a task due after 1 ms,
      with no byte in the pipe and none on its way. */
  lemma ShortenedThenRefreshedIsMissed()
    ensures exists moves: seq<Move> ::
      var s := Run(Start(5000), moves);
      && s.poller == Sleeping(8000, true) && s.clock == 5000
      && s.timer.order == [0] && 0 in s.timer.tasks && s.timer.tasks[0].next == 5001
      && s.pipe + s.owed == 0 && !WakeUpSafe(s)
  {
    var moves := RunFromStage(0);
    var s := Stage(9);
    assert s.timer.tasks[s.timer.order[0]].next < 8000;
    assert !WakeUpSafe(s);
  }

  lemma ShortenedThenRefreshedSteps(long: Task, short: Task, due: Task)
    requires long == Task(Call(0), 10000, 15000, false) && short == long.(ms := 1) && due == short.(next := 5001)
    ensures Create(Timer(map[], [], false, 5000), 0, Call(0), 10000, false, 5000) == Added(Only(long, true, 5000), true)
    ensures Reset(Only(long, true, 5000), 0, 1, false, 5000) == ResetOutcome(Only(short, true, 5000), true, false)
    ensures Collect(Only(short, false, 5000), 5000, 5000, 1) == Collected(Only(short, false, 5000), [])
    ensures Expired(Only(short, false, 5000), 5000, 5000, 1) == []
    ensures Refresh(Only(short, false, 5000), 0, 5000) == Outcome(Only(due, false, 5000), true)
  {
    assert map[0 := long][0 := short] == map[0 := short];
    assert map[0 := short][0 := due] == map[0 := due];
    assert Without([0], 0) == [];
    ResetNotFromNowKeepsDeadline(long, 1, 5000);
    assert !Rollover(5000, 5000);
  }
}
