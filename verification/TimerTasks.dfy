/**
 The timer's ordered set of tasks as a value, and what each locked operation does to it (src/fiber/timer.cc).

 A task is known by its address; `order` is what iterating the std::set yields.  Millisecond arithmetic is
 that of uint64_t.
 */
module TimerTasks {

  type Id = nat

  datatype Callback = Empty | Call(id: nat)

  datatype Task = Task(cb: Callback, ms: nat, next: nat, recurring: bool)

  const MODULUS: nat := 0x1_0000_0000_0000_0000

  /** The timeout returned when there is no task: all bits set. */
  const NEVER: nat := MODULUS - 1

  const HOUR: nat := 60 * 60 * 1000

  /** now + ms in 64 bits. */
  function Deadline(now: nat, ms: nat): nat {
    (now + ms) % MODULUS
  }

  datatype Timer = Timer(tasks: map<Id, Task>, order: seq<Id>, tickled: bool, previous: nat)

  // ---------------------------------------------------------------- the total order and std::set

  /** `Comparator`: by deadline, then by address. */
  predicate KeyLess(next: nat, id: Id, next': nat, id': Id) {
    next < next' || (next == next' && id < id')
  }

  predicate Less(tasks: map<Id, Task>, a: Id, b: Id)
    requires a in tasks && b in tasks
  {
    KeyLess(tasks[a].next, a, tasks[b].next, b)
  }

  ghost predicate Sorted(tasks: map<Id, Task>, order: seq<Id>) {
    && (forall i | 0 <= i < |order| :: order[i] in tasks)
    && (forall i, j | 0 <= i < j < |order| :: Less(tasks, order[i], order[j]))
  }

  /** How many leading elements are less than the key. */
  function LowerBound(tasks: map<Id, Task>, order: seq<Id>, next: nat, id: Id): (n: nat)
    requires forall i | 0 <= i < |order| :: order[i] in tasks
    ensures n <= |order|
  {
    if order == [] || !KeyLess(tasks[order[0]].next, order[0], next, id) then 0
    else 1 + LowerBound(tasks, order[1..], next, id)
  }

  lemma {:induction false} LowerBoundIs(tasks: map<Id, Task>, order: seq<Id>, next: nat, id: Id, n: nat)
    requires n <= |order| && forall i | 0 <= i < |order| :: order[i] in tasks
    requires forall i | 0 <= i < n :: KeyLess(tasks[order[i]].next, order[i], next, id)
    requires n < |order| ==> !KeyLess(tasks[order[n]].next, order[n], next, id)
    ensures LowerBound(tasks, order, next, id) == n
    decreases n
  {
    if n > 0 {
      LowerBoundIs(tasks, order[1..], next, id, n - 1);
    }
  }

  lemma {:induction false} LowerBoundSplits(tasks: map<Id, Task>, order: seq<Id>, next: nat, id: Id)
    requires Sorted(tasks, order)
    ensures var n := LowerBound(tasks, order, next, id);
      && (forall i | 0 <= i < n :: KeyLess(tasks[order[i]].next, order[i], next, id))
      && (forall i | n <= i < |order| :: !KeyLess(tasks[order[i]].next, order[i], next, id))
    decreases |order|
  {
    if order != [] && KeyLess(tasks[order[0]].next, order[0], next, id) {
      LowerBoundSplits(tasks, order[1..], next, id);
    }
  }

  /** Where `insert` puts a task that is not in the set. */
  function Insert(tasks: map<Id, Task>, order: seq<Id>, id: Id): seq<Id>
    requires id in tasks && forall i | 0 <= i < |order| :: order[i] in tasks
  {
    var n := LowerBound(tasks, order, tasks[id].next, id);
    order[..n] + [id] + order[n..]
  }

  function Without(order: seq<Id>, id: Id): seq<Id> {
    if order == [] then [] else if order[0] == id then order[1..] else [order[0]] + Without(order[1..], id)
  }

  lemma InsertKeepsSorted(tasks: map<Id, Task>, order: seq<Id>, id: Id)
    requires Sorted(tasks, order) && id in tasks && id !in order
    ensures var order' := Insert(tasks, order, id);
      && Sorted(tasks, order')
      && (forall x :: x in order' <==> x in order || x == id)
  {
    LowerBoundSplits(tasks, order, tasks[id].next, id);
    var n := LowerBound(tasks, order, tasks[id].next, id);
    var order' := Insert(tasks, order, id);
    forall i, j | 0 <= i < j < |order'| ensures Less(tasks, order'[i], order'[j]) {
      if i < n < j {
        assert order'[i] == order[i] && order'[j] == order[j - 1];
      } else if j == n {
        assert order'[i] == order[i];
      } else if i == n {
        assert order'[j] == order[j - 1] && order[j - 1] != id;
      }
    }
    forall x | x in order || x == id ensures x in order' {
      if x in order {
        var k :| 0 <= k < |order| && order[k] == x;
        assert order'[if k < n then k else k + 1] == x;
      } else {
        assert order'[n] == x;
      }
    }
  }

  lemma {:induction false} WithoutKeepsSorted(tasks: map<Id, Task>, order: seq<Id>, id: Id)
    requires Sorted(tasks, order)
    ensures Sorted(tasks, Without(order, id))
    ensures forall x :: x in Without(order, id) <==> x in order && x != id
    decreases |order|
  {
    if order != [] {
      var rest := order[1..];
      WithoutKeepsSorted(tasks, rest, id);
      assert forall x :: x in order <==> x == order[0] || x in rest;
      if order[0] == id {
        assert id !in rest;
      } else {
        assert forall x | x in Without(rest, id) :: x in rest;
        SortedCons(tasks, order[0], Without(rest, id));
      }
    }
  }

  lemma SortedCons(tasks: map<Id, Task>, first: Id, rest: seq<Id>)
    requires Sorted(tasks, rest) && first in tasks && forall x | x in rest :: x in tasks && Less(tasks, first, x)
    ensures Sorted(tasks, [first] + rest)
  {
    var all := [first] + rest;
    forall i, j | 0 <= i < j < |all| ensures Less(tasks, all[i], all[j]) {
      assert all[j] == rest[j - 1] && rest[j - 1] in rest;
      if i > 0 {
        assert all[i] == rest[i - 1];
      }
    }
  }

  /** Changing the key of a task that is outside the set does not disturb the set. */
  lemma RekeyKeepsSorted(tasks: map<Id, Task>, order: seq<Id>, id: Id, t: Task)
    requires Sorted(tasks, order) && id !in order
    ensures Sorted(tasks[id := t], order)
  {
    forall i | 0 <= i < |order| ensures order[i] in tasks && order[i] != id {
      assert order[i] in order;
    }
  }

  /** Changing anything but the key leaves the set sorted, even for a member. */
  lemma SameKeyKeepsSorted(tasks: map<Id, Task>, order: seq<Id>, id: Id, t: Task)
    requires Sorted(tasks, order) && id in tasks && t.next == tasks[id].next
    ensures Sorted(tasks[id := t], order)
  {
  }

  // ---------------------------------------------------------------- what every operation keeps

  /** The set is strictly sorted, holds every task whose callback is set, and holds no task without a callback
      other than those in `hollow`, which were created without one. */
  ghost predicate Valid(t: Timer, hollow: set<Id>) {
    && Sorted(t.tasks, t.order)
    && (forall id | id in t.tasks && t.tasks[id].cb.Call? :: id in t.order)
    && (forall id | id in t.order && t.tasks[id].cb.Empty? :: id in hollow)
    && hollow <= t.tasks.Keys
  }

  // ---------------------------------------------------------------- operations

  datatype Added = Added(timer: Timer, notify: bool)

  /** `addTimerTask`: insert, and ask for a notification if the task is now the first and none is under way. */
  function Add(t: Timer, id: Id): Added
    requires id in t.tasks && forall i | 0 <= i < |t.order| :: t.order[i] in t.tasks
  {
    var order := Insert(t.tasks, t.order, id);
    var isFront := order[0] == id && !t.tickled;
    Added(t.(order := order, tickled := t.tickled || isFront), isFront)
  }

  function Create(t: Timer, id: Id, cb: Callback, ms: nat, recurring: bool, now: nat): Added
    requires forall i | 0 <= i < |t.order| :: t.order[i] in t.tasks
  {
    Add(t.(tasks := t.tasks[id := Task(cb, ms, Deadline(now, ms), recurring)]), id)
  }

  datatype Outcome = Outcome(timer: Timer, ok: bool)

  function Cancel(t: Timer, id: Id): Outcome
    requires id in t.tasks
  {
    if t.tasks[id].cb.Empty? then Outcome(t, false)
    else Outcome(t.(tasks := t.tasks[id := t.tasks[id].(cb := Empty)], order := Without(t.order, id)), true)
  }

  function Refresh(t: Timer, id: Id, now: nat): Outcome
    requires id in t.tasks && forall i | 0 <= i < |t.order| :: t.order[i] in t.tasks
  {
    if t.tasks[id].cb.Empty? || id !in t.order then Outcome(t, false)
    else
      var order := Without(t.order, id);
      WithoutIsSubset(t.order, id);
      var tasks := t.tasks[id := t.tasks[id].(next := Deadline(now, t.tasks[id].ms))];
      Outcome(t.(tasks := tasks, order := Insert(tasks, order, id)), true)
  }

  lemma {:induction false} WithoutIsSubset(order: seq<Id>, id: Id)
    ensures forall i | 0 <= i < |Without(order, id)| :: Without(order, id)[i] in order
    decreases |order|
  {
    if order != [] {
      WithoutIsSubset(order[1..], id);
    }
  }

  datatype ResetOutcome = ResetOutcome(timer: Timer, ok: bool, notify: bool)

  /** The new deadline: from now, or from where the old period started as far as the new period can tell. */
  function ResetDeadline(task: Task, ms: nat, fromNow: bool, now: nat): nat {
    var start := if fromNow then now else (task.next - ms) % MODULUS;
    Deadline(start, ms)
  }

  function Reset(t: Timer, id: Id, ms: nat, fromNow: bool, now: nat): ResetOutcome
    requires id in t.tasks && forall i | 0 <= i < |t.order| :: t.order[i] in t.tasks
  {
    if ms == t.tasks[id].ms && !fromNow then ResetOutcome(t, true, false)
    else if t.tasks[id].cb.Empty? || id !in t.order then ResetOutcome(t, false, false)
    else
      var order := Without(t.order, id);
      WithoutIsSubset(t.order, id);
      var task := t.tasks[id].(ms := ms, next := ResetDeadline(t.tasks[id], ms, fromNow, now));
      var added := Add(t.(tasks := t.tasks[id := task], order := order), id);
      ResetOutcome(added.timer, true, added.notify)
  }

  datatype Timeout = Timeout(timer: Timer, ms: nat)

  function NextTimeout(t: Timer, now: nat): Timeout
    requires forall i | 0 <= i < |t.order| :: t.order[i] in t.tasks
  {
    var t' := t.(tickled := false);
    if t.order == [] then Timeout(t', NEVER)
    else
      var next := t.tasks[t.order[0]].next;
      Timeout(t', if now >= next then 0 else next - now)
  }

  /** `detectClockRollover`, with the subtraction done in 64 bits. */
  predicate Rollover(now: nat, previous: nat) {
    now < previous && now < (previous - HOUR) % MODULUS
  }

  /** Elements from position n on whose deadline is exactly `now`. */
  function SkipDue(tasks: map<Id, Task>, order: seq<Id>, n: nat, now: nat): (m: nat)
    requires n <= |order| && forall i | 0 <= i < |order| :: order[i] in tasks
    ensures n <= m <= |order|
    decreases |order| - n
  {
    if n < |order| && tasks[order[n]].next == now then SkipDue(tasks, order, n + 1, now) else n
  }

  datatype Fired = Fired(tasks: map<Id, Task>, order: seq<Id>, cbs: seq<Callback>)

  /** Run through the expired tasks: collect each callback, put a recurring task back, retire a one-shot. */
  function FireAll(tasks: map<Id, Task>, order: seq<Id>, expired: seq<Id>, now: nat): (f: Fired)
    requires forall i | 0 <= i < |order| :: order[i] in tasks
    requires forall i | 0 <= i < |expired| :: expired[i] in tasks
    ensures f.tasks.Keys == tasks.Keys
    ensures forall i | 0 <= i < |f.order| :: f.order[i] in f.tasks
    decreases |expired|
  {
    if expired == [] then Fired(tasks, order, [])
    else
      var before := FireAll(tasks, order, expired[..|expired| - 1], now);
      var id := expired[|expired| - 1];
      var task := before.tasks[id];
      var cbs := before.cbs + [task.cb];
      if task.recurring then
        var tasks' := before.tasks[id := task.(next := Deadline(now, task.ms))];
        assert tasks'.Keys == tasks.Keys;
        Fired(tasks', Insert(tasks', before.order, id), cbs)
      else
        assert before.tasks[id := task.(cb := Empty)].Keys == tasks.Keys;
        Fired(before.tasks[id := task.(cb := Empty)], before.order, cbs)
  }

  /** The tasks a collection takes out: `now` is read first, `later` when the probe task (address `probe`) is built. */
  function Expired(t: Timer, now: nat, later: nat, probe: Id): (expired: seq<Id>)
    requires forall i | 0 <= i < |t.order| :: t.order[i] in t.tasks
    ensures expired <= t.order
  {
    if t.order == [] then []
    else if Rollover(now, t.previous) then t.order
    else if t.tasks[t.order[0]].next > now then []
    else t.order[..SkipDue(t.tasks, t.order, LowerBound(t.tasks, t.order, Deadline(later, 0), probe), now)]
  }

  datatype Collected = Collected(timer: Timer, cbs: seq<Callback>)

  /** `getExecuteTask`. */
  function Collect(t: Timer, now: nat, later: nat, probe: Id): Collected
    requires forall i | 0 <= i < |t.order| :: t.order[i] in t.tasks
  {
    if t.order == [] then Collected(t, [])
    else
      var expired := Expired(t, now, later, probe);
      assert forall i | 0 <= i < |expired| :: expired[i] == t.order[i];
      var f := FireAll(t.tasks, t.order[|expired|..], expired, now);
      Collected(t.(previous := now, tasks := f.tasks, order := f.order), f.cbs)
  }

  // ---------------------------------------------------------------- every operation keeps Valid

  /** A new task goes in under its own key; only a task created without a callback joins `hollow`. */
  lemma CreateKeepsValid(t: Timer, hollow: set<Id>, id: Id, cb: Callback, ms: nat, recurring: bool, now: nat)
    requires Valid(t, hollow) && id !in t.tasks
    ensures Valid(Create(t, id, cb, ms, recurring, now).timer, if cb.Empty? then hollow + {id} else hollow)
    ensures id in Create(t, id, cb, ms, recurring, now).timer.order
  {
    var task := Task(cb, ms, Deadline(now, ms), recurring);
    assert id !in t.order;
    RekeyKeepsSorted(t.tasks, t.order, id, task);
    InsertKeepsSorted(t.tasks[id := task], t.order, id);
  }

  lemma CancelKeepsValid(t: Timer, hollow: set<Id>, id: Id)
    requires Valid(t, hollow) && id in t.tasks
    ensures Valid(Cancel(t, id).timer, hollow)
    ensures Cancel(t, id).ok ==> id in t.order && id !in Cancel(t, id).timer.order
  {
    if t.tasks[id].cb.Call? {
      WithoutKeepsSorted(t.tasks, t.order, id);
      SameKeyKeepsSorted(t.tasks, Without(t.order, id), id, t.tasks[id].(cb := Empty));
    }
  }

  lemma RekeyedMember(t: Timer, hollow: set<Id>, id: Id, task: Task)
    requires Valid(t, hollow) && id in t.order && id in t.tasks && task.cb == t.tasks[id].cb
    ensures var tasks := t.tasks[id := task];
      var order := Without(t.order, id);
      Sorted(tasks, order) && id !in order && Valid(t.(tasks := tasks, order := Insert(tasks, order, id)), hollow)
      && forall x :: x in Insert(tasks, order, id) <==> x in t.order
  {
    WithoutKeepsSorted(t.tasks, t.order, id);
    RekeyKeepsSorted(t.tasks, Without(t.order, id), id, task);
    InsertKeepsSorted(t.tasks[id := task], Without(t.order, id), id);
  }

  lemma RefreshKeepsValid(t: Timer, hollow: set<Id>, id: Id, now: nat)
    requires Valid(t, hollow) && id in t.tasks
    ensures Valid(Refresh(t, id, now).timer, hollow)
  {
    if Refresh(t, id, now).ok {
      RekeyedMember(t, hollow, id, t.tasks[id].(next := Deadline(now, t.tasks[id].ms)));
    }
  }

  lemma RefreshKeepsMembers(t: Timer, hollow: set<Id>, id: Id, now: nat)
    requires Valid(t, hollow) && id in t.tasks
    ensures forall x :: x in Refresh(t, id, now).timer.order <==> x in t.order
  {
    if Refresh(t, id, now).ok {
      RekeyedMember(t, hollow, id, t.tasks[id].(next := Deadline(now, t.tasks[id].ms)));
    }
  }

  lemma ResetKeepsValid(t: Timer, hollow: set<Id>, id: Id, ms: nat, fromNow: bool, now: nat)
    requires Valid(t, hollow) && id in t.tasks
    ensures Valid(Reset(t, id, ms, fromNow, now).timer, hollow)
  {
    if !(ms == t.tasks[id].ms && !fromNow) && t.tasks[id].cb.Call? && id in t.order {
      RekeyedMember(t, hollow, id, t.tasks[id].(ms := ms, next := ResetDeadline(t.tasks[id], ms, fromNow, now)));
    }
  }

  lemma ResetKeepsMembers(t: Timer, hollow: set<Id>, id: Id, ms: nat, fromNow: bool, now: nat)
    requires Valid(t, hollow) && id in t.tasks
    ensures forall x :: x in Reset(t, id, ms, fromNow, now).timer.order <==> x in t.order
  {
    if !(ms == t.tasks[id].ms && !fromNow) && t.tasks[id].cb.Call? && id in t.order {
      RekeyedMember(t, hollow, id, t.tasks[id].(ms := ms, next := ResetDeadline(t.tasks[id], ms, fromNow, now)));
    }
  }

  /** `reset(ms, false)` changes the period and leaves the deadline where it was: subtracting the new period and
      adding it again cancel, in 64 bits too. */
  lemma ResetNotFromNowKeepsDeadline(task: Task, ms: nat, now: nat)
    requires task.next < MODULUS
    ensures ResetDeadline(task, ms, false, now) == task.next
  {
    var start := (task.next - ms) % MODULUS;
    var k := (task.next - ms) / MODULUS;
    assert start + ms == task.next - k * MODULUS;
    ModAbsorbs(task.next, -k);
  }

  lemma ModAbsorbs(x: int, k: int)
    requires 0 <= x < MODULUS
    ensures (x + k * MODULUS) % MODULUS == x
  {
  }

  // ---------------------------------------------------------------- getExecuteTask

  /** What firing a batch does to each task and to the set. */
  lemma {:induction false} FireAllSpec(tasks: map<Id, Task>, order: seq<Id>, expired: seq<Id>, now: nat)
    requires Sorted(tasks, order) && forall i | 0 <= i < |expired| :: expired[i] in tasks && expired[i] !in order
    requires forall i, j | 0 <= i < j < |expired| :: expired[i] != expired[j]
    ensures var f := FireAll(tasks, order, expired, now);
      && |f.cbs| == |expired| && (forall i | 0 <= i < |expired| :: f.cbs[i] == tasks[expired[i]].cb)
      && Sorted(f.tasks, f.order)
      && (forall id | id in tasks :: f.tasks[id] == After(tasks[id], id in expired, now))
      && (forall id :: id in f.order <==> id in order || (id in expired && tasks[id].recurring))
    decreases |expired|
  {
    if expired != [] {
      var front, id := expired[..|expired| - 1], expired[|expired| - 1];
      FireAllSpec(tasks, order, front, now);
      assert forall x :: x in expired <==> x in front || x == id;
      assert id !in front;
      var before := FireAll(tasks, order, front, now);
      var task := before.tasks[id];
      if task.recurring {
        RekeyKeepsSorted(before.tasks, before.order, id, task.(next := Deadline(now, task.ms)));
        InsertKeepsSorted(before.tasks[id := task.(next := Deadline(now, task.ms))], before.order, id);
      } else {
        RekeyKeepsSorted(before.tasks, before.order, id, task.(cb := Empty));
      }
    }
  }

  function After(task: Task, fired: bool, now: nat): Task {
    if !fired then task
    else if task.recurring then task.(next := Deadline(now, task.ms))
    else task.(cb := Empty)
  }

  lemma SortedTail(tasks: map<Id, Task>, order: seq<Id>, n: nat)
    requires Sorted(tasks, order) && n <= |order|
    ensures Sorted(tasks, order[n..])
    ensures forall i | 0 <= i < n :: order[i] !in order[n..]
    ensures forall i, j | 0 <= i < j < n :: order[i] != order[j]
    ensures forall x :: x in order <==> x in order[..n] || x in order[n..]
  {
  }

  /** What becomes of every task when a collection takes out the ones in `Expired`. */
  lemma CollectSpec(t: Timer, hollow: set<Id>, now: nat, later: nat, probe: Id)
    requires Valid(t, hollow)
    ensures var c := Collect(t, now, later, probe);
      var expired := Expired(t, now, later, probe);
      && |c.cbs| == |expired|
      && (forall i | 0 <= i < |expired| :: expired[i] in t.tasks && c.cbs[i] == t.tasks[expired[i]].cb)
      && c.timer.tasks.Keys == t.tasks.Keys
      && (forall id | id in t.tasks :: c.timer.tasks[id] == After(t.tasks[id], id in expired, now))
      && (forall id :: id in c.timer.order <==> id in t.order && (id in expired ==> t.tasks[id].recurring))
    ensures Valid(Collect(t, now, later, probe).timer, hollow)
  {
    if t.order != [] {
      var expired := Expired(t, now, later, probe);
      var n := |expired|;
      assert expired == t.order[..n];
      SortedTail(t.tasks, t.order, n);
      FireAllSpec(t.tasks, t.order[n..], expired, now);
    }
  }

  lemma CollectKeepsValid(t: Timer, hollow: set<Id>, now: nat, later: nat, probe: Id)
    requires Valid(t, hollow)
    ensures Valid(Collect(t, now, later, probe).timer, hollow)
  {
    CollectSpec(t, hollow, now, later, probe);
  }

  /** Strictly sorted order lists deadlines in order. */
  lemma SortedByDeadline(tasks: map<Id, Task>, order: seq<Id>)
    requires Sorted(tasks, order)
    ensures forall i, j | 0 <= i <= j < |order| :: tasks[order[i]].next <= tasks[order[j]].next
  {
    forall i, j | 0 <= i <= j < |order| ensures tasks[order[i]].next <= tasks[order[j]].next {
      if i < j {
        assert Less(tasks, order[i], order[j]);
      }
    }
  }

  lemma {:induction false} SkipDueSpec(tasks: map<Id, Task>, order: seq<Id>, n: nat, now: nat)
    requires n <= |order| && forall i | 0 <= i < |order| :: order[i] in tasks
    ensures var m := SkipDue(tasks, order, n, now);
      && (forall i | n <= i < m :: tasks[order[i]].next == now)
      && (m < |order| ==> tasks[order[m]].next != now)
    decreases |order| - n
  {
    if n < |order| && tasks[order[n]].next == now {
      SkipDueSpec(tasks, order, n + 1, now);
    }
  }

  /** With the clock not stepping back between the two readings, the prefix taken out holds every task due at
      the first and no task that is not due at the second. */
  lemma PrefixIsTheDue(tasks: map<Id, Task>, order: seq<Id>, now: nat, later: nat, probe: Id)
    requires Sorted(tasks, order) && now <= later
    ensures var m := SkipDue(tasks, order, LowerBound(tasks, order, later, probe), now);
      && (forall i | 0 <= i < m :: tasks[order[i]].next <= later)
      && (forall i | m <= i < |order| :: tasks[order[i]].next > now)
  {
    SortedByDeadline(tasks, order);
    LowerBoundSplits(tasks, order, later, probe);
    var n := LowerBound(tasks, order, later, probe);
    SkipDueSpec(tasks, order, n, now);
    var m := SkipDue(tasks, order, n, now);
    forall i | m <= i < |order| ensures tasks[order[i]].next > now {
      assert tasks[order[m]].next <= tasks[order[i]].next;
      assert !KeyLess(tasks[order[m]].next, order[m], later, probe);
    }
  }

  /** Without a rollover and with the first task due: a non-empty prefix is taken out, cut where the deadlines say. */
  lemma ExpiredIsPrefix(t: Timer, now: nat, later: nat, probe: Id) returns (n: nat)
    requires Sorted(t.tasks, t.order) && now <= later < MODULUS && !Rollover(now, t.previous)
    requires t.order != [] && t.tasks[t.order[0]].next <= now
    ensures 0 < n <= |t.order| && Expired(t, now, later, probe) == t.order[..n]
    ensures forall i | 0 <= i < n :: t.tasks[t.order[i]].next <= later
    ensures forall i | n <= i < |t.order| :: t.tasks[t.order[i]].next > now
  {
    assert Deadline(later, 0) == later;
    PrefixIsTheDue(t.tasks, t.order, now, later, probe);
    n := SkipDue(t.tasks, t.order, LowerBound(t.tasks, t.order, later, probe), now);
  }

  /** Without a rollover: if the first task is due, every task due at `now` fires and no task that is not due at
      `later` does; otherwise nothing fires.  They fire in the order of their deadlines. */
  lemma CollectFiresTheDue(t: Timer, hollow: set<Id>, now: nat, later: nat, probe: Id)
    requires Valid(t, hollow) && now <= later < MODULUS && !Rollover(now, t.previous)
    ensures var expired := Expired(t, now, later, probe);
      && (forall i | 0 <= i < |t.order| && t.tasks[t.order[i]].next <= now :: t.order[i] in expired)
      && (forall i | 0 <= i < |expired| :: expired[i] in t.tasks && t.tasks[expired[i]].next <= later)
      && (forall i, j | 0 <= i <= j < |expired| :: t.tasks[expired[i]].next <= t.tasks[expired[j]].next)
      && (expired == [] <==> forall i | 0 <= i < |t.order| :: t.tasks[t.order[i]].next > now)
  {
    SortedByDeadline(t.tasks, t.order);
    var expired := Expired(t, now, later, probe);
    if t.order != [] && t.tasks[t.order[0]].next <= now {
      var n := ExpiredIsPrefix(t, now, later, probe);
      forall i | 0 <= i < |t.order| && t.tasks[t.order[i]].next <= now ensures t.order[i] in expired {
        assert expired[i] == t.order[i];
      }
    }
  }

  /** Where deadlines are equal, tasks fire in the order of their addresses, and none fires twice in a batch. */
  lemma EqualDeadlinesFireByAddress(t: Timer, hollow: set<Id>, now: nat, later: nat, probe: Id)
    requires Valid(t, hollow)
    ensures var expired := Expired(t, now, later, probe);
      forall i, j | 0 <= i < j < |expired| && expired[i] in t.tasks && expired[j] in t.tasks
        && t.tasks[expired[i]].next == t.tasks[expired[j]].next :: expired[i] < expired[j]
  {
    var expired := Expired(t, now, later, probe);
    assert expired == t.order[..|expired|];
  }

  /** On a rollover every task fires. */
  lemma CollectOnRollover(t: Timer, hollow: set<Id>, now: nat, later: nat, probe: Id)
    requires Valid(t, hollow) && t.order != [] && Rollover(now, t.previous)
    ensures Expired(t, now, later, probe) == t.order
    ensures forall id :: id in Collect(t, now, later, probe).timer.order <==> id in t.order && t.tasks[id].recurring
  {
    CollectSpec(t, hollow, now, later, probe);
  }

  /** When a rollover is seen.  In the first hour after the epoch the 64-bit subtraction wraps, so any backward
      step counts. */
  lemma RolloverIff(now: nat, previous: nat)
    requires previous < MODULUS
    ensures Rollover(now, previous) <==> now < previous && (previous < 3_600_000 || now < previous - 3_600_000)
  {
    if previous < HOUR {
      ModAbsorbs(previous - HOUR + MODULUS, -1);
    }
  }
}
