/**
 `Timer` and the locked bodies of `TimerTask` as they run (src/fiber/timer.cc): fields updated in place, and
 searches of the set by its comparator.  Each method is one critical section and is proved to do what its
 specification in TimerTasks says.  `notify` is true when the caller goes on to call onTimerInsertedAtFront.
 */
module TimerSets {
  import opened TimerTasks

  class TimerSet {
    var tasks: map<Id, Task>
    var order: seq<Id>
    var tickled: bool
    var previous: nat
    ghost var hollow: set<Id>

    ghost function View(): (t: Timer)
      reads this
    {
      Timer(tasks, order, tickled, previous)
    }

    ghost predicate Good()
      reads this
    {
      Valid(View(), hollow)
    }

    constructor (now: nat)
      ensures Good() && View() == Timer(map[], [], false, now) && hollow == {}
    {
      tasks, order, tickled, previous := map[], [], false, now;
      hollow := {};
    }

    /** `m_tasks.lower_bound` */
    method FirstNotLess(next: nat, id: Id) returns (n: nat)
      requires forall i | 0 <= i < |order| :: order[i] in tasks
      ensures n == LowerBound(tasks, order, next, id)
    {
      n := 0;
      while n < |order| && KeyLess(tasks[order[n]].next, order[n], next, id)
        invariant n <= |order|
        invariant forall i | 0 <= i < n :: KeyLess(tasks[order[i]].next, order[i], next, id)
      {
        n := n + 1;
      }
      LowerBoundIs(tasks, order, next, id, n);
    }

    /** `m_tasks.find`: the position of the equivalent element, or the end. */
    method Find(id: Id) returns (i: nat)
      requires Sorted(tasks, order) && id in tasks
      ensures i <= |order|
      ensures i < |order| ==> order[i] == id
      ensures i == |order| ==> id !in order
    {
      i := FirstNotLess(tasks[id].next, id);
      LowerBoundSplits(tasks, order, tasks[id].next, id);
      if i < |order| && KeyLess(tasks[id].next, id, tasks[order[i]].next, order[i]) {
        forall k | 0 <= k < |order| ensures order[k] != id {
          if k > i {
            assert Less(tasks, order[i], order[k]);
          }
        }
        i := |order|;
      }
    }

    /** `m_tasks.erase(it)`: the iterator must point at an element. */
    method Erase(i: nat)
      requires i < |order| && forall j, k | 0 <= j < k < |order| :: order[j] != order[k]
      modifies this`order
      ensures order == Without(old(order), old(order)[i])
    {
      WithoutIs(order, i);
      order := order[..i] + order[i + 1..];
    }

    /** `m_tasks.insert`, returning whether the element is now the first. */
    method InsertTask(id: Id) returns (first: bool)
      requires id in tasks && forall i | 0 <= i < |order| :: order[i] in tasks
      modifies this`order
      ensures order == Insert(tasks, old(order), id) && first == (order[0] == id)
    {
      var n := FirstNotLess(tasks[id].next, id);
      order := order[..n] + [id] + order[n..];
      first := order[0] == id;
    }

    method AddTimerTask(id: Id) returns (notify: bool)
      requires id in tasks && forall i | 0 <= i < |order| :: order[i] in tasks
      modifies this`order, this`tickled
      ensures Added(View(), notify) == Add(old(View()), id)
    {
      var first := InsertTask(id);
      notify := first && !tickled;
      if notify {
        tickled := true;
      }
    }

    /** `createTimer`; `now` was read when the task was built, before the lock was taken. */
    method CreateTimer(id: Id, cb: Callback, ms: nat, recurring: bool, now: nat) returns (notify: bool)
      requires Good() && id !in tasks
      modifies this
      ensures Good() && hollow == if cb.Empty? then old(hollow) + {id} else old(hollow)
      ensures Added(View(), notify) == Create(old(View()), id, cb, ms, recurring, now)
    {
      CreateKeepsValid(View(), hollow, id, cb, ms, recurring, now);
      tasks := tasks[id := Task(cb, ms, Deadline(now, ms), recurring)];
      if cb.Empty? {
        hollow := hollow + {id};
      }
      notify := AddTimerTask(id);
    }

    method CancelTask(id: Id) returns (ok: bool)
      requires Good() && id in tasks
      modifies this
      ensures Good() && hollow == old(hollow)
      ensures Outcome(View(), ok) == Cancel(old(View()), id)
    {
      CancelKeepsValid(View(), hollow, id);
      if tasks[id].cb.Call? {
        SameKeyKeepsSorted(tasks, order, id, tasks[id].(cb := Empty));
        tasks := tasks[id := tasks[id].(cb := Empty)];
        var it := Find(id);
        Erase(it);
        return true;
      }
      return false;
    }

    method RefreshTask(id: Id, now: nat) returns (ok: bool)
      requires Good() && id in tasks
      modifies this
      ensures Good() && hollow == old(hollow)
      ensures Outcome(View(), ok) == Refresh(old(View()), id, now)
    {
      RefreshKeepsValid(View(), hollow, id, now);
      if tasks[id].cb.Empty? {
        return false;
      }
      ok := EraseTask(id);
      if ok {
        PutBack(id, tasks[id].(next := Deadline(now, tasks[id].ms)));
      }
    }

    /** Give a task that is outside the set a new key and insert it, without notifying anyone. */
    method PutBack(id: Id, task: Task)
      requires id in tasks && forall i | 0 <= i < |order| :: order[i] in tasks
      modifies this`tasks, this`order
      ensures tasks == old(tasks)[id := task] && order == Insert(tasks, old(order), id)
    {
      tasks := tasks[id := task];
      var first := InsertTask(id);
    }

    /** Look the task up and take it out of the set. */
    method EraseTask(id: Id) returns (found: bool)
      requires Sorted(tasks, order) && id in tasks
      modifies this`order
      ensures found == (id in old(order))
      ensures order == if found then Without(old(order), id) else old(order)
      ensures forall i | 0 <= i < |order| :: order[i] in tasks
    {
      var it := Find(id);
      found := it != |order|;
      if found {
        WithoutIsSubset(order, id);
        Erase(it);
      }
    }

    method ResetTask(id: Id, ms: nat, fromNow: bool, now: nat) returns (ok: bool, notify: bool)
      requires Good() && id in tasks
      modifies this
      ensures Good() && hollow == old(hollow)
      ensures ResetOutcome(View(), ok, notify) == Reset(old(View()), id, ms, fromNow, now)
    {
      ResetKeepsValid(View(), hollow, id, ms, fromNow, now);
      if ms == tasks[id].ms && !fromNow {
        return true, false;
      }
      if tasks[id].cb.Empty? {
        return false, false;
      }
      ok := EraseTask(id);
      if !ok {
        return false, false;
      }
      var next := NewDeadline(tasks[id], ms, fromNow, now);
      notify := Reinsert(id, tasks[id].(ms := ms, next := next));
    }

    method NewDeadline(task: Task, ms: nat, fromNow: bool, now: nat) returns (next: nat)
      ensures next == ResetDeadline(task, ms, fromNow, now)
    {
      var start := 0;
      if fromNow {
        start := now;
      } else {
        start := (task.next - ms) % MODULUS;
      }
      next := Deadline(start, ms);
    }

    method Reinsert(id: Id, task: Task) returns (notify: bool)
      requires id in tasks && forall i | 0 <= i < |order| :: order[i] in tasks
      modifies this
      ensures Added(View(), notify) == Add(old(View()).(tasks := old(tasks)[id := task]), id)
      ensures hollow == old(hollow)
    {
      tasks := tasks[id := task];
      notify := AddTimerTask(id);
    }

    method GetNextExecuteTime(now: nat) returns (ms: nat)
      requires Good()
      modifies this`tickled
      ensures Good() && Timeout(View(), ms) == NextTimeout(old(View()), now)
    {
      tickled := false;
      if order == [] {
        return NEVER;
      }
      var next := tasks[order[0]].next;
      if now >= next {
        return 0;
      } else {
        return next - now;
      }
    }

    method DetectClockRollover(now: nat) returns (rollover: bool)
      modifies this`previous
      ensures rollover == Rollover(now, old(previous)) && previous == now
    {
      rollover := false;
      if now < previous && now < (previous - HOUR) % MODULUS {
        rollover := true;
      }
      previous := now;
    }

    method GetExecuteTask(now: nat, later: nat, probe: Id) returns (cbs: seq<Callback>)
      requires Good()
      modifies this
      ensures Good() && hollow == old(hollow)
      ensures Collected(View(), cbs) == Collect(old(View()), now, later, probe)
    {
      CollectKeepsValid(View(), hollow, now, later, probe);
      cbs := [];
      if order == [] {
        return;
      }
      ghost var last := previous;
      var rollover := DetectClockRollover(now);
      if !rollover && tasks[order[0]].next > now {
        assert order[0..] == order;
        return;
      }
      cbs := TakeBatch(rollover, last, now, later, probe);
    }

    /** The rest of getExecuteTask once something is to be fired. */
    method TakeBatch(rollover: bool, ghost last: nat, now: nat, later: nat, probe: Id) returns (cbs: seq<Callback>)
      requires order != [] && forall i | 0 <= i < |order| :: order[i] in tasks
      requires rollover == Rollover(now, last) && (rollover || tasks[order[0]].next <= now)
      modifies this`tasks, this`order
      ensures var expired := Expired(old(View()).(previous := last), now, later, probe);
        && (forall i | 0 <= i < |expired| :: expired[i] in old(tasks))
        && (forall i | 0 <= i < |old(order)[|expired|..]| :: old(order)[|expired|..][i] in old(tasks))
        && Fired(tasks, order, cbs) == FireAll(old(tasks), old(order)[|expired|..], expired, now)
    {
      var it := |order|;
      if !rollover {
        it := FirstNotLess(Deadline(later, 0), probe);
      }
      it := SkipEqual(it, now);
      var expired := order[..it];
      assert expired == Expired(View().(previous := last), now, later, probe);
      order := order[it..];
      cbs := Fire(expired, now);
    }

    /** The loop that extends the batch over tasks due at exactly `now`. */
    method SkipEqual(from: nat, now: nat) returns (it: nat)
      requires from <= |order| && forall i | 0 <= i < |order| :: order[i] in tasks
      ensures it == SkipDue(tasks, order, from, now)
    {
      it := from;
      while it != |order| && tasks[order[it]].next == now
        invariant it <= |order| && SkipDue(tasks, order, it, now) == SkipDue(tasks, order, from, now)
      {
        it := it + 1;
      }
    }

    /** The loop over the expired batch. */
    method Fire(expired: seq<Id>, now: nat) returns (cbs: seq<Callback>)
      requires forall i | 0 <= i < |order| :: order[i] in tasks
      requires forall i | 0 <= i < |expired| :: expired[i] in tasks
      modifies this`tasks, this`order
      ensures Fired(tasks, order, cbs) == FireAll(old(tasks), old(order), expired, now)
    {
      cbs := [];
      var i := 0;
      while i < |expired|
        invariant i <= |expired|
        invariant Fired(tasks, order, cbs) == FireAll(old(tasks), old(order), expired[..i], now)
      {
        var id := expired[i];
        assert expired[..i + 1][..i] == expired[..i];
        cbs := cbs + [tasks[id].cb];
        if tasks[id].recurring {
          tasks := tasks[id := tasks[id].(next := Deadline(now, tasks[id].ms))];
          var first := InsertTask(id);
        } else {
          tasks := tasks[id := tasks[id].(cb := Empty)];
        }
        i := i + 1;
      }
      assert expired[..|expired|] == expired;
    }
  }

  lemma {:induction false} WithoutIs(order: seq<Id>, i: nat)
    requires i < |order| && forall j, k | 0 <= j < k < |order| :: order[j] != order[k]
    ensures Without(order, order[i]) == order[..i] + order[i + 1..]
    decreases i
  {
    if i > 0 {
      WithoutIs(order[1..], i - 1);
      assert order[0] != order[i];
      assert [order[0]] + (order[1..][..i - 1] + order[1..][i..]) == order[..i] + order[i + 1..];
    }
  }
}
