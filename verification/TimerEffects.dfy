/**
 What each timer operation does, in terms of the tasks alone: which deadline it sets, whom it answers, and that it
 touches nothing else (src/fiber/timer.cc:18-143).
 */
module TimerEffects {
  import opened TimerTasks

  /** Every other task is as it was. */
  ghost predicate OthersKept(t: Timer, t': Timer, id: Id) {
    && (forall x | x in t.tasks && x != id :: x in t'.tasks && t'.tasks[x] == t.tasks[x])
    && (forall x | x in t'.tasks && x != id :: x in t.tasks)
    && (forall x | x != id :: x in t'.order <==> x in t.order)
  }

  /** No other member is due before this one: it is the first to fire. */
  ghost predicate IsFirst(t: Timer, id: Id) {
    id in t.tasks && forall x | x in t.order && x != id && x in t.tasks :: Less(t.tasks, id, x)
  }

  lemma InsertFirstIff(tasks: map<Id, Task>, order: seq<Id>, id: Id)
    requires Sorted(tasks, order) && id in tasks && id !in order
    ensures Insert(tasks, order, id)[0] == id <==> forall x | x in order :: x in tasks && Less(tasks, id, x)
  {
    LowerBoundSplits(tasks, order, tasks[id].next, id);
    var n := LowerBound(tasks, order, tasks[id].next, id);
    if n == 0 {
      forall x | x in order ensures x in tasks && Less(tasks, id, x) {
        var i :| 0 <= i < |order| && order[i] == x;
        assert !KeyLess(tasks[order[i]].next, order[i], tasks[id].next, id);
      }
    } else {
      assert order[0] in order && !Less(tasks, id, order[0]);
      assert Insert(tasks, order, id)[0] == order[0];
    }
  }

  /** addTimerTask notifies exactly if the task is now the first to fire and no notification is under way. */
  lemma AddNotifiesIff(t: Timer, id: Id)
    requires Sorted(t.tasks, t.order) && id in t.tasks && id !in t.order
    ensures var a := Add(t, id);
      && (a.notify <==> !t.tickled && IsFirst(a.timer, id))
      && a.timer.tickled == (t.tickled || a.notify)
      && a.timer.tasks == t.tasks && a.timer.previous == t.previous
      && (forall x :: x in a.timer.order <==> x in t.order || x == id)
  {
    InsertFirstIff(t.tasks, t.order, id);
    InsertKeepsSorted(t.tasks, t.order, id);
  }

  /** createTimer: due ms after the clock reading, a member, first in line or not as the deadlines say. */
  lemma CreateSets(t: Timer, hollow: set<Id>, id: Id, cb: Callback, ms: nat, recurring: bool, now: nat)
    requires Valid(t, hollow) && id !in t.tasks
    ensures var a := Create(t, id, cb, ms, recurring, now);
      && id in a.timer.tasks && id in a.timer.order && OthersKept(t, a.timer, id)
      && a.timer.tasks[id].cb == cb && a.timer.tasks[id].ms == ms && a.timer.tasks[id].recurring == recurring
      && (now + ms < MODULUS ==> a.timer.tasks[id].next == now + ms)
      && (a.notify <==> !t.tickled && IsFirst(a.timer, id))
      && a.timer.tickled == (t.tickled || a.notify) && a.timer.previous == t.previous
  {
    var task := Task(cb, ms, Deadline(now, ms), recurring);
    var with := t.(tasks := t.tasks[id := task]);
    RekeyKeepsSorted(t.tasks, t.order, id, task);
    AddNotifiesIff(with, id);
  }

  /** cancel: refused exactly if the callback is gone; otherwise the callback goes, the task leaves the set, and every
      other task stays where it was.  One-shot or recurring makes no difference. */
  lemma CancelDoes(t: Timer, hollow: set<Id>, id: Id)
    requires Valid(t, hollow) && id in t.tasks
    ensures var o := Cancel(t, id);
      && (o.ok <==> t.tasks[id].cb.Call?)
      && (!o.ok ==> o.timer == t)
      && (o.ok ==>
            && o.timer.tasks[id] == t.tasks[id].(cb := Empty) && id !in o.timer.order && id in t.order
            && OthersKept(t, o.timer, id) && o.timer.order == Without(t.order, id)
            && o.timer.tickled == t.tickled && o.timer.previous == t.previous)
  {
    WithoutKeepsSorted(t.tasks, t.order, id);
  }

  /** Taking a member out, changing it and putting it back touches no other task. */
  lemma RekeyKeepsOthers(t: Timer, hollow: set<Id>, id: Id, task: Task)
    requires Valid(t, hollow) && id in t.order && id in t.tasks && task.cb == t.tasks[id].cb
    ensures var tasks, order := t.tasks[id := task], Without(t.order, id);
      && Sorted(tasks, order) && id !in order
      && OthersKept(t, t.(tasks := tasks, order := Insert(tasks, order, id)), id)
      && id in Insert(tasks, order, id)
  {
    RekeyedMember(t, hollow, id, task);
  }

  /** refresh: refused exactly if the callback is gone; otherwise the task is due its period after the clock reading,
      sooner or later than before, and nothing else changes. */
  lemma RefreshSets(t: Timer, hollow: set<Id>, id: Id, now: nat)
    requires Valid(t, hollow) && id in t.tasks
    ensures var o := Refresh(t, id, now);
      && (o.ok <==> t.tasks[id].cb.Call?)
      && (!o.ok ==> o.timer == t)
      && (o.ok ==>
            && id in o.timer.tasks && id in o.timer.order && OthersKept(t, o.timer, id)
            && o.timer.tasks[id] == t.tasks[id].(next := o.timer.tasks[id].next)
            && (now + t.tasks[id].ms < MODULUS ==> o.timer.tasks[id].next == now + t.tasks[id].ms)
            && o.timer.tickled == t.tickled && o.timer.previous == t.previous)
  {
    if t.tasks[id].cb.Call? {
      var task := t.tasks[id].(next := Deadline(now, t.tasks[id].ms));
      RekeyKeepsOthers(t, hollow, id, task);
      RefreshIs(t, id, now, task);
      DueAfter(now, task.ms);
    }
  }

  lemma RefreshIs(t: Timer, id: Id, now: nat, task: Task)
    requires id in t.tasks && id in t.order && t.tasks[id].cb.Call?
    requires forall i | 0 <= i < |t.order| :: t.order[i] in t.tasks
    requires task == t.tasks[id].(next := Deadline(now, t.tasks[id].ms))
    requires Sorted(t.tasks[id := task], Without(t.order, id))
    ensures var tasks := t.tasks[id := task];
      Refresh(t, id, now) == Outcome(t.(tasks := tasks, order := Insert(tasks, Without(t.order, id), id)), true)
  {
  }

  lemma DueAfter(now: nat, ms: nat)
    ensures now + ms < MODULUS ==> Deadline(now, ms) == now + ms
  {
  }

  /** reset: nothing to do for the old period not from now, and refused exactly if the callback is gone. */
  lemma ResetAnswers(t: Timer, hollow: set<Id>, id: Id, ms: nat, fromNow: bool, now: nat)
    requires Valid(t, hollow) && id in t.tasks
    ensures var o := Reset(t, id, ms, fromNow, now);
      var idle := ms == t.tasks[id].ms && !fromNow;
      && (o.ok <==> idle || t.tasks[id].cb.Call?)
      && (idle || !o.ok ==> o.timer == t && !o.notify)
  {
  }

  /** Otherwise the task takes the new period and is due that long after the clock reading, or, not from now, exactly
      when it was; nothing else changes but the flag, and a notification is asked for exactly if the task is now the
      first to fire and none is under way. */
  lemma ResetSets(t: Timer, hollow: set<Id>, id: Id, ms: nat, fromNow: bool, now: nat)
    requires Valid(t, hollow) && id in t.tasks && t.tasks[id].cb.Call? && t.tasks[id].next < MODULUS
    requires ms != t.tasks[id].ms || fromNow
    ensures var o := Reset(t, id, ms, fromNow, now);
      && id in o.timer.tasks && id in o.timer.order && OthersKept(t, o.timer, id)
      && o.timer.tasks[id] == t.tasks[id].(ms := ms, next := o.timer.tasks[id].next)
      && (fromNow && now + ms < MODULUS ==> o.timer.tasks[id].next == now + ms)
      && (!fromNow ==> o.timer.tasks[id].next == t.tasks[id].next)
      && (o.notify <==> !t.tickled && IsFirst(o.timer, id))
      && o.timer.tickled == (t.tickled || o.notify) && o.timer.previous == t.previous
  {
    var task := t.tasks[id].(ms := ms, next := ResetDeadline(t.tasks[id], ms, fromNow, now));
    var out := t.(tasks := t.tasks[id := task], order := Without(t.order, id));
    RekeyKeepsOthers(t, hollow, id, task);
    AddNotifiesIff(out, id);
    assert Reset(t, id, ms, fromNow, now) == ResetOutcome(Add(out, id).timer, true, Add(out, id).notify);
    ResetDue(t.tasks[id], ms, fromNow, now);
  }

  lemma ResetDue(task: Task, ms: nat, fromNow: bool, now: nat)
    requires task.next < MODULUS
    ensures fromNow && now + ms < MODULUS ==> ResetDeadline(task, ms, fromNow, now) == now + ms
    ensures !fromNow ==> ResetDeadline(task, ms, fromNow, now) == task.next
  {
    ResetNotFromNowKeepsDeadline(task, ms, now);
  }

  /** getNextExecuteTime: the flag is cleared and nothing else changes; the answer is all bits set if there is no task,
      and otherwise how long it is until the earliest deadline, 0 if that has passed. */
  lemma TimeoutIs(t: Timer, hollow: set<Id>, now: nat)
    requires Valid(t, hollow)
    ensures var o := NextTimeout(t, now);
      && o.timer == t.(tickled := false)
      && (t.order == [] ==> o.ms == 0xFFFF_FFFF_FFFF_FFFF)
      && (forall id | id in t.order :: id in t.tasks && (t.tasks[id].next <= now ==> o.ms == 0))
      && (t.order != [] && o.ms > 0 ==>
            && (forall id | id in t.order :: id in t.tasks && now + o.ms <= t.tasks[id].next)
            && (exists id :: id in t.order && id in t.tasks && now + o.ms == t.tasks[id].next))
      && (t.order != [] && o.ms == 0 ==> exists id :: id in t.order && id in t.tasks && t.tasks[id].next <= now)
  {
    SortedByDeadline(t.tasks, t.order);
    if t.order != [] {
      assert t.order[0] in t.order;
      forall id | id in t.order ensures id in t.tasks && t.tasks[t.order[0]].next <= t.tasks[id].next {
        var i :| 0 <= i < |t.order| && t.order[i] == id;
      }
    }
  }

  /** A collection also remembers its clock reading, unless there is no task, and leaves `m_tickled` alone. */
  lemma CollectRemembers(t: Timer, hollow: set<Id>, now: nat, later: nat, probe: Id)
    requires Valid(t, hollow)
    ensures var t' := Collect(t, now, later, probe).timer;
      t'.tickled == t.tickled && t'.previous == if t.order == [] then t.previous else now
  {
  }
}
