/**
 The poller's event registration, on its own objects (src/fiber/poller.cc:26-38, 59-210).

 Indexing the table out of bounds is undefined in the source; a method reports it and changes nothing.
 */
module Pollers {
  import opened EventRegistry

  class FdContext {
    var events: set<Event>
    var readCb: Callback
    var writeCb: Callback

    constructor ()
      ensures Value() == IDLE
    {
      events, readCb, writeCb := {}, NO_CALLBACK, NO_CALLBACK;
    }

    function Value(): Context
      reads this
    {
      Context(events, readCb, writeCb)
    }

    method SetCallback(e: Event, cb: Callback)
      modifies this
      ensures Value() == WithCallback(old(Value()), e, cb)
    {
      match e {
        case Read => readCb := cb;
        case Write => writeCb := cb;
      }
    }
  }

  class Poller {
    var contexts: seq<FdContext>
    var pending: int
    var kernel: map<int, set<Event>>
    var scheduled: seq<Callback>

    ghost predicate Valid()
      reads this
    {
      forall i, j | 0 <= i < j < |contexts| :: contexts[i] != contexts[j]
    }

    ghost function Table(): (t: seq<Context>)
      reads this, contexts
      ensures |t| == |contexts| && forall i | 0 <= i < |t| :: t[i] == contexts[i].Value()
    {
      seq(|contexts|, i requires 0 <= i < |contexts| reads this, contexts => contexts[i].Value())
    }

    ghost function View(): Registry
      reads this, contexts
    {
      Registry(Table(), pending, kernel, scheduled)
    }

    constructor ()
      ensures Valid() && View() == Start().registry
      ensures forall i | 0 <= i < |contexts| :: fresh(contexts[i])
    {
      contexts, pending, kernel, scheduled := [], 0, map[], [];
      new;
      Resize(FIRST_SIZE);
      assert Table() == seq(FIRST_SIZE, _ => IDLE);
    }

    method Resize(size: nat)
      requires Valid() && |contexts| <= size
      modifies this
      ensures Valid() && old(contexts) <= contexts && |contexts| == size
      ensures forall i | |old(contexts)| <= i < size :: fresh(contexts[i]) && contexts[i].Value() == IDLE
      ensures pending == old(pending) && kernel == old(kernel) && scheduled == old(scheduled)
    {
      while |contexts| < size
        invariant Valid() && old(contexts) <= contexts && |contexts| <= size
        invariant forall i | |old(contexts)| <= i < |contexts| :: fresh(contexts[i]) && contexts[i].Value() == IDLE
        invariant pending == old(pending) && kernel == old(kernel) && scheduled == old(scheduled)
        decreases size - |contexts|
      {
        var c := new FdContext();
        contexts := contexts + [c];
      }
    }

    /** epoll_ctl on the poller's epoll set. */
    method EpollCtl(fd: int, op: Op, mask: set<Event>, refusal: Refusal) returns (reply: Reply)
      modifies this`kernel
      ensures Ctl(old(kernel), fd, op, mask, refusal) == Answer(kernel, reply)
    {
      if op.Add? && fd in kernel {
        reply := Denied(EEXIST);
      } else if !op.Add? && fd !in kernel {
        reply := Denied(ENOENT);
      } else if refusal.Refuses? {
        reply := Denied(Other(refusal.code));
      } else {
        kernel := if op.Del? then kernel - {fd} else kernel[fd := mask];
        reply := Granted;
      }
    }

    /** What a change to one context does to the table. */
    twostate lemma OneChanged(fd: nat)
      requires old(Valid()) && fd < |contexts| && contexts == old(contexts)
      requires forall i | 0 <= i < |contexts| && i != fd :: unchanged(contexts[i])
      ensures Table() == old(Table())[fd := contexts[fd].Value()]
    {
    }

    /** The state after a call, given the state before it. */
    twostate predicate Became(expected: Outcome, ok: bool, outOfBounds: bool)
      reads this, contexts
    {
      if outOfBounds then expected == OutOfBounds && View() == old(View()) else expected == Outcome(View(), ok)
    }

    method AddEvent(fd: int, e: Event, cb: Callback, refusal: Refusal) returns (ok: bool, outOfBounds: bool)
      requires Valid()
      modifies this, contexts
      ensures Valid()
      ensures Became(EventRegistry.AddEvent(old(View()), fd, e, cb, refusal), ok, outOfBounds)
    {
      MakeRoom(fd);
      if !(0 <= fd < |contexts|) {
        return false, true;
      }
      ok := AddToSlot(fd, e, cb, refusal);
      outOfBounds := false;
    }

    /** addEvent's first step: a table too small for the fd grows to twice the fd. */
    method MakeRoom(fd: int)
      requires Valid()
      modifies this
      ensures Valid() && View() == old(View()).(table := Grown(old(Table()), fd))
      ensures old(contexts) <= contexts && forall i | |old(contexts)| <= i < |contexts| :: fresh(contexts[i])
    {
      if |contexts| < fd {
        Resize(fd * 2);
      }
      assert Table() == Grown(old(Table()), fd);
    }

    /** The rest of addEvent, under the lock of the fd's context. */
    method AddToSlot(fd: nat, e: Event, cb: Callback, refusal: Refusal) returns (ok: bool)
      requires Valid() && fd < |contexts|
      modifies this, contexts
      ensures Valid() && EventRegistry.AddEvent(old(View()), fd, e, cb, refusal) == Outcome(View(), ok)
    {
      var ctx := contexts[fd];
      var reply := EpollCtl(fd, if ctx.events == {} then Add else Mod, {e} + ctx.events, refusal);
      ok := reply.Granted?;
      if ok {
        pending := pending + 1;
        ctx.events := ctx.events + {e};
        ctx.SetCallback(e, cb);
        OneChanged(fd);
      }
    }

    method DelEvent(fd: int, e: Event, refusal: Refusal) returns (ok: bool, outOfBounds: bool)
      requires Valid()
      modifies this, contexts
      ensures Valid() && contexts == old(contexts)
      ensures Became(EventRegistry.DelEvent(old(View()), fd, e, refusal), ok, outOfBounds)
    {
      if |contexts| < fd {
        return false, false;
      }
      if !(0 <= fd < |contexts|) {
        return false, true;
      }
      var ctx := contexts[fd];
      if e !in ctx.events {
        return false, false;
      }
      var left := ctx.events - {e};
      var reply := EpollCtl(fd, if left == {} then Del else Mod, left, refusal);
      if reply.Denied? && reply.errno != EEXIST {
        return false, false;
      }
      pending := pending - 1;
      ctx.events := left;
      ctx.SetCallback(e, NO_CALLBACK);
      OneChanged(fd);
      return true, false;
    }

    /** `triggerEvent`: disarm, then hand the callback to the scheduler. */
    method TriggerEvent(fd: nat, e: Event)
      requires Valid() && fd < |contexts|
      modifies this, contexts
      ensures contexts == old(contexts) && pending == old(pending) && kernel == old(kernel)
      ensures Table() == old(Table())[fd := Trigger(old(Table())[fd], e)]
      ensures scheduled == old(scheduled) + [CallbackOf(old(Table())[fd], e)]
    {
      var ctx := contexts[fd];
      ctx.events := ctx.events - {e};
      scheduled := scheduled + [if e == Read then ctx.readCb else ctx.writeCb];
      OneChanged(fd);
    }

    method CancelEvent(fd: int, e: Event, refusal: Refusal) returns (ok: bool, outOfBounds: bool)
      requires Valid()
      modifies this, contexts
      ensures Valid() && contexts == old(contexts)
      ensures Became(EventRegistry.CancelEvent(old(View()), fd, e, refusal), ok, outOfBounds)
    {
      if |contexts| < fd {
        return false, false;
      }
      if !(0 <= fd < |contexts|) {
        return false, true;
      }
      if e !in contexts[fd].events {
        return false, false;
      }
      var left := contexts[fd].events - {e};
      var reply := EpollCtl(fd, if left == {} then Del else Mod, left, refusal);
      if reply.Denied? {
        return false, false;
      }
      TriggerEvent(fd, e);
      pending := pending - 1;
      return true, false;
    }

    method CancelAll(fd: int, refusal: Refusal) returns (ok: bool, outOfBounds: bool)
      requires Valid()
      modifies this, contexts
      ensures Valid() && contexts == old(contexts)
      ensures Became(EventRegistry.CancelAll(old(View()), fd, refusal), ok, outOfBounds)
    {
      if |contexts| < fd {
        return false, false;
      }
      if !(0 <= fd < |contexts|) {
        return false, true;
      }
      var reply := EpollCtl(fd, Del, {}, refusal);
      if reply.Denied? {
        return false, false;
      }
      assert Table() == old(Table());
      CancelIfArmed(fd, Read);
      CancelIfArmed(fd, Write);
      return true, false;
    }

    method CancelIfArmed(fd: nat, e: Event)
      requires Valid() && fd < |contexts|
      modifies this, contexts
      ensures Valid() && contexts == old(contexts) && View() == FireIfArmed(old(View()), fd, e)
    {
      if e in contexts[fd].events {
        TriggerEvent(fd, e);
        pending := pending - 1;
      }
    }
  }
}
