/**
 The processer's queues on its own fields (src/fiber/processer.cc:58-81, 113-210), with nobody interrupting.  Each
 method's effect is stated outright and also shown to be a run of the interleaved system, so what holds in every
 interleaving holds here.

 A fiber's turn is its result; idle's waiting and the notification flag are not part of this model.
 */
module Processers {
  import opened ProcesserSteps

  lemma {:induction false} RunOfBoth(s: System, first: seq<Move>, second: seq<Move>)
    ensures Run(s, first + second) == Run(Run(s, first), second)
    decreases |first|
  {
    if first == [] {
      assert first + second == second;
    } else {
      assert (first + second)[1..] == first[1..] + second;
      RunOfBoth(Apply(s, first[0]), first[1..], second);
    }
  }

  lemma Stays(s: System)
    ensures ReachableFrom(s, s)
  {
    assert Run(s, []) == s;
  }

  /** One more step of a run. */
  lemma Further(s: System, s': System, m: Move, s'': System)
    requires ReachableFrom(s, s') && Apply(s', m) == s''
    ensures ReachableFrom(s, s'')
  {
    var moves :| Run(s, moves) == s';
    RunOfBoth(s, moves, [m]);
    assert Run(s', [m]) == s'' by {
      assert [m][1..] == [];
    }
  }

  lemma Joined(s: System, s': System, s'': System)
    requires ReachableFrom(s, s') && ReachableFrom(s', s'')
    ensures ReachableFrom(s, s'')
  {
    var first :| Run(s, first) == s';
    var second :| Run(s', second) == s'';
    RunOfBoth(s, first, second);
  }

  class Processer {
    var newQueue: seq<Fiber>
    var newfiberCount: nat
    var state: TaskState
    var stopping: bool
    var runableQueue: seq<Fiber>
    var gcQueue: seq<Fiber>
    var nowFiberSize: nat
    var fiberCount: nat
    ghost var log: Log

    /** The state with the two sides at the given places in their code. */
    ghost function At(p: Producer, c: Consumer): System
      reads this
    {
      System(newQueue, newfiberCount, state, stopping, runableQueue, gcQueue, nowFiberSize, fiberCount, p, c, log)
    }

    ghost predicate Valid()
      reads this
    {
      |newQueue| == newfiberCount <= CAPACITY
    }

    constructor ()
      ensures Valid() && At(Ready, Top) == Start()
    {
      newQueue, newfiberCount, state, stopping := [], 0, Running, false;
      runableQueue, gcQueue, nowFiberSize, fiberCount := [], [], 0, 0;
      log := Log([], [], [], [], [], [], []);
    }

    /** `stuck`: the queue is full and addFiber goes on trying to push.  Alone it would do so for ever, each attempt
        leaving everything as it was. */
    method AddFiber(fiber: Fiber) returns (stuck: bool)
      requires Valid()
      modifies this
      ensures Valid() && runableQueue == old(runableQueue) && gcQueue == old(gcQueue) && state == old(state)
      ensures stuck <==> !state.Stop? && !state.Done? && |old(newQueue)| == 128
      ensures newQueue == if state.Stop? || state.Done? || stuck then old(newQueue) else old(newQueue) + [fiber]
      ensures ReachableFrom(old(At(Ready, Top)), At(if stuck then Pushing(fiber) else Ready, Top))
      ensures stuck ==> Apply(At(Pushing(fiber), Top), Produce) == At(Pushing(fiber), Top)
    {
      ghost var s := At(Ready, Top);
      Stays(s);
      stuck := false;
      if state == Stop || state == Done {
        return;
      }
      Further(s, s, Begin(fiber), At(Pushing(fiber), Top));
      ghost var pushing := At(Pushing(fiber), Top);
      if |newQueue| == CAPACITY {
        stuck := true;
        return;
      }
      newQueue := newQueue + [fiber];
      log := log.(accepted := log.accepted + [fiber]);
      Further(s, pushing, Produce, At(Counting, Top));
      ghost var counting := At(Counting, Top);
      newfiberCount := newfiberCount + 1;
      Further(s, counting, Produce, At(Ready, Top));
    }

    /** Everything waiting in newQueue moves, in order, behind what is runable. */
    method GetNewFibers(ghost atTop: bool)
      requires Valid()
      modifies this
      ensures Valid() && newQueue == [] && runableQueue == old(runableQueue) + old(newQueue)
      ensures gcQueue == old(gcQueue) && nowFiberSize == old(nowFiberSize) + |old(newQueue)|
      ensures state == old(state) && stopping == old(stopping) && fiberCount == old(fiberCount)
      ensures log.swapped == old(log.swapped)
      ensures ReachableFrom(old(At(Ready, Load(atTop))), At(Ready, Popping(0, atTop)))
    {
      ghost var s := At(Ready, Load(atTop));
      Stays(s);
      var size := newfiberCount;
      Further(s, s, Consume(Runs), At(Ready, Cas(size, atTop)));
      ghost var cas := At(Ready, Cas(size, atTop));
      newfiberCount := 0;
      nowFiberSize := nowFiberSize + size;
      Further(s, cas, Consume(Runs), At(Ready, Popping(size, atTop)));
      var i := 0;
      while i < size
        invariant 0 <= i <= size && newfiberCount == 0 && newQueue == old(newQueue)[i..]
        invariant runableQueue == old(runableQueue) + old(newQueue)[..i]
        invariant gcQueue == old(gcQueue) && nowFiberSize == old(nowFiberSize) + size
        invariant state == old(state) && stopping == old(stopping) && fiberCount == old(fiberCount)
        invariant log.swapped == old(log.swapped)
        invariant ReachableFrom(s, At(Ready, Popping(size - i, atTop)))
      {
        ghost var before := At(Ready, Popping(size - i, atTop));
        PopOne(size - i, atTop);
        Joined(s, before, At(Ready, Popping(size - i - 1, atTop)));
        i := i + 1;
      }
    }

    /** The body of that loop: a claimed entry is there to be popped. */
    method PopOne(ghost left: nat, ghost atTop: bool)
      requires left > 0 && newQueue != []
      modifies this`newQueue, this`runableQueue, this`log
      ensures newQueue == old(newQueue)[1..] && runableQueue == old(runableQueue) + [old(newQueue)[0]]
      ensures log.swapped == old(log.swapped)
      ensures ReachableFrom(old(At(Ready, Popping(left, atTop))), At(Ready, Popping(left - 1, atTop)))
    {
      ghost var before := At(Ready, Popping(left, atTop));
      Stays(before);
      runableQueue := runableQueue + [newQueue[0]];
      log := log.(entered := log.entered + [Entry(newQueue[0], true)]);
      newQueue := newQueue[1..];
      Further(before, before, Consume(Runs), At(Ready, Popping(left - 1, atTop)));
    }

    method Gc()
      modifies this`gcQueue, this`log
      ensures gcQueue == [] && log == old(log).(collected := old(log).collected + old(gcQueue))
    {
      while gcQueue != []
        invariant log.collected + gcQueue == old(log).collected + old(gcQueue)
        invariant log == old(log).(collected := log.collected)
        decreases |gcQueue|
      {
        log := log.(collected := log.collected + [gcQueue[0]]);
        gcQueue := gcQueue[1..];
      }
    }

    /** With nothing runable: take the newcomers, or go idle and reclaim. */
    method Refill()
      requires Valid() && !stopping && runableQueue == []
      modifies this
      ensures Valid() && newQueue == [] && runableQueue == old(newQueue)
      ensures gcQueue == if old(newQueue) == [] then [] else old(gcQueue)
      ensures log.swapped == old(log.swapped)
      ensures ReachableFrom(old(At(Ready, Top)), At(Ready, Top))
    {
      ghost var s := At(Ready, Top);
      Stays(s);
      Further(s, s, Consume(Runs), At(Ready, Load(true)));
      ghost var load := At(Ready, Load(true));
      GetNewFibers(true);
      ghost var popped := At(Ready, Popping(0, true));
      Joined(s, load, popped);
      if runableQueue == [] {
        Gc();
        Further(s, popped, Consume(Runs), At(Ready, Idling));
        Further(s, At(Ready, Idling), Consume(Runs), At(Ready, Top));
      } else {
        Further(s, popped, Consume(Runs), At(Ready, Top));
      }
    }

    /** The front fiber gets a turn, which ends as `result` says. */
    method Turn(result: Result) returns (threw: bool)
      requires Valid() && !stopping && runableQueue != []
      modifies this
      ensures Valid() && threw == result.Throws?
      ensures log.swapped == old(log.swapped) + [old(runableQueue)[0]]
      ensures var f, rest, many := old(runableQueue)[0], old(runableQueue)[1..], old(newfiberCount) > 32;
        runableQueue == (if !result.Runs? then rest else if many then rest + [f] + old(newQueue) else rest + [f])
      ensures newQueue == if result.Runs? && old(newfiberCount) > 32 then [] else old(newQueue)
      ensures gcQueue ==
        if result.Runs? || result.Blocks? then old(gcQueue)
        else (if |old(gcQueue)| > 32 then [] else old(gcQueue)) + [old(runableQueue)[0]]
      ensures ReachableFrom(old(At(Ready, Top)), At(Ready, if threw then Ended else Top))
    {
      ghost var s := At(Ready, Top);
      Stays(s);
      var fb := TakeTurn();
      threw := false;
      if result.Runs? {
        ghost var executing := At(Ready, Executing(fb));
        runableQueue := runableQueue + [fb];
        log := log.(entered := log.entered + [Entry(fb, false)]);
        Further(s, executing, Consume(result), At(Ready, Glance));
        RefillIfMany(s);
      } else if result.Blocks? {
        ghost var executing := At(Ready, Executing(fb));
        log := log.(blocked := log.blocked + [fb]);
        Further(s, executing, Consume(result), At(Ready, Top));
      } else {
        threw := result.Throws?;
        Retire(s, fb, result);
      }
    }

    method TakeTurn() returns (fb: Fiber)
      requires Valid() && !stopping && runableQueue != []
      modifies this
      ensures fb == old(runableQueue)[0] && runableQueue == old(runableQueue)[1..]
      ensures log == old(log).(swapped := old(log).swapped + [fb])
      ensures At(Ready, Executing(fb)) == old(At(Ready, Executing(fb))).(runable := runableQueue, log := log)
      ensures ReachableFrom(old(At(Ready, Top)), At(Ready, Executing(fb)))
    {
      ghost var s := At(Ready, Top);
      Stays(s);
      fb := runableQueue[0];
      runableQueue := runableQueue[1..];
      Further(s, s, Consume(Runs), At(Ready, Holding(fb)));
      ghost var holding := At(Ready, Holding(fb));
      log := log.(swapped := log.swapped + [fb]);
      Further(s, holding, Consume(Runs), At(Ready, Executing(fb)));
    }

    /** After a turn that leaves its fiber runable: take the newcomers once more than 32 wait. */
    method RefillIfMany(ghost s: System)
      requires Valid() && ReachableFrom(s, At(Ready, Glance))
      modifies this
      ensures Valid() && newQueue == if old(newfiberCount) > 32 then [] else old(newQueue)
      ensures runableQueue == old(runableQueue) + if old(newfiberCount) > 32 then old(newQueue) else []
      ensures gcQueue == old(gcQueue) && log.swapped == old(log.swapped)
      ensures ReachableFrom(s, At(Ready, Top))
    {
      ghost var glance := At(Ready, Glance);
      if newfiberCount > 32 {
        Further(s, glance, Consume(Runs), At(Ready, Load(false)));
        ghost var load := At(Ready, Load(false));
        GetNewFibers(false);
        ghost var popped := At(Ready, Popping(0, false));
        Joined(s, load, popped);
        Further(s, popped, Consume(Runs), At(Ready, Top));
      } else {
        Further(s, glance, Consume(Runs), At(Ready, Top));
      }
    }

    /** A finished fiber waits in gcQueue, which is emptied first when it holds more than 32. */
    method Retire(ghost s: System, fb: Fiber, result: Result)
      requires Valid() && (result.Finishes? || result.Throws?) && ReachableFrom(s, At(Ready, Executing(fb)))
      modifies this
      ensures Valid() && newQueue == old(newQueue) && runableQueue == old(runableQueue)
      ensures gcQueue == (if |old(gcQueue)| > 32 then [] else old(gcQueue)) + [fb] && log.swapped == old(log.swapped)
      ensures fiberCount == old(fiberCount) + if result.Throws? then 0 else 1
      ensures ReachableFrom(s, At(Ready, if result.Throws? then Ended else Top))
    {
      ghost var executing := At(Ready, Executing(fb));
      if |gcQueue| > 32 {
        Gc();
      }
      gcQueue := gcQueue + [fb];
      log := log.(finished := log.finished + [fb]);
      if !result.Throws? {
        fiberCount := fiberCount + 1;
      }
      Further(s, executing, Consume(result), At(Ready, if result.Throws? then Ended else Top));
    }
  }
}
