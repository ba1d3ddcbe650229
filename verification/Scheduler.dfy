/**
 Placing a fiber on a processer (src/fiber/scheduler.cc:51-99).

 The states of the processers are read once per call.  `id` is the function's static index.
 */
module Schedulers {
  import opened ProcesserSteps
  import IntegerGcd

  datatype Owner = Nobody | Owner(index: nat)

  datatype Placement = Placement(target: nat, id: nat)

  /** The index after `id`, going round. */
  function Next(id: nat, n: nat): (r: nat)
    requires id < n
    ensures r == if id + 1 == n then 0 else id + 1
  {
    (id + 1) % n
  }

  /** The index k places on from `id`. */
  function Around(id: nat, k: nat, n: nat): (r: nat)
    requires id < n
    ensures r < n
    decreases k
  {
    if k == 0 then id else Around(Next(id, n), k - 1, n)
  }

  /** The first of `left` processers from `id` on, going round, that is not blocked; after them all, where the index
      then stands. */
  function FirstOpen(states: seq<TaskState>, id: nat, left: nat): (r: nat)
    requires id < |states|
    ensures r < |states|
    decreases left
  {
    if left == 0 || !states[id].Block? then id else FirstOpen(states, Next(id, |states|), left - 1)
  }

  function FirstIdle(states: seq<TaskState>, k: nat): (r: nat)
    requires k <= |states|
    ensures k <= r <= |states|
    decreases |states| - k
  {
    if k == |states| || states[k].Idle? then k else FirstIdle(states, k + 1)
  }

  predicate OwnerRuns(states: seq<TaskState>, owner: Owner) {
    owner.Owner? && owner.index < |states| && states[owner.index].Running?
  }

  function Place(states: seq<TaskState>, id: nat, owner: Owner): (p: Placement)
    requires id < |states|
    ensures p.target < |states| && p.id < |states|
  {
    if OwnerRuns(states, owner) then Placement(owner.index, id)
    else
      var idle := FirstIdle(states, 0);
      if idle < |states| then Placement(idle, id)
      else
        var target := FirstOpen(states, id, |states|);
        Placement(target, Next(target, |states|))
  }

  // ---------------------------------------------------------------- where a fiber goes

  lemma {:induction false} FirstIdleIs(states: seq<TaskState>, k: nat)
    requires k <= |states|
    ensures var r := FirstIdle(states, k);
      (forall i | k <= i < r :: !states[i].Idle?) && (r < |states| ==> states[r].Idle?)
    decreases |states| - k
  {
    if k < |states| && !states[k].Idle? {
      FirstIdleIs(states, k + 1);
    }
  }

  /** The target is k places on, all those before it are blocked, and it is not, unless all `left` were tried. */
  ghost predicate OpenAfter(states: seq<TaskState>, id: nat, k: nat, left: nat, target: nat)
    requires id < |states|
  {
    && k <= left && target == Around(id, k, |states|)
    && (forall i | 0 <= i < k :: states[Around(id, i, |states|)].Block?)
    && (k < left ==> !states[target].Block?)
  }

  lemma {:induction false} FirstOpenIs(states: seq<TaskState>, id: nat, left: nat) returns (k: nat)
    requires id < |states|
    ensures OpenAfter(states, id, k, left, FirstOpen(states, id, left))
    decreases left
  {
    var n := |states|;
    if left == 0 || !states[id].Block? {
      k := 0;
    } else {
      var next := Next(id, n);
      var k' := FirstOpenIs(states, next, left - 1);
      k := k' + 1;
      forall i | 0 <= i < k ensures states[Around(id, i, n)].Block? {
        if i > 0 {
          assert Around(id, i, n) == Around(next, i - 1, n);
        }
      }
    }
  }

  /** The places, worked out: at most one wrap within n. */
  lemma {:induction false} AroundIs(id: nat, k: nat, n: nat)
    requires id < n && k <= n
    ensures Around(id, k, n) == if id + k < n then id + k else id + k - n
    decreases k
  {
    if k > 0 {
      AroundIs(Next(id, n), k - 1, n);
    }
  }

  /** How far round from id to j. */
  function Distance(id: nat, j: nat, n: nat): (d: nat)
    requires id < n && j < n
    ensures d < n
  {
    if j >= id then j - id else j + n - id
  }

  /** Each fiber goes to one processer: its own if that is running, else the first idle one, else the first that is
      not blocked counting round from `id`, else the one at `id`; only the last two move `id`, to just after the
      target. */
  lemma PlaceIs(states: seq<TaskState>, id: nat, owner: Owner)
    requires id < |states| && (owner.Owner? ==> owner.index < |states|)
    ensures var n, p := |states|, Place(states, id, owner);
      && (owner.Owner? && states[owner.index] == Running ==> p.target == owner.index && p.id == id)
      && (!(owner.Owner? && states[owner.index] == Running) && (exists i :: 0 <= i < n && states[i] == Idle) ==>
            states[p.target] == Idle && p.id == id && forall i | 0 <= i < p.target :: states[i] != Idle)
  {
    FirstIdleIs(states, 0);
  }

  lemma SharedPlaceIs(states: seq<TaskState>, id: nat, owner: Owner)
    requires id < |states| && (owner.Owner? ==> owner.index < |states|)
    requires !(owner.Owner? && states[owner.index] == Running) && forall i | 0 <= i < |states| :: states[i] != Idle
    ensures var n, p := |states|, Place(states, id, owner);
      && p.id == Next(p.target, n)
      && ((forall i | 0 <= i < n :: states[i].Block?) ==> p.target == id)
      && ((exists i :: 0 <= i < n && !states[i].Block?) ==>
            exists k: nat :: k < n && OpenAfter(states, id, k, n, p.target))
  {
    var n := |states|;
    FirstIdleIs(states, 0);
    var k := FirstOpenIs(states, id, n);
    if k == n {
      AroundIs(id, n, n);
      forall j | 0 <= j < n ensures states[j].Block? {
        AroundIs(id, Distance(id, j, n), n);
        assert states[Around(id, Distance(id, j, n), n)].Block?;
      }
    }
  }

  // ---------------------------------------------------------------- fairness

  /** One call: the states it saw, the fiber's owner, and the fiber. */
  datatype Call = Call(states: seq<TaskState>, owner: Owner, fiber: Fiber)

  ghost predicate Busy(calls: seq<Call>, n: nat) {
    forall i | 0 <= i < |calls| ::
      |calls[i].states| == n && forall j | 0 <= j < n :: !calls[i].states[j].Idle? && !calls[i].states[j].Block?
  }

  /** Targets of the calls that are not taken by a running owner. */
  function Shared(calls: seq<Call>, id: nat, n: nat): seq<nat>
    requires id < n && forall i | 0 <= i < |calls| :: |calls[i].states| == n
    decreases |calls|
  {
    if calls == [] then []
    else
      var p := Place(calls[0].states, id, calls[0].owner);
      var rest := Shared(calls[1..], p.id, n);
      if OwnerRuns(calls[0].states, calls[0].owner) then rest else [p.target] + rest
  }

  function Hits(targets: seq<nat>, j: nat): nat {
    if targets == [] then 0 else (if targets[0] == j then 1 else 0) + Hits(targets[1..], j)
  }

  /** With nobody idle or blocked the shared fibers go round from `id`. */
  lemma {:induction false} SharedGoesRound(calls: seq<Call>, id: nat, n: nat)
    requires id < n && Busy(calls, n)
    ensures var targets := Shared(calls, id, n);
      forall k | 0 <= k < |targets| :: targets[k] == Around(id, k, n)
    decreases |calls|
  {
    if calls != [] {
      var call := calls[0];
      var p := Place(call.states, id, call.owner);
      SharedGoesRound(calls[1..], p.id, n);
      if !OwnerRuns(call.states, call.owner) {
        FirstIdleIs(call.states, 0);
        assert p == Placement(id, Next(id, n));
        var targets := Shared(calls, id, n);
        forall k | 0 <= k < |targets| ensures targets[k] == Around(id, k, n) {
          if k > 0 {
            assert targets[k] == Shared(calls[1..], p.id, n)[k - 1];
          }
        }
      }
    }
  }

  lemma Below(q: nat, q': nat, n: nat)
    requires q < q'
    ensures q * n + n <= q' * n
  {
    var gap := q' - q - 1;
    assert gap * n >= 0;
    assert q' * n == q * n + gap * n + n;
  }

  lemma AddTurn(k: nat, n: nat)
    requires n > 0
    ensures (n + k) / n == k / n + 1
  {
    assert n * (k / n + 1) == n * (k / n) + n;
    IntegerGcd.DivIs(n + k, n, k / n + 1, k % n);
  }

  /** How often m steps from a place d before the target reach it. */
  function Visits(m: nat, d: nat, n: nat): nat
    requires d < n
  {
    (m + n - 1 - d) / n
  }

  lemma VisitsStep(m: nat, d: nat, n: nat)
    requires 0 < m && d < n
    ensures d > 0 ==> Visits(m, d, n) == Visits(m - 1, d - 1, n)
    ensures d == 0 ==> Visits(m, 0, n) == Visits(m - 1, n - 1, n) + 1
  {
    AddTurn(m - 1, n);
  }

  lemma NoVisits(d: nat, n: nat)
    requires d < n
    ensures Visits(0, d, n) == 0
  {
    IntegerGcd.DivIs(n - 1 - d, n, 0, n - 1 - d);
  }

  /** How often going round from `id` meets j. */
  lemma {:induction false} HitsOfRound(targets: seq<nat>, id: nat, j: nat, n: nat)
    requires id < n && j < n && forall k | 0 <= k < |targets| :: targets[k] == Around(id, k, n)
    ensures Hits(targets, j) == Visits(|targets|, Distance(id, j, n), n)
    decreases |targets|
  {
    var d := Distance(id, j, n);
    if targets == [] {
      NoVisits(d, n);
    } else {
      var next, rest := Next(id, n), targets[1..];
      forall k | 0 <= k < |rest| ensures rest[k] == Around(next, k, n) {
        assert rest[k] == targets[k + 1];
      }
      HitsOfRound(rest, next, j, n);
      VisitsStep(|targets|, d, n);
      assert targets[0] == Around(id, 0, n) == id;
      assert Distance(next, j, n) == if d == 0 then n - 1 else d - 1;
    }
  }

  /** Fairness: with nobody idle or blocked, m fibers without a running owner, whatever owned fibers come between,
      give each of the n processers at least m / n and at most that rounded up. */
  lemma PlacementIsFair(calls: seq<Call>, id: nat, n: nat, j: nat)
    requires id < n && j < n && Busy(calls, n)
    ensures var m, hits := |Shared(calls, id, n)|, Hits(Shared(calls, id, n), j);
      m / n <= hits <= (m + n - 1) / n
  {
    var targets := Shared(calls, id, n);
    SharedGoesRound(calls, id, n);
    HitsOfRound(targets, id, j, n);
    var d := Distance(id, j, n);
    DivGrows(|targets|, |targets| + n - 1 - d, n);
    DivGrows(|targets| + n - 1 - d, |targets| + n - 1, n);
  }

  lemma DivGrows(x: nat, y: nat, n: nat)
    requires x <= y && n > 0
    ensures x / n <= y / n
  {
    var q, q' := x / n, y / n;
    if q' < q {
      Below(q', q, n);
    }
  }

  // ---------------------------------------------------------------- what becomes of the fibers

  /** A processer that is stopping or done lets the fiber go. */
  predicate Takes(state: TaskState) {
    state != Stop && state != Done
  }

  function HandOver(queues: seq<seq<Fiber>>, states: seq<TaskState>, target: nat, fiber: Fiber): seq<seq<Fiber>>
    requires |queues| == |states| && target < |states|
  {
    if Takes(states[target]) then queues[target := queues[target] + [fiber]] else queues
  }

  ghost predicate AllOf(calls: seq<Call>, n: nat) {
    forall i | 0 <= i < |calls| :: |calls[i].states| == n
  }

  /** The queues after a list of calls. */
  function Queues(queues: seq<seq<Fiber>>, id: nat, calls: seq<Call>): (r: seq<seq<Fiber>>)
    requires id < |queues| && forall i | 0 <= i < |calls| :: |calls[i].states| == |queues|
    ensures |r| == |queues|
    decreases |calls|
  {
    if calls == [] then queues
    else
      var p := Place(calls[0].states, id, calls[0].owner);
      Queues(HandOver(queues, calls[0].states, p.target, calls[0].fiber), p.id, calls[1..])
  }

  /** The fibers of the calls placed on processer j while it was neither stopping nor done, in call order. */
  function PlacedOn(calls: seq<Call>, id: nat, n: nat, j: nat): seq<Fiber>
    requires id < n && j < n && forall i | 0 <= i < |calls| :: |calls[i].states| == n
    decreases |calls|
  {
    if calls == [] then []
    else
      var p := Place(calls[0].states, id, calls[0].owner);
      var rest := PlacedOn(calls[1..], p.id, n, j);
      var state := calls[0].states[j];
      if p.target == j && state != Stop && state != Done then [calls[0].fiber] + rest else rest
  }

  /** The calls whose fiber was not let go. */
  function Accepted(calls: seq<Call>, id: nat, n: nat): seq<Fiber>
    requires id < n && forall i | 0 <= i < |calls| :: |calls[i].states| == n
    decreases |calls|
  {
    if calls == [] then []
    else
      var p := Place(calls[0].states, id, calls[0].owner);
      var rest := Accepted(calls[1..], p.id, n);
      var state := calls[0].states[p.target];
      if state != Stop && state != Done then [calls[0].fiber] + rest else rest
  }

  /** Each processer's queue grows by its own fibers in the order of the calls, and by nothing else. */
  lemma {:induction false} QueuesListCalls(queues: seq<seq<Fiber>>, id: nat, calls: seq<Call>, j: nat)
    requires id < |queues| && j < |queues| && AllOf(calls, |queues|)
    ensures Queues(queues, id, calls)[j] == queues[j] + PlacedOn(calls, id, |queues|, j)
    decreases |calls|
  {
    if calls != [] {
      var p := Place(calls[0].states, id, calls[0].owner);
      var next := HandOver(queues, calls[0].states, p.target, calls[0].fiber);
      QueuesListCalls(next, p.id, calls[1..], j);
    }
  }

  function TotalTimes(queues: seq<seq<Fiber>>, f: Fiber): nat {
    if queues == [] then 0 else Times(queues[0], f) + TotalTimes(queues[1..], f)
  }

  lemma {:induction false} TotalAfter(queues: seq<seq<Fiber>>, j: nat, q: seq<Fiber>, f: Fiber)
    requires j < |queues|
    ensures TotalTimes(queues[j := q], f) + Times(queues[j], f) == TotalTimes(queues, f) + Times(q, f)
    decreases |queues|
  {
    if j == 0 {
      assert queues[j := q][1..] == queues[1..];
    } else {
      assert queues[j := q][1..] == queues[1..][j - 1 := q];
      TotalAfter(queues[1..], j - 1, q, f);
    }
  }

  /** No fiber is lost or doubled: over all the queues each fiber occurs once more for each of its calls that was not
      let go. */
  lemma {:induction false} FibersPlacedOnce(queues: seq<seq<Fiber>>, id: nat, calls: seq<Call>, f: Fiber)
    requires id < |queues| && AllOf(calls, |queues|)
    ensures TotalTimes(Queues(queues, id, calls), f) ==
              TotalTimes(queues, f) + Times(Accepted(calls, id, |queues|), f)
    decreases |calls|
  {
    if calls != [] {
      var p := Place(calls[0].states, id, calls[0].owner);
      var next := HandOver(queues, calls[0].states, p.target, calls[0].fiber);
      FibersPlacedOnce(next, p.id, calls[1..], f);
      TotalAfter(queues, p.target, queues[p.target] + [calls[0].fiber], f);
      TimesAdd(queues[p.target], [calls[0].fiber], f);
      TimesAdd([calls[0].fiber], Accepted(calls[1..], p.id, |queues|), f);
    }
  }

  // ---------------------------------------------------------------- the scheduler

  class Scheduler {
    var states: seq<TaskState>
    var queues: seq<seq<Fiber>>
    var id: nat
    var fiberNumber: nat

    ghost predicate Valid()
      reads this
    {
      |queues| == |states| && id < |states|
    }

    constructor (n: nat)
      requires n > 0
      ensures Valid() && |states| == n && id == 0 && fiberNumber == 0
      ensures forall i | 0 <= i < n :: queues[i] == [] && states[i] == Running
    {
      states, queues := seq(n, _ => Running), seq(n, _ => []);
      id, fiberNumber := 0, 0;
    }

    /** `Processer::addFiber` on the target. */
    method HandTo(target: nat, fiber: Fiber)
      requires Valid() && target < |states|
      modifies this`queues
      ensures queues == HandOver(old(queues), states, target, fiber)
    {
      if states[target] != Stop && states[target] != Done {
        queues := queues[target := queues[target] + [fiber]];
      }
    }

    method AddFiber(fiber: Fiber, owner: Owner)
      requires Valid() && (owner.Owner? ==> owner.index < |states|)
      modifies this`queues, this`id
      ensures Valid()
      ensures id == Place(states, old(id), owner).id
      ensures var target := Place(states, old(id), owner).target;
        && queues == HandOver(old(queues), states, target, fiber)
        && (forall j | 0 <= j < |queues| && j != target :: queues[j] == old(queues)[j])
        && (states[target] != Stop && states[target] != Done ==> queues[target] == old(queues)[target] + [fiber])
        && (states[target] == Stop || states[target] == Done ==> queues == old(queues))
    {
      if owner.Owner? && states[owner.index].Running? {
        HandTo(owner.index, fiber);
        return;
      }
      var it := 0;
      while it < |states|
        invariant 0 <= it <= |states| && FirstIdle(states, 0) == FirstIdle(states, it)
      {
        if states[it].Idle? {
          HandTo(it, fiber);
          return;
        }
        it := it + 1;
      }
      ShareOut(fiber);
    }

    /** The rest of addFiber: counting round from `id`. */
    method ShareOut(fiber: Fiber)
      requires Valid()
      modifies this`queues, this`id
      ensures Valid()
      ensures id == Next(FirstOpen(states, old(id), |states|), |states|)
      ensures queues == HandOver(old(queues), states, FirstOpen(states, old(id), |states|), fiber)
    {
      var n := |states|;
      for i := 0 to n
        invariant id < n && queues == old(queues)
        invariant FirstOpen(states, old(id), n) == FirstOpen(states, id, n - i)
      {
        if !states[id].Block? {
          HandTo(id, fiber);
          id := Next(id, n);
          return;
        }
        id := Next(id, n);
      }
      HandTo(id, fiber);
      id := Next(id, n);
    }

    /** A new fiber has no processer yet, so it is always shared out or given to an idle one. */
    method CreateFiber(fiber: Fiber)
      requires Valid()
      modifies this
      ensures Valid() && fiberNumber == old(fiberNumber) + 1 && states == old(states)
      ensures id == Place(states, old(id), Nobody).id
      ensures var target := Place(states, old(id), Nobody).target;
        && (forall j | 0 <= j < |queues| && j != target :: queues[j] == old(queues)[j])
        && (states[target] != Stop && states[target] != Done ==> queues[target] == old(queues)[target] + [fiber])
        && (states[target] == Stop || states[target] == Done ==> queues == old(queues))
    {
      fiberNumber := fiberNumber + 1;
      AddFiber(fiber, Nobody);
    }
  }
}
