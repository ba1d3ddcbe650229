/**
 What goes wrong beyond one producer and one consumer, and exactly when it can (src/thread/lockfreelist.h).

 The runs below work on lists of any size from three nodes on.
 */
module LockFreeCounterexamples {
  import opened LockFreeSteps
  import opened LockFreeInvariant
  import opened LockFreeTheorems
  import opened LockFreeReturns
  import opened LockFreeRuns

  /** The first three nodes of a list that has just been constructed. */
  lemma FreshNodes(max: nat, producers: nat, consumers: nat)
    requires max >= 3
    ensures var s := Init(max, producers, consumers);
      && |s.mem| == max && s.id == max - 1 && s.head == s.tail == At(0, 0) && s.free == At(1, 1)
      && s.mem[0] == Node(Null, 0) && s.mem[1] == Node(At(2, 2), 0)
      && s.mem[2] == Node(if max > 3 then At(3, 3) else Null, 0)
      && |s.producers| == producers && (forall p | 0 <= p < producers :: s.producers[p] == Ready)
      && |s.consumers| == consumers && (forall c | 0 <= c < consumers :: s.consumers[c] == Idle)
      && s.log == Log([], [], [], [])
  {
  }

  // ---------------------------------------------------------------- a pop that fails on a queue that is never empty

  /** Between states a and b consumer c calls pop and gets false. */
  ghost predicate FailsBetween(states: seq<State>, a: nat, b: nat, c: nat) {
    && a + 1 < b < |states|
    && (forall k | a <= k <= b :: c < |states[k].consumers|)
    && states[a].consumers[c].Idle? && states[b].consumers[c].Idle?
    && (forall k | a < k < b :: !states[k].consumers[c].Idle?)
    && states[b - 1].consumers[c].HeadNext?
  }

  /** At every moment from state a to state b the queue holds a value. */
  ghost predicate NonEmptyBetween(states: seq<State>, a: nat, b: nat)
    requires a <= b < |states|
  {
    forall k | a <= k <= b :: Contents(states[k]) != []
  }

  /** A pop fails on a queue that holds a value from before the call until after it. */
  ghost predicate MissesValue(states: seq<State>, a: nat, b: nat, c: nat) {
    Path(states) && FailsBetween(states, a, b, c) && NonEmptyBetween(states, a, b)
  }

  ghost predicate CanMiss(max: nat, consumers: nat)
    requires max >= 1
  {
    exists states, a, b, c ::
      MissesValue(states, a, b, c) && states[0] == Init(max, 1, consumers)
  }

  /** Two values queued, everybody at rest. */
  function TwoQueued(max: nat, consumers: nat): State
    requires max >= 3
  {
    FreshNodes(max, 1, consumers);
    Pushed(Pushed(Init(max, 1, consumers), 0, 10), 0, 20)
  }

  lemma TwoQueuedIs(max: nat, consumers: nat)
    requires max >= 3
    ensures var s := TwoQueued(max, consumers);
      && |s.mem| == max && s.id == max + 1 && s.head == At(0, 0) && s.tail == At(max, 2)
      && s.free == (if max > 3 then At(3, 3) else Null)
      && s.mem[0] == Node(At(max - 1, 1), 0) && s.mem[1] == Node(At(max, 2), 10) && s.mem[2] == Node(Null, 20)
      && s.producers == [Ready]
      && |s.consumers| == consumers && (forall c | 0 <= c < consumers :: s.consumers[c] == Idle)
      && s.log == Log([10, 20], [10, 20], [], [])
  {
    FreshNodes(max, 1, consumers);
  }

  lemma ReachesTwoQueued(max: nat, consumers: nat)
    requires max >= 3
    ensures Reaches(Init(max, 1, consumers), TwoQueued(max, consumers))
  {
    var s := Init(max, 1, consumers);
    FreshNodes(max, 1, consumers);
    GoesNowhere(s, AllBut(consumers));
    PushCompletes(s, s, AllBut(consumers), 0, 10);
    PushCompletes(s, Pushed(s, 0, 10), AllBut(consumers), 0, 20);
    WithoutReaches(s, TwoQueued(max, consumers), consumers);
  }

  /** Consumer 0 has read the dummy's pointer and `m_in` and is about to read the dummy's link. */
  function Stalled(max: nat, consumers: nat): State
    requires max >= 3 && consumers >= 2
  {
    TwoQueuedIs(max, consumers);
    SetC(TwoQueued(max, consumers), 0, HeadNext(At(0, 0), At(max, 2)))
  }

  /** Meanwhile consumer 1 pops, releasing the dummy, and the producer takes it for a new value and clears it. */
  lemma ReachesCleared(max: nat, consumers: nat) returns (s: State)
    requires max >= 3 && consumers >= 2
    ensures ReachesWithout(Stalled(max, consumers), s, 0)
    ensures |s.consumers| == consumers && s.consumers[0] == HeadNext(At(0, 0), At(max, 2))
    ensures |s.mem| == max && s.mem[0].next == Null && s.log.delivered == [10]
  {
    var start := Stalled(max, consumers);
    TwoQueuedIs(max, consumers);
    GoesNowhere(start, AllBut(0));
    PopCompletes(start, start, AllBut(0), 1);
    var popped := Popped(start);
    assert popped.free == At(max + 1, 0);
    PushAllocates(start, popped, AllBut(0), 0, 30);
    s := Allocated(popped, 0, 30);
  }

  lemma PrefixIsPath(states: seq<State>, n: nat)
    requires Path(states) && n < |states|
    ensures Path(states[..n + 1]) && Path(states[n..])
    ensures Reaches(states[0], states[n]) && Reaches(states[n], states[|states| - 1])
  {
    assert states[..n + 1][n] == states[n];
    forall i, j | 0 <= i && j == i + 1 < |states[n..]| ensures Step(states[n..][i], states[n..][j]) {
      assert states[n..][i] == states[n + i] && states[n..][j] == states[n + j];
    }
    var front, back := states[..n + 1], states[n..];
    assert Path(front) && front[0] == states[0] && front[|front| - 1] == states[n];
    assert Path(back) && back[0] == states[n] && back[|back| - 1] == states[|states| - 1];
  }

  lemma StepOfPath(states: seq<State>, k: nat)
    requires Path(states) && 0 < k < |states|
    ensures Step(states[k - 1], states[k])
  {
  }

  lemma {:induction false} LogsGrow(states: seq<State>, i: nat, k: nat)
    requires Path(states) && i <= k < |states|
    ensures states[i].log.linked <= states[k].log.linked && states[i].log.delivered <= states[k].log.delivered
    decreases k
  {
    if i < k {
      LogsGrow(states, i, k - 1);
      StepOfPath(states, k);
      LogsGrowByStep(states[k - 1], states[k]);
    }
  }

  lemma LogsGrowByStep(s: State, s': State)
    requires Step(s, s')
    ensures s.log.linked <= s'.log.linked && s.log.delivered <= s'.log.delivered
  {
    var m :| s' == Next(s, m);
    StepKeepsSizes(s, m);
  }

  /** Where more has been linked at the start than is delivered by the end, the queue is never empty in between. */
  lemma NeverEmpty(states: seq<State>, a: nat, b: nat, max: nat, consumers: nat)
    requires Path(states) && a <= b < |states| && Reachable(states[0], max, consumers)
    requires |states[a].log.linked| > |states[b].log.delivered|
    ensures NonEmptyBetween(states, a, b)
  {
    forall k | a <= k <= b ensures Contents(states[k]) != [] {
      LogsGrow(states, a, k);
      LogsGrow(states, k, b);
      PrefixIsPath(states, k);
      ReachableNext(states[0], states[k], max, consumers);
      LinkedIsDeliveredThenQueued(states[k], max, consumers);
    }
  }

  lemma ReachableNext(s: State, s': State, max: nat, consumers: nat)
    requires Reachable(s, max, consumers) && Reaches(s, s')
    ensures Reachable(s', max, consumers)
  {
    var p: seq<State> :| Path(p) && p[0] == Init(max, 1, consumers) && p[|p| - 1] == s;
    var q: seq<State> :| Path(q) && q[0] == s && q[|q| - 1] == s';
    PathsJoin(p, q);
    var all := p + q[1..];
    assert Path(all) && all[0] == Init(max, 1, consumers) && all[|all| - 1] == s';
  }

  /** A call of consumer 0, from before it to after it, in which it stands still while the others do `mid`. */
  function Call(s0: State, s1: State, s2: State, mid: seq<State>, last: State): seq<State> {
    [s0, s1, s2] + mid + [last]
  }

  lemma CallIsPath(s0: State, s1: State, s2: State, mid: seq<State>, last: State)
    requires Step(s0, s1) && Step(s1, s2) && Path(mid) && Step(s2, mid[0]) && Step(mid[|mid| - 1], last)
    ensures Path(Call(s0, s1, s2, mid, last))
  {
    assert Path([s0, s1, s2]) && Path([last]);
    PathsJoin([s0, s1, s2], mid);
    PathsJoin([s0, s1, s2] + mid, [last]);
  }

  /** Consumer 0 is outside pop at both ends and reading the dummy's link throughout `mid`. */
  ghost predicate FailingCall(call: seq<State>, consumers: nat) {
    && |call| >= 5
    && (forall k | 0 <= k < |call| :: |call[k].consumers| == consumers >= 1)
    && call[0].consumers[0].Idle? && call[|call| - 1].consumers[0].Idle?
    && (forall k | 0 < k < |call| - 1 :: !call[k].consumers[0].Idle?)
    && call[|call| - 2].consumers[0].HeadNext?
  }

  lemma CallFails(s0: State, s1: State, s2: State, mid: seq<State>, last: State, consumers: nat)
    requires consumers >= 1 && |mid| >= 1 && StandsStill(mid, 0)
    requires |s0.consumers| == |s1.consumers| == |s2.consumers| == |mid[0].consumers| == |last.consumers| == consumers
    requires s0.consumers[0] == last.consumers[0] == Idle
    requires s1.consumers[0].HeadRead? && s2.consumers[0].HeadTail? && mid[0].consumers[0].HeadNext?
    ensures FailingCall(Call(s0, s1, s2, mid, last), consumers)
  {
    var call := Call(s0, s1, s2, mid, last);
    forall k | 3 <= k < |mid| + 3 ensures |call[k].consumers| == consumers && call[k].consumers[0].HeadNext? {
      assert SameConsumer(mid[0], mid[k - 3], 0);
      assert call[k] == mid[k - 3];
    }
  }

  lemma ReachesFailure(max: nat, consumers: nat) returns (call: seq<State>)
    requires max >= 3 && consumers >= 2
    ensures Path(call) && FailingCall(call, consumers) && call[0] == TwoQueued(max, consumers)
    ensures call[0].log.linked == [10, 20] && call[|call| - 1].log.delivered == [10]
  {
    TwoQueuedIs(max, consumers);
    var s0 := TwoQueued(max, consumers);
    var s1, s2, s3 := SetC(s0, 0, HeadRead), SetC(s0, 0, HeadTail(At(0, 0))), Stalled(max, consumers);
    var cleared := ReachesCleared(max, consumers);
    var last := SetC(cleared, 0, Idle);
    ConsumerGoes(s0, s1, 0);
    ConsumerGoes(s1, s2, 0);
    ConsumerGoes(s2, s3, 0);
    ConsumerGoes(cleared, last, 0);
    var mid: seq<State> :| Path(mid) && StandsStill(mid, 0) && mid[0] == s3 && mid[|mid| - 1] == cleared;
    CallIsPath(s0, s1, s2, mid, last);
    CallFails(s0, s1, s2, mid, last, consumers);
    call := Call(s0, s1, s2, mid, last);
  }

  lemma ConsumerGoes(s: State, s': State, c: nat)
    requires c < |s.consumers| && s' == ConsumerStep(s, c)
    ensures Step(s, s')
  {
    assert s' == Next(s, Consume(c));
  }

  /** A failing call after any run that leads to it. */
  lemma CallFailsAfter(before: seq<State>, call: seq<State>, consumers: nat)
    returns (states: seq<State>, a: nat, b: nat)
    requires Path(before) && Path(call) && FailingCall(call, consumers) && before[|before| - 1] == call[0]
    ensures Path(states) && FailsBetween(states, a, b, 0)
    ensures states[0] == before[0] && states[a] == call[0] && states[b] == call[|call| - 1]
  {
    states, a, b := Join(before, call);
    Shifted(states, call, a, b, consumers);
  }

  /** The two runs one after the other: where the second starts and ends in the whole. */
  lemma Join(before: seq<State>, call: seq<State>) returns (states: seq<State>, a: nat, b: nat)
    requires Path(before) && Path(call) && before[|before| - 1] == call[0]
    ensures Path(states) && b == a + |call| - 1 < |states| && states[0] == before[0]
    ensures forall k | a <= k <= b :: states[k] == call[k - a]
  {
    JoinIsPath(before, call);
    JoinedAt(before, call);
    states, a, b := before + call[1..], |before| - 1, |before| + |call| - 2;
  }

  lemma JoinIsPath(before: seq<State>, call: seq<State>)
    requires Path(before) && Path(call) && before[|before| - 1] == call[0]
    ensures Path(before + call[1..]) && (before + call[1..])[0] == before[0]
  {
    PathsJoin(before, call);
  }

  lemma JoinedAt(before: seq<State>, call: seq<State>)
    requires |before| >= 1 && |call| >= 1 && before[|before| - 1] == call[0]
    ensures var states, a := before + call[1..], |before| - 1;
      |states| == a + |call| && forall k | a <= k < |states| :: states[k] == call[k - a]
  {
  }

  lemma Shifted(states: seq<State>, call: seq<State>, a: nat, b: nat, consumers: nat)
    requires FailingCall(call, consumers) && b == a + |call| - 1 < |states|
    requires forall k | a <= k <= b :: states[k] == call[k - a]
    ensures FailsBetween(states, a, b, 0)
  {
    assert states[a] == call[0] && states[b] == call[|call| - 1] && states[b - 1] == call[|call| - 2];
  }

  lemma FailureAfter(init: State, call: seq<State>, consumers: nat) returns (states: seq<State>, a: nat, b: nat)
    requires Path(call) && FailingCall(call, consumers) && Reaches(init, call[0])
    ensures Path(states) && FailsBetween(states, a, b, 0)
    ensures states[0] == init && states[a] == call[0] && states[b] == call[|call| - 1]
  {
    var before := PathTo(init, call[0]);
    states, a, b := CallFailsAfter(before, call, consumers);
  }

  /** The whole run, from construction. */
  lemma FailureFromStart(max: nat, consumers: nat) returns (states: seq<State>, a: nat, b: nat)
    requires max >= 3 && consumers >= 2
    ensures Path(states) && FailsBetween(states, a, b, 0) && states[0] == Init(max, 1, consumers)
    ensures states[a].log.linked == [10, 20] && states[b].log.delivered == [10]
  {
    ReachesTwoQueued(max, consumers);
    var call := ReachesFailure(max, consumers);
    states, a, b := FailureAfter(Init(max, 1, consumers), call, consumers);
  }

  lemma PathTo(s: State, s': State) returns (states: seq<State>)
    requires Reaches(s, s')
    ensures Path(states) && states[0] == s && states[|states| - 1] == s'
  {
    states :| Path(states) && states[0] == s && states[|states| - 1] == s';
  }

  /** On three nodes or more and with two consumers or more, a pop can fail although the queue is never empty. */
  lemma StalePopMissesValue(max: nat, consumers: nat)
    requires max >= 3 && consumers >= 2
    ensures CanMiss(max, consumers)
  {
    var states, a, b := FailureFromStart(max, consumers);
    ReachesItself(states[0]);
    NeverEmpty(states, a, b, max, consumers);
    Witnessed(states, a, b, max, consumers);
  }

  lemma Witnessed(states: seq<State>, a: nat, b: nat, max: nat, consumers: nat)
    requires max >= 1 && Path(states) && FailsBetween(states, a, b, 0) && NonEmptyBetween(states, a, b)
    requires states[0] == Init(max, 1, consumers)
    ensures CanMiss(max, consumers)
  {
    assert MissesValue(states, a, b, 0);
  }

  // ---------------------------------------------------------------- ... and it needs both

  /** A pop's head pointer was read from `m_out` just now, or it held it before. */
  predicate CameFrom(from: Consumer, to: Consumer, head: Ptr) {
    Reading(to) ==> (to.HeadTail? && to.head == head) || (Reading(from) && from.head == to.head)
  }

  ghost predicate Traced(states: seq<State>, a: nat, b: nat, c: nat)
    requires a <= b <= |states| && forall k | a <= k < b :: c < |states[k].consumers|
  {
    forall i, k | a <= i && k == i + 1 < b :: CameFrom(states[i].consumers[c], states[k].consumers[c], states[k].head)
  }

  /** The head pointer a pop holds is what `m_out` was at some moment of the call. */
  lemma {:induction false} HeadWasSeen(states: seq<State>, a: nat, b: nat, c: nat) returns (j: nat)
    requires a < b <= |states| && (forall k | a <= k < b :: c < |states[k].consumers|) && Traced(states, a, b, c)
    requires states[a].consumers[c].Idle? && Reading(states[b - 1].consumers[c])
    ensures a < j < b && states[j].head == states[b - 1].consumers[c].head
    decreases b
  {
    assert CameFrom(states[b - 2].consumers[c], states[b - 1].consumers[c], states[b - 1].head);
    var at := states[b - 1].consumers[c];
    if at.HeadTail? && at.head == states[b - 1].head {
      j := b - 1;
    } else {
      j := HeadWasSeen(states, a, b - 1, c);
    }
  }

  lemma StepTraced(states: seq<State>, k: nat, c: nat)
    requires Path(states) && 0 < k < |states| && c < |states[k - 1].consumers| && c < |states[k].consumers|
    ensures CameFrom(states[k - 1].consumers[c], states[k].consumers[c], states[k].head)
  {
    StepOfPath(states, k);
    if Reading(states[k].consumers[c]) {
      OneBack(states[k - 1], states[k], c);
    }
  }

  lemma HeadSeenInCall(states: seq<State>, a: nat, b: nat, c: nat) returns (j: nat)
    requires Path(states) && FailsBetween(states, a, b, c)
    ensures a < j <= b - 1 && states[j].head == states[b - 1].consumers[c].head
  {
    forall i, k | a <= i && k == i + 1 < b
      ensures CameFrom(states[i].consumers[c], states[k].consumers[c], states[k].head)
    {
      StepTraced(states, k, c);
    }
    j := HeadWasSeen(states, a, b, c);
  }

  predicate Reading(c: Consumer) {
    c.HeadTail? || c.HeadNext?
  }

  lemma OneBack(s: State, s': State, c: nat)
    requires Step(s, s') && c < |s.consumers| && c < |s'.consumers| && Reading(s'.consumers[c])
    ensures (s'.consumers[c].HeadTail? && s'.consumers[c].head == s'.head)
         || (Reading(s.consumers[c]) && s.consumers[c].head == s'.consumers[c].head)
  {
    if s'.consumers[c] != s.consumers[c] {
      var m :| s' == Next(s, m);
      HeadComesFrom(s, m, c);
    }
  }

  /** A pop gets its head pointer by reading `m_out` and keeps it while it reads `m_in`. */
  lemma HeadComesFrom(s: State, m: Move, c: nat)
    requires c < |s.consumers| && c < |Next(s, m).consumers| && Next(s, m).consumers[c] != s.consumers[c]
    ensures var to := Next(s, m).consumers[c];
      && (to.HeadTail? ==> to.head == Next(s, m).head)
      && (to.HeadNext? ==> s.consumers[c] == HeadTail(to.head))
  {
    if !(m.Consume? && m.c == c) {
      OthersStandStill(s, m, c);
    }
  }

  lemma ContentsFit(s: State)
    ensures |s.mem| >= 1 ==> |Contents(s)| < |s.mem|
  {
    ChainInMem(s.mem, s.head, |s.mem|);
  }

  /** On a list of two nodes, moving `m_out` leaves the queue empty. */
  lemma MoveEmpties(s: State, m: Move, max: nat, consumers: nat)
    requires Reachable(s, max, consumers) && max <= 2 && Next(s, m).head != s.head
    ensures Contents(Next(s, m)) == []
  {
    ReachableSizes(s, max, consumers);
    ContentsFit(s);
    HeadMovesByCas(s, m);
    DeliversOldest(s, max, consumers, m.c);
  }

  lemma HeadMovesByCas(s: State, m: Move)
    requires Next(s, m).head != s.head
    ensures m.Consume? && m.c < |s.consumers| && s.consumers[m.c].HeadCas? && s.consumers[m.c].head == s.head
  {
  }

  lemma {:induction false} MovedMeansEmpty(states: seq<State>, j: nat, k: nat, max: nat, consumers: nat)
    returns (i: nat)
    requires Path(states) && j <= k < |states| && max <= 2 && Reachable(states[0], max, consumers)
    requires states[j].head != states[k].head
    ensures j < i <= k && Contents(states[i]) == []
    decreases k
  {
    if states[k - 1].head == states[k].head {
      i := MovedMeansEmpty(states, j, k - 1, max, consumers);
    } else {
      EmptiedAt(states, k, max, consumers);
      i := k;
    }
  }

  lemma EmptiedAt(states: seq<State>, k: nat, max: nat, consumers: nat)
    requires Path(states) && 0 < k < |states| && max <= 2 && Reachable(states[0], max, consumers)
    requires states[k - 1].head != states[k].head
    ensures Contents(states[k]) == []
  {
    PrefixIsPath(states, k - 1);
    ReachableNext(states[0], states[k - 1], max, consumers);
    StepOfPath(states, k);
    StepEmpties(states[k - 1], states[k], max, consumers);
  }

  lemma StepEmpties(s: State, s': State, max: nat, consumers: nat)
    requires Reachable(s, max, consumers) && max <= 2 && Step(s, s') && s'.head != s.head
    ensures Contents(s') == []
  {
    var m :| s' == Next(s, m);
    MoveEmpties(s, m, max, consumers);
  }

  /** The last step of a failing pop found a null link, so `m_out` had moved on if there was a value. */
  lemma FailedOnStaleHead(s: State, s': State, c: nat, max: nat, consumers: nat)
    requires Reachable(s, max, consumers) && Step(s, s') && c < |s.consumers| && c < |s'.consumers|
    requires s.consumers[c].HeadNext? && s'.consumers[c].Idle? && Contents(s) != []
    ensures consumers != 1 && s.consumers[c].head != s.head
  {
    var m :| s' == Next(s, m);
    if !(m.Consume? && m.c == c) {
      OthersStandStill(s, m, c);
    }
    PopFailsIffEmpty(s, max, consumers, c);
  }

  lemma MissNeedsBoth(states: seq<State>, a: nat, b: nat, c: nat, max: nat, consumers: nat)
    requires MissesValue(states, a, b, c) && Reachable(states[0], max, consumers)
    ensures max >= 3 && consumers >= 2
  {
    PrefixIsPath(states, b - 1);
    ReachableNext(states[0], states[b - 1], max, consumers);
    ReachableSizes(states[b - 1], max, consumers);
    StepOfPath(states, b);
    FailedOnStaleHead(states[b - 1], states[b], c, max, consumers);
    if max <= 2 {
      var j := HeadSeenInCall(states, a, b, c);
      var i := MovedMeansEmpty(states, j, b - 1, max, consumers);
    }
  }

  /** With one producer: some pop can fail although the queue holds a value from before the call until after it,
      exactly when the list has three nodes or more and there are two consumers or more. */
  lemma MissIff(max: nat, consumers: nat)
    requires max >= 1
    ensures CanMiss(max, consumers) <==> max >= 3 && consumers >= 2
  {
    if max >= 3 && consumers >= 2 {
      StalePopMissesValue(max, consumers);
    }
    if CanMiss(max, consumers) {
      var states: seq<State>, a, b, c :| MissesValue(states, a, b, c) && states[0] == Init(max, 1, consumers);
      ReachesItself(states[0]);
      MissNeedsBoth(states, a, b, c, max, consumers);
    }
  }

  // ---------------------------------------------------------------- a push that is accepted and lost

  ghost predicate AtRest(s: State) {
    && (forall p | 0 <= p < |s.producers| :: s.producers[p].Ready?)
    && (forall c | 0 <= c < |s.consumers| :: s.consumers[c].Idle?)
  }

  /** Everybody is at rest, and v has been accepted more often than it has been returned and is queued. */
  ghost predicate Loses(s: State, v: int) {
    AtRest(s) && Times(s.log.accepted, v) > Times(s.log.returned, v) + Times(Contents(s), v)
  }

  ghost predicate CanLose(max: nat, producers: nat, consumers: nat)
    requires max >= 1
  {
    exists s, v :: Reaches(Init(max, producers, consumers), s) && Loses(s, v)
  }

  /** Producer 0 is about to link node 1 behind the dummy; producer 1 has linked node 2 there instead. */
  lemma ReachesOvertaken(max: nat, producers: nat, consumers: nat) returns (s: State)
    requires max >= 3 && producers >= 2 && consumers >= 1
    ensures ReachesWithout(Init(max, producers, consumers), s, consumers)
    ensures |s.mem| == max && s.id == max + 1 && s.head == At(0, 0) && s.tail == At(max, 2)
    ensures s.free == Null || s.free == At(3, 3)
    ensures s.mem[0] == Node(At(max, 2), 0) && s.mem[1] == Node(Null, 10) && s.mem[2] == Node(Null, 20)
    ensures s.log == Log([20], [20], [], [])
    ensures |s.producers| == producers && s.producers[0] == Link(10, At(max - 1, 1), At(0, 0))
    ensures forall p | 1 <= p < producers :: s.producers[p] == Ready
    ensures |s.consumers| == consumers && forall c | 0 <= c < consumers :: s.consumers[c] == Idle
  {
    var init := Init(max, producers, consumers);
    FreshNodes(max, producers, consumers);
    GoesNowhere(init, AllBut(consumers));
    PushAllocates(init, init, AllBut(consumers), 0, 10);
    var taken := Allocated(init, 0, 10);
    PushFills(init, taken, AllBut(consumers), 0, 10, 1);
    var ready := FilledIn(taken, 0, 10, 1);
    PushCompletes(init, ready, AllBut(consumers), 1, 20);
    s := Pushed(ready, 1, 20);
  }

  /** Then that value is popped, so the dummy is released, and producer 1 takes it for its next push and clears its
      link, which is what producer 0 is waiting to see. */
  lemma ReachesReused(max: nat, producers: nat, consumers: nat) returns (s: State)
    requires max >= 3 && producers >= 2 && consumers >= 1
    ensures ReachesWithout(Init(max, producers, consumers), s, consumers)
    ensures |s.mem| == max && s.head == s.tail == At(max, 2)
    ensures s.mem[0] == Node(Null, 0) && s.mem[2] == Node(Null, 20)
    ensures s.log == Log([20], [20], [20], [20])
    ensures |s.producers| == producers && s.producers[0] == Link(10, At(max - 1, 1), At(0, 0))
    ensures s.producers[1] == SetData(30, 0) && forall p | 2 <= p < producers :: s.producers[p] == Ready
    ensures |s.consumers| == consumers && forall c | 0 <= c < consumers :: s.consumers[c] == Idle
  {
    var init := Init(max, producers, consumers);
    var cur := ReachesOvertaken(max, producers, consumers);
    PopCompletes(init, cur, AllBut(consumers), 0);
    var popped := Popped(cur);
    PushAllocates(init, popped, AllBut(consumers), 1, 30);
    s := Allocated(popped, 1, 30);
  }

  /** Producer 0's link CAS now succeeds on a node that is not in the queue, and producer 1 then overwrites it. */
  lemma ReachesLost(max: nat, producers: nat, consumers: nat) returns (s: State)
    requires max >= 3 && producers >= 2 && consumers >= 1
    ensures ReachesWithout(Init(max, producers, consumers), s, consumers) && AtRest(s)
    ensures s.log.accepted == [20, 10, 30] && s.log.returned == [20]
    ensures |s.mem| == max && s.head == At(max, 2)
    ensures s.mem[2].next.At? && s.mem[2].next.node == 0 && s.mem[0] == Node(Null, 30)
  {
    var init := Init(max, producers, consumers);
    var cur := ReachesReused(max, producers, consumers);
    PushLinks(init, cur, AllBut(consumers), 0, 10);
    var linked := Linked(cur, 0);
    PushFills(init, linked, AllBut(consumers), 1, 30, 0);
    var ready := FilledIn(linked, 1, 30, 0);
    PushLinks(init, ready, AllBut(consumers), 1, 30);
    s := Linked(ready, 1);
  }

  lemma LastContents(s: State, n: nat)
    requires |s.mem| >= 3 && InMem(s, s.head) && InMem(s, s.mem[s.head.node].next)
    requires s.mem[s.mem[s.head.node].next.node].next == Null && n == s.mem[s.head.node].next.node
    ensures Contents(s) == [s.mem[n].data]
  {
    var next := s.mem[s.head.node].next;
    assert Chain(s.mem, Null, |s.mem| - 2) == [];
    assert Chain(s.mem, next, |s.mem| - 1) == [n];
    assert QueueNodes(s) == [s.head.node, n];
  }

  /** On three nodes or more, with two producers or more, a push can return true and its value be lost for good. */
  lemma SecondProducerLosesValue(max: nat, producers: nat, consumers: nat)
    requires max >= 3 && producers >= 2 && consumers >= 1
    ensures CanLose(max, producers, consumers)
  {
    var s := ReachesLost(max, producers, consumers);
    WithoutReaches(Init(max, producers, consumers), s, consumers);
    LastContents(s, 0);
    assert [20, 10, 30][1..] == [10, 30] && [10, 30][1..] == [30] && [20][1..] == [];
    assert Loses(s, 10);
  }

  /** With one producer nothing accepted is ever lost, and with two it can be: on three nodes or more, one producer is
      exactly what it takes. */
  lemma LossIff(max: nat, producers: nat, consumers: nat)
    requires max >= 3 && producers >= 1 && consumers >= 1
    ensures CanLose(max, producers, consumers) <==> producers >= 2
  {
    if producers >= 2 {
      SecondProducerLosesValue(max, producers, consumers);
    } else {
      OneProducerCannotLose(max, consumers);
    }
  }

  lemma OneProducerCannotLose(max: nat, consumers: nat)
    requires max >= 1
    ensures !CanLose(max, 1, consumers)
  {
    forall s, v | Reaches(Init(max, 1, consumers), s) ensures !Loses(s, v) {
      if AtRest(s) {
        OneProducerLosesNothing(s, max, consumers, v);
      }
    }
  }

  lemma OneProducerLosesNothing(s: State, max: nat, consumers: nat, v: int)
    requires Reachable(s, max, consumers) && AtRest(s)
    ensures Times(s.log.accepted, v) == Times(s.log.returned, v) + Times(Contents(s), v)
  {
    LinkedIsReturnedOrQueued(s, max, consumers, v);
    NobodyReturns(s.consumers, v);
    var h := ReachableHolds(s, max, consumers);
    assert LogOk(s) && s.producers[0].Ready?;
    assert s.log.accepted + [] == s.log.accepted;
  }
}
