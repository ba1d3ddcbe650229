/** Runs of the lock-free list spelled out: whole pushes and pops that nobody interrupts (src/thread/lockfreelist.h). */
module LockFreeRuns {
  import opened LockFreeSteps

  // ---------------------------------------------------------------- runs in which one consumer stands still

  ghost predicate StandsStill(states: seq<State>, c: nat)
    requires |states| >= 1
  {
    forall k | 0 <= k < |states| :: SameConsumer(states[0], states[k], c)
  }

  predicate SameConsumer(s: State, s': State, c: nat) {
    |s.consumers| == |s'.consumers| && (c < |s.consumers| ==> s'.consumers[c] == s.consumers[c])
  }

  /** A run from s to s' in which consumer c, if there is one, takes no step that shows. */
  ghost predicate ReachesWithout(s: State, s': State, c: nat) {
    exists states :: Path(states) && StandsStill(states, c) && states[0] == s && states[|states| - 1] == s'
  }

  lemma StandingStart(s: State, c: nat)
    ensures ReachesWithout(s, s, c)
  {
    assert Path([s]) && StandsStill([s], c);
  }

  lemma Extend(s: State, cur: State, c: nat, m: Move)
    requires ReachesWithout(s, cur, c) && !(m.Consume? && m.c == c)
    ensures ReachesWithout(s, Next(cur, m), c)
  {
    var states: seq<State> :| Path(states) && StandsStill(states, c)
      && states[0] == s && states[|states| - 1] == cur;
    OthersStandStill(cur, m, c);
    assert Step(cur, Next(cur, m));
    Append(states, Next(cur, m), c);
  }

  lemma Append(states: seq<State>, s': State, c: nat)
    requires Path(states) && StandsStill(states, c)
    requires Step(states[|states| - 1], s') && SameConsumer(states[|states| - 1], s', c)
    ensures ReachesWithout(states[0], s', c)
  {
    var all := states + [s'];
    PathsJoin(states, [s']);
    assert SameConsumer(states[0], states[|states| - 1], c);
    assert StandsStill(all, c) && all[0] == states[0] && all[|all| - 1] == s';
  }

  lemma PathsJoin(p: seq<State>, q: seq<State>)
    requires Path(p) && Path(q) && (p[|p| - 1] == q[0] || Step(p[|p| - 1], q[0]))
    ensures p[|p| - 1] == q[0] ==> Path(p + q[1..])
    ensures Step(p[|p| - 1], q[0]) ==> Path(p + q)
  {
    if p[|p| - 1] == q[0] {
      var all := p + q[1..];
      forall i, j | 0 <= i && j == i + 1 < |all| ensures Step(all[i], all[j]) {
        if j >= |p| {
          assert all[j] == q[j - |p| + 1] && all[i] == q[i - |p| + 1];
        }
      }
    }
    if Step(p[|p| - 1], q[0]) {
      var all := p + q;
      forall i, j | 0 <= i && j == i + 1 < |all| ensures Step(all[i], all[j]) {
        if j > |p| {
          assert all[j] == q[j - |p|] && all[i] == q[i - |p|];
        }
      }
    }
  }

  lemma OthersStandStill(s: State, m: Move, c: nat)
    requires !(m.Consume? && m.c == c)
    ensures SameConsumer(s, Next(s, m), c)
  {
  }

  lemma WithoutReaches(s: State, s': State, c: nat)
    requires ReachesWithout(s, s', c)
    ensures Reaches(s, s')
  {
  }

  // ---------------------------------------------------------------- who takes the steps

  /** Everybody but one consumer, or one thread alone (a producer with one argument). */
  datatype Who = AllBut(c: nat) | Only(m: Move)

  predicate May(who: Who, m: Move) {
    match who
    case AllBut(c) => !(m.Consume? && m.c == c)
    case Only(m') => m == m'
  }

  /** The state after the same thread has taken n steps. */
  function Repeated(s: State, m: Move, n: nat): State {
    if n == 0 then s else Next(Repeated(s, m, n - 1), m)
  }

  ghost predicate Alone(s: State, m: Move, s': State) {
    exists n: nat :: Repeated(s, m, n) == s'
  }

  ghost predicate Goes(s: State, s': State, who: Who) {
    match who
    case AllBut(c) => ReachesWithout(s, s', c)
    case Only(m) => Alone(s, m, s')
  }

  lemma GoesNowhere(s: State, who: Who)
    ensures Goes(s, s, who)
  {
    match who
    case AllBut(c) => StandingStart(s, c);
    case Only(m) => assert Repeated(s, m, 0) == s;
  }

  lemma GoesOn(s: State, cur: State, who: Who, m: Move)
    requires Goes(s, cur, who) && May(who, m)
    ensures Goes(s, Next(cur, m), who)
  {
    match who
    case AllBut(c) => Extend(s, cur, c, m);
    case Only(_) =>
      var n: nat :| Repeated(s, m, n) == cur;
      assert Repeated(s, m, n + 1) == Next(cur, m);
  }

  lemma {:induction false} AloneReaches(s: State, m: Move, n: nat)
    ensures Reaches(s, Repeated(s, m, n))
  {
    if n == 0 {
      ReachesItself(s);
    } else {
      AloneReaches(s, m, n - 1);
      var cur := Repeated(s, m, n - 1);
      var states: seq<State> :| Path(states) && states[0] == s && states[|states| - 1] == cur;
      assert Step(cur, Next(cur, m));
      PathsJoin(states, [Next(cur, m)]);
      var all := states + [Next(cur, m)];
      assert all[0] == s && all[|all| - 1] == Next(cur, m);
    }
  }

  /** Producer p's next step leads from one explicit state to another. */
  lemma Produces(s: State, cur: State, who: Who, p: nat, v: int, to: State)
    requires Goes(s, cur, who) && May(who, Produce(p, v)) && p < |cur.producers| && ProducerStep(cur, p, v) == to
    ensures Goes(s, to, who)
  {
    GoesOn(s, cur, who, Produce(p, v));
  }

  lemma Consumes(s: State, cur: State, who: Who, d: nat, to: State)
    requires Goes(s, cur, who) && d < |cur.consumers| && May(who, Consume(d)) && ConsumerStep(cur, d) == to
    ensures Goes(s, to, who)
  {
    GoesOn(s, cur, who, Consume(d));
  }

  // ---------------------------------------------------------------- pushes and pops that nobody interrupts

  /** A push reads the top of the free chain, twice, ... */
  lemma PushReadsTop(s: State, cur: State, who: Who, p: nat, v: int)
    requires Goes(s, cur, who) && May(who, Produce(p, v)) && p < |cur.producers|
    requires cur.producers[p].Ready? && InMem(cur, cur.free)
    ensures Goes(s, SetP(cur, p, AllocNext(v, cur.free, cur.free.node)), who)
  {
    var s1, s2 := SetP(cur, p, AllocRead(v)), SetP(cur, p, AllocTop(v, cur.free));
    Produces(s, cur, who, p, v, s1);
    Produces(s, s1, who, p, v, s2);
    Produces(s, s2, who, p, v, SetP(cur, p, AllocNext(v, cur.free, cur.free.node)));
  }

  /** ... takes that node off it, ... */
  lemma PushTakesTop(s: State, cur: State, who: Who, p: nat, v: int)
    requires Goes(s, cur, who) && May(who, Produce(p, v)) && p < |cur.producers|
    requires InMem(cur, cur.free)
    requires cur.producers[p] == AllocNext(v, cur.free, cur.free.node)
    ensures Goes(s, Allocated(cur, p, v), who)
  {
    var top := cur.free.node;
    var after := cur.mem[top].next;
    var s1, s2 := SetP(cur, p, AllocCas(v, cur.free, after)), SetP(cur, p, AllocClear(v, top)).(free := after);
    Produces(s, cur, who, p, v, s1);
    Produces(s, s1, who, p, v, s2);
    Produces(s, s2, who, p, v, Allocated(cur, p, v));
  }

  lemma PushAllocates(s: State, cur: State, who: Who, p: nat, v: int)
    requires Goes(s, cur, who) && May(who, Produce(p, v)) && p < |cur.producers|
    requires cur.producers[p].Ready? && InMem(cur, cur.free)
    ensures Goes(s, Allocated(cur, p, v), who)
  {
    var read := SetP(cur, p, AllocNext(v, cur.free, cur.free.node));
    PushReadsTop(s, cur, who, p, v);
    PushTakesTop(s, read, who, p, v);
    assert Allocated(read, p, v) == Allocated(cur, p, v);
  }

  /** The state once the node is off the free chain and its link is cleared. */
  function Allocated(s: State, p: nat, v: int): State
    requires p < |s.producers| && InMem(s, s.free)
  {
    var n := s.free.node;
    SetP(s, p, SetData(v, n)).(free := s.mem[n].next, mem := s.mem[n := s.mem[n].(next := Null)])
  }

  /** ... fills it ... */
  lemma PushNames(s: State, cur: State, who: Who, p: nat, v: int, n: nat)
    requires Goes(s, cur, who) && May(who, Produce(p, v)) && p < |cur.producers|
    requires cur.producers[p] == SetData(v, n) && n < |cur.mem|
    ensures Goes(s, SetP(cur, p, TakeId(v, n)).(mem := cur.mem[n := Node(Null, v)]), who)
  {
    var named := SetP(cur, p, SetNext(v, n)).(mem := cur.mem[n := cur.mem[n].(data := v)]);
    Produces(s, cur, who, p, v, named);
    Produces(s, named, who, p, v, SetP(cur, p, TakeId(v, n)).(mem := cur.mem[n := Node(Null, v)]));
  }

  /** ... and tags it, and finds the last node ... */
  lemma PushTags(s: State, cur: State, who: Who, p: nat, v: int, n: nat)
    requires Goes(s, cur, who) && May(who, Produce(p, v)) && p < |cur.producers|
    requires cur.producers[p] == TakeId(v, n)
    requires InMem(cur, cur.tail) && cur.mem[cur.tail.node].next.Null?
    ensures Goes(s, SetP(cur, p, Link(v, At(cur.id, n), cur.tail)).(id := cur.id + 1), who)
  {
    var mine := At(cur.id, n);
    var s1 := SetP(cur, p, TailRead(v, mine)).(id := cur.id + 1);
    var s2 := SetP(cur, p, TailNext(v, mine, cur.tail)).(id := cur.id + 1);
    Produces(s, cur, who, p, v, s1);
    Produces(s, s1, who, p, v, s2);
    Produces(s, s2, who, p, v, SetP(cur, p, Link(v, mine, cur.tail)).(id := cur.id + 1));
  }

  lemma PushFills(s: State, cur: State, who: Who, p: nat, v: int, n: nat)
    requires Goes(s, cur, who) && May(who, Produce(p, v)) && p < |cur.producers|
    requires cur.producers[p] == SetData(v, n) && n < |cur.mem|
    requires InMem(cur, cur.tail) && n != cur.tail.node && cur.mem[cur.tail.node].next.Null?
    ensures Goes(s, FilledIn(cur, p, v, n), who)
  {
    var filled := SetP(cur, p, TakeId(v, n)).(mem := cur.mem[n := Node(Null, v)]);
    PushNames(s, cur, who, p, v, n);
    PushTags(s, filled, who, p, v, n);
    assert SetP(filled, p, Link(v, At(cur.id, n), cur.tail)).(id := cur.id + 1) == FilledIn(cur, p, v, n);
  }

  /** The state in which the link CAS is next. */
  function FilledIn(s: State, p: nat, v: int, n: nat): State
    requires p < |s.producers| && n < |s.mem|
  {
    SetP(s, p, Link(v, At(s.id, n), s.tail)).(mem := s.mem[n := Node(Null, v)], id := s.id + 1)
  }

  /** ... then links it there and swings `m_in`. */
  lemma PushLinks(s: State, cur: State, who: Who, p: nat, v: int)
    requires Goes(s, cur, who) && May(who, Produce(p, v)) && p < |cur.producers|
    requires cur.producers[p].Link?
    requires InMem(cur, cur.producers[p].tail) && cur.mem[cur.producers[p].tail.node].next == Null
    ensures Goes(s, Linked(cur, p), who)
  {
    LinkSteps(cur, p, v);
    GoesOn(s, cur, who, Produce(p, v));
    GoesOn(s, LinkedNotSwung(cur, p), who, Produce(p, v));
  }

  function LinkedNotSwung(s: State, p: nat): State
    requires p < |s.producers| && s.producers[p].Link? && InMem(s, s.producers[p].tail)
  {
    var Link(v, mine, tail) := s.producers[p];
    SetP(s, p, Swing(v, mine, tail))
    .(mem := s.mem[tail.node := s.mem[tail.node].(next := mine)], log := s.log.(linked := s.log.linked + [v]))
  }

  lemma LinkSteps(s: State, p: nat, v: int)
    requires p < |s.producers| && s.producers[p].Link?
    requires InMem(s, s.producers[p].tail) && s.mem[s.producers[p].tail.node].next == Null
    ensures Next(s, Produce(p, v)) == LinkedNotSwung(s, p)
    ensures Next(LinkedNotSwung(s, p), Produce(p, v)) == Linked(s, p)
  {
    var swung := LinkedNotSwung(s, p);
    assert swung.producers[p := Ready] == s.producers[p := Ready];
  }

  function Linked(s: State, p: nat): State
    requires p < |s.producers| && s.producers[p].Link? && InMem(s, s.producers[p].tail)
  {
    var Link(v, mine, tail) := s.producers[p];
    SetP(s, p, Ready)
    .(tail := if s.tail == tail then mine else s.tail,
      mem := s.mem[tail.node := s.mem[tail.node].(next := mine)],
      log := s.log.(linked := s.log.linked + [v], accepted := s.log.accepted + [v]))
  }

  /** The state after a whole push. */
  function Pushed(s: State, p: nat, v: int): State
    requires p < |s.producers| && InMem(s, s.free) && InMem(s, s.tail)
  {
    var n := s.free.node;
    s.(id := s.id + 1, tail := At(s.id, n), free := s.mem[n].next,
       mem := s.mem[n := Node(Null, v)][s.tail.node := s.mem[s.tail.node].(next := At(s.id, n))],
       log := s.log.(linked := s.log.linked + [v], accepted := s.log.accepted + [v]))
  }

  lemma PushCompletes(s: State, cur: State, who: Who, p: nat, v: int)
    requires Goes(s, cur, who) && May(who, Produce(p, v)) && p < |cur.producers|
    requires cur.producers[p].Ready? && InMem(cur, cur.free)
    requires InMem(cur, cur.tail) && cur.free.node != cur.tail.node && cur.mem[cur.tail.node].next.Null?
    ensures Goes(s, Pushed(cur, p, v), who)
  {
    var n := cur.free.node;
    var taken := Allocated(cur, p, v);
    PushAllocates(s, cur, who, p, v);
    PushFills(s, taken, who, p, v, n);
    var ready := FilledIn(taken, p, v, n);
    PushLinks(s, ready, who, p, v);
    assert taken.mem[n := Node(Null, v)] == cur.mem[n := Node(Null, v)];
    assert Linked(ready, p).producers == cur.producers;
    assert Linked(ready, p) == Pushed(cur, p, v);
  }

  /** The state after a whole pop. */
  function Popped(s: State): State
    requires InMem(s, s.head) && InMem(s, s.mem[s.head.node].next)
  {
    var next := s.mem[s.head.node].next;
    var v := s.mem[next.node].data;
    s.(id := s.id + 1, head := next, free := At(s.id, s.head.node),
       mem := s.mem[s.head.node := s.mem[s.head.node].(next := s.free)],
       log := s.log.(delivered := s.log.delivered + [v], returned := s.log.returned + [v]))
  }

  lemma PopCompletes(s: State, cur: State, who: Who, d: nat)
    requires Goes(s, cur, who) && d < |cur.consumers| && May(who, Consume(d)) && cur.consumers[d].Idle?
    requires InMem(cur, cur.head) && InMem(cur, cur.mem[cur.head.node].next) && cur.tail != cur.head
    ensures Goes(s, Popped(cur), who)
  {
    Consumes(s, cur, who, d, SetC(cur, d, HeadRead));
    PopCompletesFromRead(s, cur, who, d);
  }

  /** The same from the top of the retry loop. */
  lemma PopCompletesFromRead(s: State, cur: State, who: Who, d: nat)
    requires d < |cur.consumers| && May(who, Consume(d)) && cur.consumers[d].Idle?
    requires Goes(s, SetC(cur, d, HeadRead), who)
    requires InMem(cur, cur.head) && InMem(cur, cur.mem[cur.head.node].next) && cur.tail != cur.head
    ensures Goes(s, Popped(cur), who)
  {
    PopReads(s, cur, who, d);
    var next := cur.mem[cur.head.node].next;
    var ready := SetC(cur, d, HeadCas(cur.head, next, cur.mem[next.node].data));
    PopMoves(s, ready, who, d);
    PopFrees(s, MovedOn(ready, d), who, d);
    assert cur.consumers[d := Idle] == cur.consumers;
    assert Freed(MovedOn(ready, d), d) == Popped(cur);
  }

  /** A pop reads both ends, ... */
  lemma PopReadsEnds(s: State, cur: State, who: Who, d: nat)
    requires d < |cur.consumers| && May(who, Consume(d)) && Goes(s, SetC(cur, d, HeadRead), who)
    ensures Goes(s, SetC(cur, d, HeadNext(cur.head, cur.tail)), who)
  {
    var s1, s2 := SetC(cur, d, HeadRead), SetC(cur, d, HeadTail(cur.head));
    Consumes(s, s1, who, d, s2);
    Consumes(s, s2, who, d, SetC(cur, d, HeadNext(cur.head, cur.tail)));
  }

  /** ... the oldest value, ... */
  lemma PopReads(s: State, cur: State, who: Who, d: nat)
    requires d < |cur.consumers| && May(who, Consume(d)) && Goes(s, SetC(cur, d, HeadRead), who)
    requires InMem(cur, cur.head) && InMem(cur, cur.mem[cur.head.node].next) && cur.tail != cur.head
    ensures var next := cur.mem[cur.head.node].next;
      Goes(s, SetC(cur, d, HeadCas(cur.head, next, cur.mem[next.node].data)), who)
  {
    var next := cur.mem[cur.head.node].next;
    var s1, s2 := SetC(cur, d, HeadNext(cur.head, cur.tail)), SetC(cur, d, DataRead(cur.head, next));
    PopReadsEnds(s, cur, who, d);
    Consumes(s, s1, who, d, s2);
    Consumes(s, s2, who, d, SetC(cur, d, HeadCas(cur.head, next, cur.mem[next.node].data)));
  }

  /** ... moves `m_out`, ... */
  lemma PopMoves(s: State, cur: State, who: Who, d: nat)
    requires Goes(s, cur, who) && d < |cur.consumers| && May(who, Consume(d)) && cur.consumers[d].HeadCas?
    requires cur.consumers[d].head == cur.head && InMem(cur, cur.head)
    ensures Goes(s, MovedOn(cur, d), who)
  {
    var HeadCas(head, next, data) := cur.consumers[d];
    var s1 := SetC(cur, d, FreeId(head.node, data))
              .(head := next, log := cur.log.(delivered := cur.log.delivered + [data]));
    Consumes(s, cur, who, d, s1);
    Consumes(s, s1, who, d, MovedOn(cur, d));
  }

  function MovedOn(s: State, d: nat): State
    requires d < |s.consumers| && s.consumers[d].HeadCas? && s.consumers[d].head.At?
  {
    var HeadCas(head, next, data) := s.consumers[d];
    SetC(s, d, FreeRead(At(s.id, head.node), data))
    .(id := s.id + 1, head := next, log := s.log.(delivered := s.log.delivered + [data]))
  }

  /** ... and releases the old dummy. */
  lemma PopFrees(s: State, cur: State, who: Who, d: nat)
    requires Goes(s, cur, who) && d < |cur.consumers| && May(who, Consume(d)) && cur.consumers[d].FreeRead?
    requires InMem(cur, cur.consumers[d].mine)
    ensures Goes(s, Freed(cur, d), who)
  {
    FreeSteps(cur, d);
    GoesOn(s, cur, who, Consume(d));
    GoesOn(s, AboutToWrite(cur, d), who, Consume(d));
    GoesOn(s, AboutToSwap(cur, d), who, Consume(d));
  }

  /** The two states in between. */
  function AboutToWrite(s: State, d: nat): State
    requires d < |s.consumers| && s.consumers[d].FreeRead?
  {
    SetC(s, d, FreeNext(s.consumers[d].mine, s.free, s.consumers[d].data))
  }

  function AboutToSwap(s: State, d: nat): State
    requires d < |s.consumers| && s.consumers[d].FreeRead? && InMem(s, s.consumers[d].mine)
  {
    var FreeRead(mine, data) := s.consumers[d];
    SetC(s, d, FreeCas(mine, s.free, data)).(mem := s.mem[mine.node := s.mem[mine.node].(next := s.free)])
  }

  lemma FreeSteps(s: State, d: nat)
    requires d < |s.consumers| && s.consumers[d].FreeRead? && InMem(s, s.consumers[d].mine)
    ensures Next(s, Consume(d)) == AboutToWrite(s, d)
    ensures Next(AboutToWrite(s, d), Consume(d)) == AboutToSwap(s, d)
    ensures Next(AboutToSwap(s, d), Consume(d)) == Freed(s, d)
  {
    assert AboutToWrite(s, d).consumers[d := Idle] == s.consumers[d := Idle];
    assert AboutToSwap(s, d).consumers[d := Idle] == s.consumers[d := Idle];
  }

  function Freed(s: State, d: nat): State
    requires d < |s.consumers| && s.consumers[d].FreeRead? && InMem(s, s.consumers[d].mine)
  {
    var FreeRead(mine, data) := s.consumers[d];
    SetC(s, d, Idle)
    .(free := mine, mem := s.mem[mine.node := s.mem[mine.node].(next := s.free)],
      log := s.log.(returned := s.log.returned + [data]))
  }
}
