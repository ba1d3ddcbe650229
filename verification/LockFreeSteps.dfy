/**
 The lock-free list as an interleaved step system (src/thread/lockfreelist.h).

 Every double-word read, every compare-and-swap and every plain access to shared memory is one step;
 steps of different threads interleave freely under sequential consistency.  Tags are unbounded.
 The definitions below allow any number of producers and consumers; the theorems say how many they need.
 */
module LockFreeSteps {

  /** A tagged pointer: `Null` is the all-zero double word, `At` a version tag beside a node's index. */
  datatype Ptr = Null | At(tag: nat, node: nat)

  ghost predicate PointsTo(p: Ptr, node: nat) {
    p.At? && p.node == node
  }

  datatype Node = Node(next: Ptr, data: int)

  /** What a thread inside `push` does next, with the locals it still needs. */
  datatype Producer =
    | Ready
    | AllocRead(v: int)
    | AllocTop(v: int, was: Ptr)
    | AllocNext(v: int, was: Ptr, top: nat)
    | AllocCas(v: int, was: Ptr, after: Ptr)
    | AllocClear(v: int, node: nat)
    | SetData(v: int, node: nat)
    | SetNext(v: int, node: nat)
    | TakeId(v: int, node: nat)
    | TailRead(v: int, mine: Ptr)
    | TailNext(v: int, mine: Ptr, tail: Ptr)
    | TailHelp(v: int, mine: Ptr, tail: Ptr, after: Ptr)
    | Link(v: int, mine: Ptr, tail: Ptr)
    | Swing(v: int, mine: Ptr, tail: Ptr)
    | PushFault

  /** What a thread inside `pop` does next, with the locals it still needs. */
  datatype Consumer =
    | Idle
    | HeadRead
    | HeadTail(head: Ptr)
    | HeadNext(head: Ptr, tail: Ptr)
    | HeadHelp(head: Ptr, tail: Ptr, next: Ptr)
    | DataRead(head: Ptr, next: Ptr)
    | HeadCas(head: Ptr, next: Ptr, data: int)
    | FreeId(node: nat, data: int)
    | FreeRead(mine: Ptr, data: int)
    | FreeNext(mine: Ptr, was: Ptr, data: int)
    | FreeCas(mine: Ptr, was: Ptr, data: int)
    | PopFault

  /** What an observer has seen: `linked` at each successful link CAS, `accepted` at each push that returned true,
      `delivered` at each successful `m_out` CAS, `returned` at each pop that returned true. */
  datatype Log = Log(linked: seq<int>, accepted: seq<int>, delivered: seq<int>, returned: seq<int>)

  datatype State = State(
    id: nat, tail: Ptr, head: Ptr, free: Ptr, mem: seq<Node>,
    producers: seq<Producer>, consumers: seq<Consumer>, log: Log)

  datatype Move = Produce(p: nat, v: int) | Consume(c: nat)

  // ---------------------------------------------------------------- initial state

  /** The free chain that construction builds: node i points at node i+1 with tag i+1, the last one at nothing. */
  function FreshMem(max: nat): seq<Node> {
    seq(max, i requires 0 <= i < max => Node(if i + 1 < max then At(i + 1, i + 1) else Null, 0))
  }

  /** The constructor: build the chain, then allocate node 0 as the dummy both ends start at. */
  function Init(max: nat, producers: nat, consumers: nat): State
    requires max >= 1
  {
    State(max - 1, At(0, 0), At(0, 0), FreshMem(max)[0].next, FreshMem(max)[0 := Node(Null, 0)],
          seq(producers, _ => Ready), seq(consumers, _ => Idle), Log([], [], [], []))
  }

  // ---------------------------------------------------------------- steps

  predicate InMem(s: State, p: Ptr) {
    p.At? && p.node < |s.mem|
  }

  function SetP(s: State, p: nat, to: Producer): State
    requires p < |s.producers|
  {
    s.(producers := s.producers[p := to])
  }

  function SetC(s: State, c: nat, to: Consumer): State
    requires c < |s.consumers|
  {
    s.(consumers := s.consumers[c := to])
  }

  /** One step of producer `p`; `v` is the argument if it is about to call push. */
  function ProducerStep(s: State, p: nat, v: int): State
    requires p < |s.producers|
  {
    match s.producers[p]
    case Ready => SetP(s, p, AllocRead(v))
    case AllocRead(v) =>
      if s.free.Null? then SetP(s, p, Ready) else SetP(s, p, AllocTop(v, s.free))
    case AllocTop(v, was) =>
      if InMem(s, s.free) then SetP(s, p, AllocNext(v, was, s.free.node)) else SetP(s, p, PushFault)
    case AllocNext(v, was, top) =>
      if top < |s.mem| then SetP(s, p, AllocCas(v, was, s.mem[top].next)) else SetP(s, p, PushFault)
    case AllocCas(v, was, after) =>
      if s.free != was then SetP(s, p, AllocRead(v))
      else if was.Null? then SetP(s, p, PushFault)
      else SetP(s, p, AllocClear(v, was.node)).(free := after)
    case AllocClear(v, node) =>
      if node < |s.mem| then SetP(s, p, SetData(v, node)).(mem := s.mem[node := s.mem[node].(next := Null)])
      else SetP(s, p, PushFault)
    case SetData(v, node) =>
      if node < |s.mem| then SetP(s, p, SetNext(v, node)).(mem := s.mem[node := s.mem[node].(data := v)])
      else SetP(s, p, PushFault)
    case SetNext(v, node) =>
      if node < |s.mem| then SetP(s, p, TakeId(v, node)).(mem := s.mem[node := s.mem[node].(next := Null)])
      else SetP(s, p, PushFault)
    case TakeId(v, node) =>
      SetP(s, p, TailRead(v, At(s.id, node))).(id := s.id + 1)
    case TailRead(v, mine) =>
      SetP(s, p, TailNext(v, mine, s.tail))
    case TailNext(v, mine, tail) =>
      if !InMem(s, tail) then SetP(s, p, PushFault)
      else
        var after := s.mem[tail.node].next;
        if after.Null? then SetP(s, p, Link(v, mine, tail)) else SetP(s, p, TailHelp(v, mine, tail, after))
    case TailHelp(v, mine, tail, after) =>
      SetP(s, p, Link(v, mine, tail)).(tail := if s.tail == tail then after else s.tail)
    case Link(v, mine, tail) =>
      if !InMem(s, tail) then SetP(s, p, PushFault)
      else if s.mem[tail.node].next != Null then SetP(s, p, TailRead(v, mine))
      else SetP(s, p, Swing(v, mine, tail))
           .(mem := s.mem[tail.node := s.mem[tail.node].(next := mine)],
             log := s.log.(linked := s.log.linked + [v]))
    case Swing(v, mine, tail) =>
      SetP(s, p, Ready).(tail := if s.tail == tail then mine else s.tail,
                         log := s.log.(accepted := s.log.accepted + [v]))
    case PushFault => s
  }

  /** One step of consumer `c`. */
  function ConsumerStep(s: State, c: nat): State
    requires c < |s.consumers|
  {
    match s.consumers[c]
    case Idle => SetC(s, c, HeadRead)
    case HeadRead => SetC(s, c, HeadTail(s.head))
    case HeadTail(head) => SetC(s, c, HeadNext(head, s.tail))
    case HeadNext(head, tail) =>
      if !InMem(s, head) then SetC(s, c, PopFault)
      else
        var next := s.mem[head.node].next;
        if next.Null? then SetC(s, c, Idle)
        else if tail == head then SetC(s, c, HeadHelp(head, tail, next))
        else SetC(s, c, DataRead(head, next))
    case HeadHelp(head, tail, next) =>
      SetC(s, c, HeadRead).(tail := if s.tail == tail then next else s.tail)
    case DataRead(head, next) =>
      if InMem(s, next) then SetC(s, c, HeadCas(head, next, s.mem[next.node].data)) else SetC(s, c, PopFault)
    case HeadCas(head, next, data) =>
      if s.head != head then SetC(s, c, HeadRead)
      else if !InMem(s, head) then SetC(s, c, PopFault)
      else SetC(s, c, FreeId(head.node, data))
           .(head := next, log := s.log.(delivered := s.log.delivered + [data]))
    case FreeId(node, data) =>
      SetC(s, c, FreeRead(At(s.id, node), data)).(id := s.id + 1)
    case FreeRead(mine, data) =>
      SetC(s, c, FreeNext(mine, s.free, data))
    case FreeNext(mine, was, data) =>
      if InMem(s, mine)
      then SetC(s, c, FreeCas(mine, was, data)).(mem := s.mem[mine.node := s.mem[mine.node].(next := was)])
      else SetC(s, c, PopFault)
    case FreeCas(mine, was, data) =>
      if s.free != was then SetC(s, c, FreeRead(mine, data))
      else SetC(s, c, Idle).(free := mine, log := s.log.(returned := s.log.returned + [data]))
    case PopFault => s
  }

  /** Any thread may take its next step; a move of a thread that does not exist changes nothing. */
  function Next(s: State, m: Move): State {
    match m
    case Produce(p, v) => if p < |s.producers| then ProducerStep(s, p, v) else s
    case Consume(c) => if c < |s.consumers| then ConsumerStep(s, c) else s
  }

  /** A run: each state is one thread's step away from the one before. */
  ghost predicate Path(states: seq<State>) {
    |states| >= 1 && forall i, j | 0 <= i && j == i + 1 < |states| :: Step(states[i], states[j])
  }

  ghost predicate Step(s: State, s': State) {
    exists m :: s' == Next(s, m)
  }

  ghost predicate Reaches(s: State, s': State) {
    exists states :: Path(states) && states[0] == s && states[|states| - 1] == s'
  }

  lemma ReachesItself(s: State)
    ensures Reaches(s, s)
  {
    assert Path([s]);
  }

  // ---------------------------------------------------------------- what memory holds

  /** The nodes met by following `next` from `p`, at most `limit` of them. */
  function Chain(mem: seq<Node>, p: Ptr, limit: nat): seq<nat>
    decreases limit
  {
    if limit == 0 || p.Null? || p.node >= |mem| then []
    else [p.node] + Chain(mem, mem[p.node].next, limit - 1)
  }

  function QueueNodes(s: State): seq<nat> {
    Chain(s.mem, s.head, |s.mem|)
  }

  function FreeNodes(s: State): seq<nat> {
    Chain(s.mem, s.free, |s.mem|)
  }

  function DataOf(mem: seq<Node>, nodes: seq<nat>): seq<int>
    requires forall i | 0 <= i < |nodes| :: nodes[i] < |mem|
  {
    seq(|nodes|, i requires 0 <= i < |nodes| => mem[nodes[i]].data)
  }

  lemma {:induction false} ChainInMem(mem: seq<Node>, p: Ptr, limit: nat)
    ensures |Chain(mem, p, limit)| <= limit
    ensures forall i | 0 <= i < |Chain(mem, p, limit)| :: Chain(mem, p, limit)[i] < |mem|
    decreases limit
  {
    if limit == 0 || p.Null? || p.node >= |mem| {
    } else {
      ChainInMem(mem, mem[p.node].next, limit - 1);
    }
  }

  /** The values in the queue: the data of every node after the dummy that `m_out` points at. */
  function Contents(s: State): seq<int> {
    ChainInMem(s.mem, s.head, |s.mem|);
    if QueueNodes(s) == [] then [] else DataOf(s.mem, QueueNodes(s)[1..])
  }

  /** The node a producer has taken off the free chain and not yet linked. */
  function HeldByProducer(p: Producer): seq<nat> {
    match p
    case AllocClear(_, node) => [node]
    case SetData(_, node) => [node]
    case SetNext(_, node) => [node]
    case TakeId(_, node) => [node]
    case TailRead(_, mine) => if mine.At? then [mine.node] else []
    case TailNext(_, mine, _) => if mine.At? then [mine.node] else []
    case TailHelp(_, mine, _, _) => if mine.At? then [mine.node] else []
    case Link(_, mine, _) => if mine.At? then [mine.node] else []
    case _ => []
  }

  /** The node a consumer has taken off the queue and not yet released. */
  function HeldByConsumer(c: Consumer): seq<nat> {
    match c
    case FreeId(node, _) => [node]
    case FreeRead(mine, _) => if mine.At? then [mine.node] else []
    case FreeNext(mine, _, _) => if mine.At? then [mine.node] else []
    case FreeCas(mine, _, _) => if mine.At? then [mine.node] else []
    case _ => []
  }
}
