/**
 What every interleaving keeps when there is one producer and any number of consumers.

 `Shape` is the witness of the invariant: the history of every pointer `m_out` can ever hold, where in that
 history `m_out` stands, the free chain from its bottom up, and the one place each node is in.
 */
module LockFreeInvariant {
  import opened LockFreeSteps

  /** Where a node is: at height k of the free chain, at position i of the link history, with the producer
      (taken but not linked), or with consumer c (unlinked but not released). */
  datatype Place = Free(k: nat) | Queued(i: nat) | Held | Releasing(c: nat)

  datatype Shape = Shape(links: seq<Ptr>, front: nat, free: seq<nat>, place: seq<Place>, seen: seq<nat>) {
    function Last(): int { |links| - 1 }
  }

  ghost predicate LinksOk(s: State, h: Shape) {
    && |h.links| >= 1
    && h.front < |h.links|
    && (forall i | 0 <= i < |h.links| :: h.links[i].At? && h.links[i].node < |s.mem|)
    && (forall i, j | 0 <= i < j < |h.links| :: h.links[i].tag < h.links[j].tag)
    && (|s.mem| >= 2 ==> forall i | 0 <= i < |h.links| :: h.links[i].tag < s.id)
    && s.head == h.links[h.front]
  }

  /** `m_in` is the last link, or its predecessor while the producer has linked but not yet swung it. */
  ghost predicate TailOk(s: State, h: Shape)
    requires LinksOk(s, h) && |s.producers| == 1
  {
    || s.tail == h.links[h.Last()]
    || (s.producers[0].Swing? && h.front < h.Last() && s.tail == h.links[h.Last() - 1])
  }

  ghost predicate QueueOk(s: State, h: Shape)
    requires LinksOk(s, h) && |h.place| == |s.mem|
  {
    && (forall i | h.front <= i < |h.links| :: h.place[h.links[i].node] == Queued(i))
    && (forall i, j | h.front <= i && j == i + 1 < |h.links| :: s.mem[h.links[i].node].next == h.links[j])
    && s.mem[h.links[h.Last()].node].next == Null
    && |s.log.linked| == h.Last()
    && (forall i | h.front < i < |h.links| :: s.mem[h.links[i].node].data == s.log.linked[i - 1])
    && s.log.delivered == s.log.linked[..h.front]
  }

  ghost predicate FreeOk(s: State, h: Shape)
    requires |h.place| == |s.mem|
  {
    && (forall k | 0 <= k < |h.free| :: h.free[k] < |s.mem| && h.place[h.free[k]] == Free(k))
    && (|h.free| > 0 ==> s.mem[h.free[0]].next == Null)
    && (forall j, k | 0 <= j && k == j + 1 < |h.free| :: PointsTo(s.mem[h.free[k]].next, h.free[j]))
    && (if |h.free| == 0 then s.free == Null else PointsTo(s.free, h.free[|h.free| - 1]))
  }

  ghost predicate PlaceOk(s: State, h: Shape)
    requires |s.producers| == 1
  {
    && |h.place| == |s.mem|
    && forall n | 0 <= n < |s.mem| ::
        match h.place[n]
        case Free(k) => k < |h.free| && h.free[k] == n
        case Queued(i) => h.front <= i < |h.links| && h.links[i].At? && h.links[i].node == n
        case Held => HeldByProducer(s.producers[0]) == [n]
        case Releasing(c) => c < |s.consumers| && HeldByConsumer(s.consumers[c]) == [n]
  }

  ghost predicate MemOk(s: State) {
    forall n | 0 <= n < |s.mem| :: s.mem[n].next.Null? || s.mem[n].next.node < |s.mem|
  }

  ghost predicate IsHeld(s: State, h: Shape, node: nat) {
    node < |s.mem| && |h.place| == |s.mem| && h.place[node] == Held
  }

  /** The node being pushed is complete: tagged later than every link, holding v, followed by nothing. */
  ghost predicate Prepared(s: State, h: Shape, v: int, mine: Ptr) {
    && mine.At?
    && IsHeld(s, h, mine.node)
    && mine.tag < s.id
    && (forall i | 0 <= i < |h.links| :: h.links[i].At? && h.links[i].tag < mine.tag)
    && s.mem[mine.node] == Node(Null, v)
  }

  /** The head the allocator read is still on the free chain, so a second read of it cannot find it empty. */
  ghost predicate StillFree(s: State, h: Shape, was: Ptr) {
    was.At? && was.node < |s.mem| && |h.place| == |s.mem| && h.place[was.node].Free?
  }

  ghost predicate ProducerOk(s: State, h: Shape)
    requires |s.producers| == 1 && |h.links| >= 1
  {
    match s.producers[0]
    case Ready => true
    case AllocRead(_) => true
    case AllocTop(_, was) => StillFree(s, h, was)
    case AllocNext(_, was, top) => StillFree(s, h, was) && top < |s.mem| && (s.free == was ==> top == was.node)
    case AllocCas(_, was, after) => StillFree(s, h, was) && (s.free == was ==> after == s.mem[was.node].next)
    case AllocClear(_, node) => IsHeld(s, h, node)
    case SetData(_, node) => IsHeld(s, h, node)
    case SetNext(v, node) => IsHeld(s, h, node) && s.mem[node].data == v
    case TakeId(v, node) => IsHeld(s, h, node) && s.mem[node] == Node(Null, v)
    case TailRead(v, mine) => Prepared(s, h, v, mine)
    case TailNext(v, mine, tail) => Prepared(s, h, v, mine) && tail == h.links[h.Last()]
    case TailHelp(_, _, _, _) => false
    case Link(v, mine, tail) => Prepared(s, h, v, mine) && tail == h.links[h.Last()]
    case Swing(v, mine, tail) =>
      && h.Last() >= 1
      && tail == h.links[h.Last() - 1] && mine == h.links[h.Last()]
      && |s.log.linked| == h.Last() && s.log.linked[h.Last() - 1] == v
    case PushFault => false
  }

  /** The value `m_out` had when consumer c read it is entry `seen[c]` of the link history. */
  ghost predicate Snapshot(s: State, h: Shape, c: nat, head: Ptr) {
    && c < |h.seen|
    && h.seen[c] <= h.front < |h.links|
    && head == h.links[h.seen[c]]
    && (|s.consumers| == 1 ==> h.seen[c] == h.front)
  }

  /** If `m_out` has not moved since then, `next` is the link after it and there is a value behind it. */
  ghost predicate NextIfCurrent(s: State, h: Shape, c: nat, next: Ptr)
    requires c < |h.seen|
  {
    && InMem(s, next)
    && (h.seen[c] == h.front ==> h.front + 1 < |h.links| && next == h.links[h.front + 1])
  }

  ghost predicate IsReleasing(s: State, h: Shape, c: nat, node: nat) {
    node < |s.mem| && |h.place| == |s.mem| && h.place[node] == Releasing(c)
  }

  ghost predicate ConsumerOk(s: State, h: Shape, c: nat)
    requires c < |s.consumers|
  {
    match s.consumers[c]
    case Idle => true
    case HeadRead => true
    case HeadTail(head) => Snapshot(s, h, c, head)
    case HeadNext(head, tail) =>
      Snapshot(s, h, c, head) && (h.seen[c] == h.front && tail != head ==> s.tail != s.head)
    case HeadHelp(head, tail, next) =>
      Snapshot(s, h, c, head) && tail == head && NextIfCurrent(s, h, c, next)
    case DataRead(head, next) =>
      && Snapshot(s, h, c, head) && NextIfCurrent(s, h, c, next)
      && (h.seen[c] == h.front ==> s.tail != s.head)
    case HeadCas(head, next, data) =>
      && Snapshot(s, h, c, head) && NextIfCurrent(s, h, c, next)
      && (h.seen[c] == h.front ==> s.tail != s.head)
      && (h.seen[c] == h.front ==> h.front < |s.log.linked| && data == s.log.linked[h.front])
    case FreeId(node, _) => IsReleasing(s, h, c, node)
    case FreeRead(mine, _) => mine.At? && IsReleasing(s, h, c, mine.node)
    case FreeNext(mine, was, _) => mine.At? && IsReleasing(s, h, c, mine.node) && (was.Null? || InMem(s, was))
    case FreeCas(mine, was, _) =>
      mine.At? && IsReleasing(s, h, c, mine.node) && s.mem[mine.node].next == was
    case PopFault => false
  }

  /** The value a consumer has already unlinked but not yet returned. */
  function Unreturned(c: Consumer): seq<int> {
    match c
    case FreeId(_, data) => [data]
    case FreeRead(_, data) => [data]
    case FreeNext(_, _, data) => [data]
    case FreeCas(_, _, data) => [data]
    case _ => []
  }

  /** The value the producer has linked but not yet reported as accepted. */
  function Unaccepted(p: Producer): seq<int> {
    if p.Swing? then [p.v] else []
  }

  ghost predicate LogOk(s: State)
    requires |s.producers| == 1
  {
    && s.log.linked == s.log.accepted + Unaccepted(s.producers[0])
    && (|s.consumers| == 1 ==> s.log.delivered == s.log.returned + Unreturned(s.consumers[0]))
  }

  ghost predicate Inv(s: State, h: Shape) {
    && |s.producers| == 1
    && |h.seen| == |s.consumers|
    && LinksOk(s, h) && TailOk(s, h)
    && PlaceOk(s, h) && QueueOk(s, h) && FreeOk(s, h) && MemOk(s)
    && ProducerOk(s, h)
    && (forall c | 0 <= c < |s.consumers| :: ConsumerOk(s, h, c))
    && LogOk(s)
  }

  // ---------------------------------------------------------------- initial state

  /** Node max-1 is at the bottom of the free chain, node 1 at its top. */
  function InitShape(max: nat, consumers: nat): Shape
    requires max >= 1
  {
    Shape([At(0, 0)], 0, seq(max - 1, k requires 0 <= k < max - 1 => max - 1 - k),
          seq(max, n requires 0 <= n < max => if n == 0 then Queued(0) else Free(max - 1 - n)),
          seq(consumers, _ => 0))
  }

  lemma InitHolds(max: nat, consumers: nat)
    requires max >= 1
    ensures Inv(Init(max, 1, consumers), InitShape(max, consumers))
  {
    var s, h := Init(max, 1, consumers), InitShape(max, consumers);
    InitMem(max, consumers);
    InitFree(max, consumers, s, h);
    InitPlace(max, consumers, s, h);
  }

  lemma InitPlace(max: nat, consumers: nat, s: State, h: Shape)
    requires max >= 1 && s == Init(max, 1, consumers) && h == InitShape(max, consumers)
    requires |s.mem| == max && s.mem[0] == Node(Null, 0)
    ensures LinksOk(s, h) && TailOk(s, h) && PlaceOk(s, h) && QueueOk(s, h)
  {
    assert h.links == [At(0, 0)];
    assert h.place[0] == Queued(0);
  }

  lemma InitMem(max: nat, consumers: nat)
    requires max >= 1
    ensures var mem := Init(max, 1, consumers).mem;
      && |mem| == max && mem[0] == Node(Null, 0)
      && forall n | 1 <= n < max :: mem[n] == Node(if n + 1 < max then At(n + 1, n + 1) else Null, 0)
  {
  }

  lemma InitFree(max: nat, consumers: nat, s: State, h: Shape)
    requires max >= 1 && s == Init(max, 1, consumers) && h == InitShape(max, consumers)
    requires |s.mem| == max
    requires forall n | 1 <= n < max :: s.mem[n] == Node(if n + 1 < max then At(n + 1, n + 1) else Null, 0)
    ensures |h.place| == max && FreeOk(s, h)
  {
    assert |h.free| == max - 1;
    forall j, k | 0 <= j && k == j + 1 < |h.free|
      ensures PointsTo(s.mem[h.free[k]].next, h.free[j])
    {
      assert h.free[k] == max - 1 - k;
      assert h.free[j] == max - 1 - j;
    }
  }

  /** The link history only grows, and `m_out` only moves forward in it. */
  ghost predicate Extends(h: Shape, h': Shape) {
    h.links <= h'.links && h.front <= h'.front
  }

  // ---------------------------------------------------------------- frames

  /** What a step must leave alone for consumer c not to notice it. */
  ghost predicate Unnoticed(s: State, h: Shape, s': State, h': Shape, c: nat)
    requires c < |s.consumers|
  {
    && |s'.consumers| == |s.consumers| && s'.consumers[c] == s.consumers[c]
    && |s'.mem| == |s.mem| == |h.place| == |h'.place|
    && h'.front == h.front && s'.head == s.head
    && h'.seen == h.seen
    && h.links <= h'.links
    && s.log.linked <= s'.log.linked
    && (s.tail != s.head ==> s'.tail != s'.head)
    && (forall n | 0 <= n < |s.mem| && h.place[n] == Releasing(c) ::
          h'.place[n] == Releasing(c) && s'.mem[n].next == s.mem[n].next)
  }

  lemma ConsumerFrame(s: State, h: Shape, s': State, h': Shape, c: nat)
    requires c < |s.consumers| && ConsumerOk(s, h, c) && Unnoticed(s, h, s', h', c)
    ensures ConsumerOk(s', h', c)
  {
  }

  lemma OthersFrame(s: State, h: Shape, s': State, h': Shape, except: int)
    requires forall c | 0 <= c < |s.consumers| :: ConsumerOk(s, h, c)
    requires |s'.consumers| == |s.consumers|
    requires forall c | 0 <= c < |s.consumers| && c != except :: Unnoticed(s, h, s', h', c)
    ensures forall c | 0 <= c < |s.consumers| && c != except :: ConsumerOk(s', h', c)
  {
    forall c | 0 <= c < |s.consumers| && c != except
      ensures ConsumerOk(s', h', c)
    {
      ConsumerFrame(s, h, s', h', c);
    }
  }

  /** What a consumer's step must leave alone for the producer not to notice it. */
  ghost predicate ProducerUnaware(s: State, h: Shape, s': State, h': Shape) {
    && s'.producers == s.producers && |s.producers| == 1
    && |s'.mem| == |s.mem| == |h.place| == |h'.place|
    && s.id <= s'.id
    && h'.links == h.links && s'.log.linked == s.log.linked
    && (forall n | 0 <= n < |s.mem| && h.place[n] == Held :: h'.place[n] == Held && s'.mem[n] == s.mem[n])
    && (forall n | 0 <= n < |s.mem| && h.place[n].Free? :: h'.place[n].Free? && s'.mem[n] == s.mem[n])
    && (s'.free == s.free || (InMem(s, s'.free) && !h.place[s'.free.node].Free?))
  }

  lemma ProducerFrame(s: State, h: Shape, s': State, h': Shape)
    requires ProducerUnaware(s, h, s', h') && |h.links| >= 1 && ProducerOk(s, h)
    ensures ProducerOk(s', h')
  {
  }

  /** Writing a node that is on neither chain changes neither chain. */
  lemma PrivateWrite(s: State, h: Shape, s': State, node: nat)
    requires LinksOk(s, h) && |h.place| == |s.mem| && QueueOk(s, h) && FreeOk(s, h) && MemOk(s)
    requires node < |s.mem| == |s'.mem| && (h.place[node].Held? || h.place[node].Releasing?)
    requires s'.mem == s.mem[node := s'.mem[node]]
    requires s'.mem[node].next.Null? || InMem(s, s'.mem[node].next)
    requires s'.id == s.id && s'.head == s.head && s'.free == s.free && s'.log == s.log
    ensures LinksOk(s', h) && QueueOk(s', h) && FreeOk(s', h) && MemOk(s')
  {
    PrivateQueue(s, h, s', node);
    PrivateFree(s, h, s', node);
  }

  lemma PrivateQueue(s: State, h: Shape, s': State, node: nat)
    requires LinksOk(s, h) && |h.place| == |s.mem| && QueueOk(s, h)
    requires node < |s.mem| == |s'.mem| && (h.place[node].Held? || h.place[node].Releasing?)
    requires s'.mem == s.mem[node := s'.mem[node]]
    requires s'.id == s.id && s'.head == s.head && s'.log == s.log
    ensures LinksOk(s', h) && QueueOk(s', h)
  {
    forall i | h.front <= i < |h.links| ensures s'.mem[h.links[i].node] == s.mem[h.links[i].node] {
      assert h.place[h.links[i].node] == Queued(i);
    }
  }

  lemma PrivateFree(s: State, h: Shape, s': State, node: nat)
    requires |h.place| == |s.mem| && FreeOk(s, h)
    requires node < |s.mem| == |s'.mem| && (h.place[node].Held? || h.place[node].Releasing?)
    requires s'.mem == s.mem[node := s'.mem[node]] && s'.free == s.free
    ensures FreeOk(s', h)
  {
    forall k | 0 <= k < |h.free| ensures s'.mem[h.free[k]] == s.mem[h.free[k]] {
      assert h.place[h.free[k]] == Free(k);
    }
  }

  // ---------------------------------------------------------------- producer steps

  lemma ProducerKeeps(s: State, h: Shape, v: int) returns (h': Shape)
    requires Inv(s, h)
    ensures Inv(ProducerStep(s, 0, v), h') && Extends(h, h')
  {
    match s.producers[0]
    case AllocCas(_, was, after) => h' := AllocCasKeeps(s, h, v);
    case Link(_, mine, tail) => h' := LinkKeeps(s, h, v);
    case AllocClear(_, node) => h' := h; WriteKeeps(s, h, v);
    case SetData(_, node) => h' := h; WriteKeeps(s, h, v);
    case SetNext(_, node) => h' := h; WriteKeeps(s, h, v);
    case TakeId(_, node) => h' := h; TakeIdKeeps(s, h, v);
    case Swing(_, mine, tail) => h' := h; SwingKeeps(s, h, v);
    case _ => h' := h; ReadKeeps(s, h, v);
  }

  lemma ReadKeeps(s: State, h: Shape, v: int)
    requires Inv(s, h)
    requires match s.producers[0]
      case Ready => true
      case AllocRead(_) => true
      case AllocTop(_, _) => true
      case AllocNext(_, _, _) => true
      case TailRead(_, _) => true
      case TailNext(_, _, _) => true
      case TailHelp(_, _, _, _) => true
      case PushFault => true
      case _ => false
    ensures Inv(ProducerStep(s, 0, v), h)
  {
    var s' := ProducerStep(s, 0, v);
    ReadStep(s, h, v);
    OthersFrame(s, h, s', h, -1);
    ReadPlaces(s, h, s');
    ReadLinks(s, h, s');
  }

  lemma ReadStep(s: State, h: Shape, v: int)
    requires |s.producers| == 1 && LinksOk(s, h) && TailOk(s, h) && PlaceOk(s, h) && QueueOk(s, h)
    requires FreeOk(s, h) && ProducerOk(s, h)
    requires match s.producers[0]
      case Ready => true
      case AllocRead(_) => true
      case AllocTop(_, _) => true
      case AllocNext(_, _, _) => true
      case TailRead(_, _) => true
      case TailNext(_, _, _) => true
      case TailHelp(_, _, _, _) => true
      case PushFault => true
      case _ => false
    ensures var s' := ProducerStep(s, 0, v);
      && |s'.producers| == 1 && s' == s.(producers := [s'.producers[0]])
      && HeldByProducer(s'.producers[0]) == HeldByProducer(s.producers[0])
      && !s'.producers[0].Swing? && !s.producers[0].Swing?
      && ProducerOk(s', h)
  {
    if |h.free| > 0 {
      assert h.place[h.free[|h.free| - 1]] == Free(|h.free| - 1);
    }
  }

  lemma ReadPlaces(s: State, h: Shape, s': State)
    requires |s.producers| == 1 && |s'.producers| == 1 && |s'.mem| == |s.mem| && s'.consumers == s.consumers
    requires HeldByProducer(s'.producers[0]) == HeldByProducer(s.producers[0])
    requires PlaceOk(s, h)
    ensures PlaceOk(s', h)
  {
  }

  lemma ReadLinks(s: State, h: Shape, s': State)
    requires |s.producers| == 1 && |s'.producers| == 1 && s' == s.(producers := [s'.producers[0]])
    requires !s'.producers[0].Swing? && !s.producers[0].Swing?
    requires LinksOk(s, h) && TailOk(s, h) && |h.place| == |s.mem|
    requires QueueOk(s, h) && FreeOk(s, h) && MemOk(s) && LogOk(s)
    ensures LinksOk(s', h) && TailOk(s', h) && QueueOk(s', h) && FreeOk(s', h) && MemOk(s') && LogOk(s')
  {
  }

  lemma WriteKeeps(s: State, h: Shape, v: int)
    requires Inv(s, h) && (s.producers[0].AllocClear? || s.producers[0].SetData? || s.producers[0].SetNext?)
    ensures Inv(ProducerStep(s, 0, v), h)
  {
    var s' := ProducerStep(s, 0, v);
    WriteStep(s, h, v);
    PrivateWrite(s, h, s', s.producers[0].node);
    ReadPlaces(s, h, s');
    OthersFrame(s, h, s', h, -1);
  }

  lemma WriteStep(s: State, h: Shape, v: int)
    requires |s.producers| == 1 && |h.links| >= 1 && MemOk(s) && ProducerOk(s, h)
    requires s.producers[0].AllocClear? || s.producers[0].SetData? || s.producers[0].SetNext?
    ensures var s' := ProducerStep(s, 0, v);
      var node := s.producers[0].node;
      && IsHeld(s, h, node)
      && |s'.producers| == 1 && |s'.mem| == |s.mem|
      && s' == s.(producers := [s'.producers[0]], mem := s.mem[node := s'.mem[node]])
      && (s'.mem[node].next.Null? || InMem(s, s'.mem[node].next))
      && HeldByProducer(s'.producers[0]) == HeldByProducer(s.producers[0]) && !s'.producers[0].Swing?
      && ProducerOk(s', h)
  {
    var node := s.producers[0].node;
    assert s.mem[node].next.Null? || s.mem[node].next.node < |s.mem|;
  }

  lemma TakeIdKeeps(s: State, h: Shape, v: int)
    requires Inv(s, h) && s.producers[0].TakeId?
    ensures Inv(ProducerStep(s, 0, v), h)
  {
    OthersFrame(s, h, ProducerStep(s, 0, v), h, -1);
    TakeIdLinks(s, h, v);
    TakeIdPrepares(s, h, v);
  }

  lemma TakeIdLinks(s: State, h: Shape, v: int)
    requires |s.producers| == 1 && s.producers[0].TakeId? && LinksOk(s, h) && TailOk(s, h) && PlaceOk(s, h)
    ensures var s' := ProducerStep(s, 0, v); LinksOk(s', h) && TailOk(s', h) && PlaceOk(s', h)
  {
  }

  /** The dummy and the node being pushed are two different nodes, so the counter is past every link's tag. */
  lemma TakeIdPrepares(s: State, h: Shape, v: int)
    requires |s.producers| == 1 && s.producers[0].TakeId? && LinksOk(s, h) && |h.place| == |s.mem| && QueueOk(s, h)
    requires ProducerOk(s, h)
    ensures ProducerOk(ProducerStep(s, 0, v), h)
  {
    assert h.place[h.links[h.front].node] == Queued(h.front);
  }

  lemma SwingKeeps(s: State, h: Shape, v: int)
    requires Inv(s, h) && s.producers[0].Swing?
    ensures Inv(ProducerStep(s, 0, v), h)
  {
    OthersFrame(s, h, ProducerStep(s, 0, v), h, -1);
  }

  /** The old head is off the chain, and what the CAS stored is the chain without it. */
  lemma AllocCasKeeps(s: State, h: Shape, v: int) returns (h': Shape)
    requires Inv(s, h) && s.producers[0].AllocCas?
    ensures Inv(ProducerStep(s, 0, v), h') && Extends(h, h')
  {
    var was := s.producers[0].was;
    var s' := ProducerStep(s, 0, v);
    if s.free != was {
      h' := h;
      ReadPlaces(s, h, s');
      ReadLinks(s, h, s');
      OthersFrame(s, h, s', h', -1);
    } else {
      h' := h.(free := h.free[..|h.free| - 1], place := h.place[was.node := Held]);
      assert Allocate(s, h, s', h');
      AllocateKeeps(s, h, s', h');
    }
  }

  lemma AllocateKeeps(s: State, h: Shape, s': State, h': Shape)
    requires Inv(s, h) && Allocate(s, h, s', h')
    ensures Inv(s', h') && Extends(h, h')
  {
    AllocatedPlaces(s, h, s', h');
    OthersFrame(s, h, s', h', -1);
  }

  ghost predicate Allocate(s: State, h: Shape, s': State, h': Shape) {
    && |s.producers| == 1 && s.producers[0].AllocCas? && |h.free| >= 1 && |h.place| == |s.mem|
    && var node := h.free[|h.free| - 1];
    && InMem(s, s.free) && s.free.node == node && h.place[node] == Free(|h.free| - 1)
    && s' == s.(free := s.mem[node].next, producers := [AllocClear(s.producers[0].v, node)])
    && h' == h.(free := h.free[..|h.free| - 1], place := h.place[node := Held])
  }

  lemma AllocatedPlaces(s: State, h: Shape, s': State, h': Shape)
    requires Inv(s, h) && Allocate(s, h, s', h')
    ensures LinksOk(s', h') && TailOk(s', h') && PlaceOk(s', h') && QueueOk(s', h') && FreeOk(s', h')
  {
    AllocatedFree(s, h, s', h');
    AllocatedQueue(s, h, s', h');
    AllocatedPlace(s, h, s', h');
  }

  lemma AllocatedFree(s: State, h: Shape, s': State, h': Shape)
    requires Allocate(s, h, s', h') && FreeOk(s, h)
    ensures FreeOk(s', h')
  {
    assert forall k | 0 <= k < |h'.free| :: h'.free[k] == h.free[k];
    forall k | 0 <= k < |h'.free| ensures h'.place[h'.free[k]] == Free(k) {
      assert h.place[h.free[k]] == Free(k);
    }
  }

  lemma AllocatedQueue(s: State, h: Shape, s': State, h': Shape)
    requires Allocate(s, h, s', h') && LinksOk(s, h) && QueueOk(s, h)
    ensures LinksOk(s', h') && QueueOk(s', h')
  {
    forall i | h.front <= i < |h.links| ensures h'.place[h.links[i].node] == Queued(i) {
      assert h.place[h.links[i].node] == Queued(i);
    }
  }

  lemma AllocatedPlace(s: State, h: Shape, s': State, h': Shape)
    requires Allocate(s, h, s', h') && PlaceOk(s, h)
    ensures PlaceOk(s', h')
  {
  }

  /** With a single producer the tail it read is still the last node, so the link CAS succeeds. */
  lemma LinkKeeps(s: State, h: Shape, v: int) returns (h': Shape)
    requires Inv(s, h) && s.producers[0].Link?
    ensures Inv(ProducerStep(s, 0, v), h') && Extends(h, h')
  {
    var mine := s.producers[0].mine;
    var s' := ProducerStep(s, 0, v);
    h' := h.(links := h.links + [mine], place := h.place[mine.node := Queued(|h.links|)]);
    LinkedPlaces(s, h, s', h');
    OthersFrame(s, h, s', h', -1);
  }

  lemma LinkedPlaces(s: State, h: Shape, s': State, h': Shape)
    requires Inv(s, h) && s.producers[0].Link? && s' == ProducerStep(s, 0, 0)
    requires var mine := s.producers[0].mine;
      h' == h.(links := h.links + [mine], place := h.place[mine.node := Queued(|h.links|)])
    ensures LinksOk(s', h') && TailOk(s', h') && PlaceOk(s', h') && QueueOk(s', h') && FreeOk(s', h')
  {
    var mine := s.producers[0].mine;
    var last := h.links[h.Last()].node;
    assert h.place[last] == Queued(h.Last());
    assert s'.mem == s.mem[last := s.mem[last].(next := mine)];
    LinkedLinks(s, h, s', h');
    LinkedQueue(s, h, s', h');
    LinkedRest(s, h, s', h');
  }

  lemma LinkedLinks(s: State, h: Shape, s': State, h': Shape)
    requires |s.producers| == 1 && LinksOk(s, h) && ProducerOk(s, h)
    requires s.producers[0].Link? && s' == ProducerStep(s, 0, 0)
    requires h' == h.(links := h.links + [s.producers[0].mine], place := h'.place)
    ensures LinksOk(s', h')
  {
    var mine := s.producers[0].mine;
    forall i | 0 <= i < |h'.links| ensures h'.links[i].At? && h'.links[i].node < |s'.mem| && h'.links[i].tag < s.id {
      if i < |h.links| { assert h'.links[i] == h.links[i]; }
    }
  }

  lemma LinkedQueue(s: State, h: Shape, s': State, h': Shape)
    requires |s.producers| == 1 && LinksOk(s, h) && LinksOk(s', h') && |h.place| == |s.mem| && QueueOk(s, h)
    requires s.producers[0].Link? && |s'.mem| == |h'.place| == |s.mem|
    requires var v, mine, last := s.producers[0].v, s.producers[0].mine, h.links[h.Last()].node;
      && mine.At? && IsHeld(s, h, mine.node) && s.mem[mine.node] == Node(Null, v)
      && h'.links == h.links + [mine] && h'.place == h.place[mine.node := Queued(|h.links|)]
      && h'.front == h.front
      && s'.mem == s.mem[last := s.mem[last].(next := mine)]
      && s'.log.linked == s.log.linked + [v] && s'.log.delivered == s.log.delivered
    ensures QueueOk(s', h')
  {
    assert forall i | 0 <= i < |h.links| :: h'.links[i] == h.links[i];
    var last := h.links[h.Last()].node;
    forall i, j | h.front <= i && j == i + 1 < |h'.links|
      ensures s'.mem[h'.links[i].node].next == h'.links[j]
    {
      assert h.place[h.links[i].node] == Queued(i);
      assert h.place[last] == Queued(h.Last());
    }
    assert s'.log.linked[..h.front] == s.log.linked[..h.front];
  }

  lemma LinkedRest(s: State, h: Shape, s': State, h': Shape)
    requires |s.producers| == 1 && LinksOk(s, h) && TailOk(s, h) && PlaceOk(s, h) && FreeOk(s, h) && ProducerOk(s, h)
    requires s.producers[0].Link? && s' == ProducerStep(s, 0, 0)
    requires var mine := s.producers[0].mine;
      h' == h.(links := h.links + [mine], place := h.place[mine.node := Queued(|h.links|)])
    requires LinksOk(s', h') && s.mem[h.links[h.Last()].node].next == Null
    requires h.place[h.links[h.Last()].node].Queued?
    ensures TailOk(s', h') && PlaceOk(s', h') && FreeOk(s', h')
  {
    LinkedTail(s, h, s', h');
    LinkedPlaceOk(s, h, s', h');
    LinkedFree(s, h, s', h');
  }

  lemma LinkedTail(s: State, h: Shape, s': State, h': Shape)
    requires |s.producers| == 1 && LinksOk(s, h) && TailOk(s, h) && ProducerOk(s, h)
    requires s.producers[0].Link? && s' == ProducerStep(s, 0, 0)
    requires h'.links == h.links + [s.producers[0].mine] && h'.front == h.front
    requires LinksOk(s', h') && s.mem[h.links[h.Last()].node].next == Null
    ensures TailOk(s', h')
  {
  }

  lemma LinkedPlaceOk(s: State, h: Shape, s': State, h': Shape)
    requires |s.producers| == 1 && LinksOk(s, h) && PlaceOk(s, h) && ProducerOk(s, h)
    requires s.producers[0].Link? && s' == ProducerStep(s, 0, 0)
    requires var mine := s.producers[0].mine;
      h' == h.(links := h.links + [mine], place := h.place[mine.node := Queued(|h.links|)])
    requires LinksOk(s', h') && s.mem[h.links[h.Last()].node].next == Null
    ensures PlaceOk(s', h')
  {
    assert forall i | 0 <= i < |h.links| :: h'.links[i] == h.links[i];
  }

  lemma LinkedFree(s: State, h: Shape, s': State, h': Shape)
    requires |s.producers| == 1 && LinksOk(s, h) && |h.place| == |s.mem| && FreeOk(s, h) && ProducerOk(s, h)
    requires s.producers[0].Link? && s' == ProducerStep(s, 0, 0)
    requires h'.free == h.free && h'.place == h.place[s.producers[0].mine.node := Queued(|h.links|)]
    requires h.place[h.links[h.Last()].node].Queued?
    ensures FreeOk(s', h')
  {
    forall k | 0 <= k < |h.free| ensures h'.place[h.free[k]] == Free(k) && s'.mem[h.free[k]] == s.mem[h.free[k]] {
      assert h.place[h.free[k]] == Free(k);
    }
  }

  // ---------------------------------------------------------------- consumer steps

  lemma ConsumerKeeps(s: State, h: Shape, c: nat) returns (h': Shape)
    requires Inv(s, h) && c < |s.consumers|
    ensures Inv(ConsumerStep(s, c), h') && Extends(h, h')
  {
    match s.consumers[c]
    case HeadRead => h' := h.(seen := h.seen[c := h.front]); HeadReadKeeps(s, h, c, h');
    case HeadHelp(_, _, _) => h' := h; HeadHelpKeeps(s, h, c);
    case HeadCas(_, _, _) => h' := HeadCasKeeps(s, h, c);
    case FreeNext(_, _, _) => h' := h; FreeNextKeeps(s, h, c);
    case FreeCas(_, _, _) => h' := FreeCasKeeps(s, h, c);
    case _ => h' := h; LocalKeeps(s, h, c);
  }

  /** Steps that write no shared memory other than the tag counter. */
  lemma LocalKeeps(s: State, h: Shape, c: nat)
    requires Inv(s, h) && c < |s.consumers|
    requires match s.consumers[c]
      case HeadRead => false
      case HeadHelp(_, _, _) => false
      case HeadCas(_, _, _) => false
      case FreeNext(_, _, _) => false
      case FreeCas(_, _, _) => false
      case _ => true
    ensures Inv(ConsumerStep(s, c), h)
  {
    LocalStep(s, h, c);
    LocalRest(s, h, c, ConsumerStep(s, c));
  }

  lemma LocalRest(s: State, h: Shape, c: nat, s': State)
    requires |s.producers| == 1 && c < |s.consumers| == |s'.consumers|
    requires s' == s.(consumers := s.consumers[c := s'.consumers[c]], id := s'.id) && s.id <= s'.id
    requires HeldByConsumer(s'.consumers[c]) == HeldByConsumer(s.consumers[c])
    requires Unreturned(s'.consumers[c]) == Unreturned(s.consumers[c])
    requires Inv(s, h) && ConsumerOk(s', h, c)
    ensures Inv(s', h)
  {
    OthersFrame(s, h, s', h, c);
    ProducerFrame(s, h, s', h);
    LocalShared(s, h, c, s');
  }

  lemma LocalShared(s: State, h: Shape, c: nat, s': State)
    requires |s.producers| == 1 && c < |s.consumers| == |s'.consumers|
    requires s' == s.(consumers := s.consumers[c := s'.consumers[c]], id := s'.id) && s.id <= s'.id
    requires HeldByConsumer(s'.consumers[c]) == HeldByConsumer(s.consumers[c])
    requires Unreturned(s'.consumers[c]) == Unreturned(s.consumers[c])
    requires LinksOk(s, h) && TailOk(s, h) && PlaceOk(s, h) && QueueOk(s, h) && FreeOk(s, h) && LogOk(s)
    ensures LinksOk(s', h) && TailOk(s', h) && PlaceOk(s', h) && QueueOk(s', h) && FreeOk(s', h) && LogOk(s')
  {
    LocalPlaces(s, h, c, s');
    LocalLinks(s, h, s');
  }

  lemma LocalPlaces(s: State, h: Shape, c: nat, s': State)
    requires |s.producers| == 1 && c < |s.consumers| == |s'.consumers|
    requires s'.consumers == s.consumers[c := s'.consumers[c]]
    requires s'.producers == s.producers && |s'.mem| == |s.mem|
    requires HeldByConsumer(s'.consumers[c]) == HeldByConsumer(s.consumers[c])
    requires PlaceOk(s, h)
    ensures PlaceOk(s', h)
  {
    forall n | 0 <= n < |s.mem| && h.place[n].Releasing?
      ensures HeldByConsumer(s'.consumers[h.place[n].c]) == [n]
    {
      assert HeldByConsumer(s.consumers[h.place[n].c]) == [n];
    }
  }

  lemma LocalLinks(s: State, h: Shape, s': State)
    requires |s.producers| == 1 && LinksOk(s, h) && |h.place| == |s.mem|
    requires TailOk(s, h) && QueueOk(s, h) && FreeOk(s, h)
    requires s' == s.(consumers := s'.consumers, id := s'.id) && s.id <= s'.id
    ensures LinksOk(s', h) && TailOk(s', h) && QueueOk(s', h) && FreeOk(s', h)
  {
  }

  lemma LocalStep(s: State, h: Shape, c: nat)
    requires Inv(s, h) && c < |s.consumers|
    requires match s.consumers[c]
      case HeadRead => false
      case HeadHelp(_, _, _) => false
      case HeadCas(_, _, _) => false
      case FreeNext(_, _, _) => false
      case FreeCas(_, _, _) => false
      case _ => true
    ensures var s' := ConsumerStep(s, c);
      && s.id <= s'.id && |s'.consumers| == |s.consumers|
      && s' == s.(consumers := s.consumers[c := s'.consumers[c]], id := s'.id)
    ensures ConsumerOk(ConsumerStep(s, c), h, c)
    ensures HeldByConsumer(ConsumerStep(s, c).consumers[c]) == HeldByConsumer(s.consumers[c])
    ensures Unreturned(ConsumerStep(s, c).consumers[c]) == Unreturned(s.consumers[c])
  {
    assert ConsumerOk(s, h, c);
    if s.consumers[c].HeadNext? {
      HeadNextStep(s, h, c);
    } else if s.consumers[c].FreeRead? && s.free.At? {
      assert h.place[h.free[|h.free| - 1]] == Free(|h.free| - 1);
    }
  }

  /** A head that is still current is followed by the next link, or by nothing exactly at the last node. */
  lemma HeadNextStep(s: State, h: Shape, c: nat)
    requires Inv(s, h) && c < |s.consumers| && s.consumers[c].HeadNext?
    ensures ConsumerOk(ConsumerStep(s, c), h, c)
    ensures h.seen[c] == h.front ==> (ConsumerStep(s, c).consumers[c].Idle? <==> h.front == h.Last())
  {
    assert ConsumerOk(s, h, c);
    var head := s.consumers[c].head;
    assert s.mem[head.node].next.Null? || s.mem[head.node].next.node < |s.mem|;
    if h.seen[c] == h.front && h.front < h.Last() {
      assert s.mem[h.links[h.front].node].next == h.links[h.front + 1];
    }
  }

  lemma HeadReadKeeps(s: State, h: Shape, c: nat, h': Shape)
    requires Inv(s, h) && c < |s.consumers| && s.consumers[c].HeadRead?
    requires h' == h.(seen := h.seen[c := h.front])
    ensures Inv(ConsumerStep(s, c), h')
  {
    ReseenThreads(s, h, c, h');
    ReseenChains(s, h, h');
    ReseenPlaces(s, h, h');
    LocalRest(s, h', c, ConsumerStep(s, c));
  }

  // `seen` matters only to the consumer it belongs to.

  lemma ReseenThreads(s: State, h: Shape, c: nat, h': Shape)
    requires Inv(s, h) && c < |s.consumers| && s.consumers[c].HeadRead?
    requires h' == h.(seen := h.seen[c := h.front])
    ensures forall d | 0 <= d < |s.consumers| :: ConsumerOk(s, h', d)
    ensures ProducerOk(s, h')
  {
    forall d | 0 <= d < |s.consumers| ensures ConsumerOk(s, h', d) {
      assert ConsumerOk(s, h, d);
    }
    ProducerFrame(s, h, s, h');
  }

  lemma ReseenChains(s: State, h: Shape, h': Shape)
    requires |s.producers| == 1 && h' == h.(seen := h'.seen)
    requires LinksOk(s, h) && |h.place| == |s.mem| && QueueOk(s, h) && TailOk(s, h)
    ensures LinksOk(s, h') && QueueOk(s, h') && TailOk(s, h')
  {
  }

  lemma ReseenPlaces(s: State, h: Shape, h': Shape)
    requires |s.producers| == 1 && h' == h.(seen := h'.seen)
    requires PlaceOk(s, h) && FreeOk(s, h)
    ensures PlaceOk(s, h') && FreeOk(s, h')
  {
  }

  /** Helping moves `m_in` only if it is current, and then only onto the node the producer has just linked. */
  lemma HeadHelpKeeps(s: State, h: Shape, c: nat)
    requires Inv(s, h) && c < |s.consumers| && s.consumers[c].HeadHelp?
    ensures Inv(ConsumerStep(s, c), h)
  {
    HelpedTail(s, h, c);
    HelpOthers(s, h, c);
    HelpPlaces(s, h, c);
  }

  lemma HelpOthers(s: State, h: Shape, c: nat)
    requires Inv(s, h) && c < |s.consumers| && s.consumers[c].HeadHelp?
    requires s.tail != s.head ==> ConsumerStep(s, c).tail != s.head
    ensures var s' := ConsumerStep(s, c);
      ProducerOk(s', h) && forall d | 0 <= d < |s.consumers| :: ConsumerOk(s', h, d)
  {
    var s' := ConsumerStep(s, c);
    OthersFrame(s, h, s', h, c);
    ProducerFrame(s, h, s', h);
  }

  lemma HelpPlaces(s: State, h: Shape, c: nat)
    requires |s.producers| == 1 && LinksOk(s, h) && TailOk(s, h) && PlaceOk(s, h) && QueueOk(s, h) && FreeOk(s, h)
    requires MemOk(s) && LogOk(s) && c < |s.consumers| && s.consumers[c].HeadHelp?
    requires var s' := ConsumerStep(s, c); s'.tail == s.tail || s'.tail == h.links[h.Last()]
    ensures var s' := ConsumerStep(s, c);
      && LinksOk(s', h) && TailOk(s', h) && PlaceOk(s', h) && QueueOk(s', h) && FreeOk(s', h) && MemOk(s') && LogOk(s')
  {
  }

  lemma HelpedTail(s: State, h: Shape, c: nat)
    requires Inv(s, h) && c < |s.consumers| && s.consumers[c].HeadHelp?
    ensures var s' := ConsumerStep(s, c);
      s'.tail == s.tail || (s'.tail == h.links[h.Last()] && s.tail == s.head && s'.tail != s.head)
  {
    assert ConsumerOk(s, h, c);
    if s.tail == s.consumers[c].tail {
      // m_in equals a head that m_out had reached, so m_out is still there and m_in lags
      assert h.links[h.seen[c]] == s.tail;
      assert h.seen[c] == h.front;
    }
  }

  lemma FreeNextKeeps(s: State, h: Shape, c: nat)
    requires Inv(s, h) && c < |s.consumers| && s.consumers[c].FreeNext?
    ensures Inv(ConsumerStep(s, c), h)
  {
    var s' := ConsumerStep(s, c);
    FreeNextStep(s, h, c);
    PrivateWrite(s, h, s', s.consumers[c].mine.node);
    FreeNextPlaces(s, h, c, s');
    OthersFrame(s, h, s', h, c);
    ProducerFrame(s, h, s', h);
  }

  lemma FreeNextStep(s: State, h: Shape, c: nat)
    requires |h.place| == |s.mem|
    requires c < |s.consumers| && s.consumers[c].FreeNext? && ConsumerOk(s, h, c)
    ensures var s' := ConsumerStep(s, c);
      var FreeNext(mine, was, data) := s.consumers[c];
      && mine.At? && IsReleasing(s, h, c, mine.node) && (was.Null? || InMem(s, was))
      && s' == s.(mem := s.mem[mine.node := s.mem[mine.node].(next := was)],
                  consumers := s.consumers[c := FreeCas(mine, was, data)])
      && ConsumerOk(s', h, c)
  {
  }

  lemma FreeNextPlaces(s: State, h: Shape, c: nat, s': State)
    requires c < |s.consumers| && s.consumers[c].FreeNext? && |s.producers| == 1
    requires PlaceOk(s, h)
    requires |s'.mem| == |s.mem| && s'.producers == s.producers
    requires s'.consumers == s.consumers[c := FreeCas(s.consumers[c].mine, s.consumers[c].was, s.consumers[c].data)]
    ensures PlaceOk(s', h)
  {
    LocalPlaces(s, h, c, s');
  }

  lemma HeadCasKeeps(s: State, h: Shape, c: nat) returns (h': Shape)
    requires Inv(s, h) && c < |s.consumers| && s.consumers[c].HeadCas?
    ensures Inv(ConsumerStep(s, c), h') && Extends(h, h')
  {
    var s' := ConsumerStep(s, c);
    if s.head != s.consumers[c].head {
      h' := h;
      LocalRest(s, h, c, s');
    } else {
      h' := h.(front := h.front + 1, place := h.place[s.head.node := Releasing(c)]);
      DequeueKeeps(s, h, c, s', h');
    }
  }

  /** The CAS on `m_out` succeeds only if no other pop has succeeded since the head was read. */
  lemma CurrentIfEqual(s: State, h: Shape, c: nat)
    requires Inv(s, h) && c < |s.consumers| && s.consumers[c].HeadCas? && s.head == s.consumers[c].head
    ensures h.seen[c] == h.front && h.front + 1 < |h.links| && s.consumers[c].next == h.links[h.front + 1]
    ensures s.consumers[c].data == s.log.linked[h.front] && s.tail != s.head
    ensures h.place[s.head.node] == Queued(h.front)
  {
    assert ConsumerOk(s, h, c);
  }

  ghost predicate Dequeue(s: State, h: Shape, c: nat, s': State, h': Shape) {
    && c < |s.consumers| && s.consumers[c].HeadCas? && InMem(s, s.head)
    && |h.place| == |s.mem| && h.front + 1 < |h.links|
    && h.place[s.head.node] == Queued(h.front)
    && s.consumers[c].next == h.links[h.front + 1]
    && |s.log.linked| > h.front
    && s' == s.(head := h.links[h.front + 1],
                log := s.log.(delivered := s.log.delivered + [s.log.linked[h.front]]),
                consumers := s.consumers[c := FreeId(s.head.node, s.log.linked[h.front])])
    && h' == h.(front := h.front + 1, place := h.place[s.head.node := Releasing(c)])
  }

  lemma DequeueKeeps(s: State, h: Shape, c: nat, s': State, h': Shape)
    requires Inv(s, h) && c < |s.consumers| && s.consumers[c].HeadCas? && s.head == s.consumers[c].head
    requires s' == ConsumerStep(s, c)
    requires h' == h.(front := h.front + 1, place := h.place[s.head.node := Releasing(c)])
    ensures Inv(s', h')
  {
    CurrentIfEqual(s, h, c);
    assert Dequeue(s, h, c, s', h');
    DequeueQueue(s, h, c, s', h');
    DequeuePlaces(s, h, c, s', h');
    DequeueFree(s, h, c, s', h');
    DequeueOthers(s, h, c, s', h');
    DequeueProducer(s, h, c, s', h');
    DequeueRest(s, h, c, s', h');
  }

  lemma DequeueProducer(s: State, h: Shape, c: nat, s': State, h': Shape)
    requires Dequeue(s, h, c, s', h') && |s.producers| == 1 && LinksOk(s, h) && |h.place| == |s.mem|
    requires QueueOk(s, h) && ProducerOk(s, h)
    ensures ProducerOk(s', h')
  {
    ProducerFrame(s, h, s', h');
  }

  lemma DequeueRest(s: State, h: Shape, c: nat, s': State, h': Shape)
    requires Dequeue(s, h, c, s', h') && |s.producers| == 1 && MemOk(s) && LogOk(s)
    ensures MemOk(s') && LogOk(s') && |h'.seen| == |h.seen| && |s'.consumers| == |s.consumers|
  {
  }

  lemma DequeueQueue(s: State, h: Shape, c: nat, s': State, h': Shape)
    requires Dequeue(s, h, c, s', h') && LinksOk(s, h) && QueueOk(s, h)
    requires |s.producers| == 1 && TailOk(s, h) && s.tail != s.head
    ensures LinksOk(s', h') && QueueOk(s', h') && TailOk(s', h')
  {
    DequeueLinks(s, h, c, s', h');
    forall i | h'.front <= i < |h'.links| ensures h'.place[h'.links[i].node] == Queued(i) {
      assert h.place[h.links[i].node] == Queued(i);
    }
  }

  lemma DequeueLinks(s: State, h: Shape, c: nat, s': State, h': Shape)
    requires Dequeue(s, h, c, s', h') && LinksOk(s, h)
    requires |s.producers| == 1 && TailOk(s, h) && s.tail != s.head
    ensures LinksOk(s', h') && TailOk(s', h')
  {
  }

  lemma DequeuePlaces(s: State, h: Shape, c: nat, s': State, h': Shape)
    requires Dequeue(s, h, c, s', h') && |s.producers| == 1 && PlaceOk(s, h)
    ensures PlaceOk(s', h')
  {
    forall n | 0 <= n < |s.mem| && h.place[n].Releasing?
      ensures HeldByConsumer(s'.consumers[h.place[n].c]) == [n]
    {
      assert HeldByConsumer(s.consumers[h.place[n].c]) == [n];
    }
  }

  lemma DequeueFree(s: State, h: Shape, c: nat, s': State, h': Shape)
    requires Dequeue(s, h, c, s', h') && FreeOk(s, h)
    ensures FreeOk(s', h')
  {
    forall k | 0 <= k < |h.free| ensures h'.place[h.free[k]] == Free(k) {
      assert h.place[h.free[k]] == Free(k);
    }
  }

  lemma DequeueOthers(s: State, h: Shape, c: nat, s': State, h': Shape)
    requires Inv(s, h) && Dequeue(s, h, c, s', h')
    ensures forall d | 0 <= d < |s.consumers| :: ConsumerOk(s', h', d)
  {
    forall d | 0 <= d < |s.consumers| ensures ConsumerOk(s', h', d) {
      assert ConsumerOk(s, h, d);
    }
  }

  lemma FreeCasKeeps(s: State, h: Shape, c: nat) returns (h': Shape)
    requires Inv(s, h) && c < |s.consumers| && s.consumers[c].FreeCas?
    ensures Inv(ConsumerStep(s, c), h') && Extends(h, h')
  {
    var s' := ConsumerStep(s, c);
    assert ConsumerOk(s, h, c);
    var node := s.consumers[c].mine.node;
    if s.free != s.consumers[c].was {
      h' := h;
      LocalRest(s, h, c, s');
    } else {
      h' := h.(free := h.free + [node], place := h.place[node := Free(|h.free|)]);
      ReleaseKeeps(s, h, c, s', h');
    }
  }

  lemma ReleaseKeeps(s: State, h: Shape, c: nat, s': State, h': Shape)
    requires Inv(s, h) && Release(s, h, c, s', h')
    ensures Inv(s', h')
  {
    ReleasedPlaces(s, h, c, s', h');
    ReleasedThreads(s, h, c, s', h');
  }

  lemma ReleasedThreads(s: State, h: Shape, c: nat, s': State, h': Shape)
    requires |s.producers| == 1 && |h.links| >= 1 && |h.place| == |s.mem| && Release(s, h, c, s', h')
    requires ProducerOk(s, h) && forall d | 0 <= d < |s.consumers| :: ConsumerOk(s, h, d)
    ensures ProducerOk(s', h') && forall d | 0 <= d < |s'.consumers| :: ConsumerOk(s', h', d)
  {
    OthersFrame(s, h, s', h', c);
    ProducerFrame(s, h, s', h');
  }

  ghost predicate Release(s: State, h: Shape, c: nat, s': State, h': Shape) {
    && c < |s.consumers| && s.consumers[c].FreeCas?
    && var mine := s.consumers[c].mine;
    && mine.At? && IsReleasing(s, h, c, mine.node)
    && s.mem[mine.node].next == s.free
    && s' == s.(free := mine, log := s.log.(returned := s.log.returned + [s.consumers[c].data]),
                consumers := s.consumers[c := Idle])
    && h' == h.(free := h.free + [mine.node], place := h.place[mine.node := Free(|h.free|)])
  }

  /** Whatever has happened to the free chain since it was read, the CAS stores a chain one node longer. */
  lemma ReleasedPlaces(s: State, h: Shape, c: nat, s': State, h': Shape)
    requires Release(s, h, c, s', h') && |s.producers| == 1
    requires LinksOk(s, h) && PlaceOk(s, h) && QueueOk(s, h) && FreeOk(s, h)
    ensures LinksOk(s', h') && PlaceOk(s', h') && QueueOk(s', h') && FreeOk(s', h')
  {
    ReleasedFree(s, h, c, s', h');
    ReleasedQueue(s, h, c, s', h');
    ReleasedPlace(s, h, c, s', h');
  }

  lemma ReleasedFree(s: State, h: Shape, c: nat, s': State, h': Shape)
    requires Release(s, h, c, s', h') && |h.place| == |s.mem| && FreeOk(s, h)
    ensures FreeOk(s', h')
  {
    assert forall k | 0 <= k < |h.free| :: h'.free[k] == h.free[k];
  }

  lemma ReleasedQueue(s: State, h: Shape, c: nat, s': State, h': Shape)
    requires Release(s, h, c, s', h') && LinksOk(s, h) && QueueOk(s, h)
    ensures LinksOk(s', h') && QueueOk(s', h')
  {
  }

  lemma ReleasedPlace(s: State, h: Shape, c: nat, s': State, h': Shape)
    requires Release(s, h, c, s', h') && |s.producers| == 1 && PlaceOk(s, h)
    ensures PlaceOk(s', h')
  {
    forall n | 0 <= n < |s.mem| && h.place[n].Free? ensures h'.place[n] == h.place[n] && h'.free[h.place[n].k] == n {
    }
    forall n | 0 <= n < |s.mem| && h'.place[n].Releasing?
      ensures HeldByConsumer(s'.consumers[h'.place[n].c]) == [n]
    {
      assert HeldByConsumer(s.consumers[h.place[n].c]) == [n];
    }
  }
}
