/** What the lock-free list promises in every reachable state: one producer, any interleaving. */
module LockFreeTheorems {
  import opened LockFreeSteps
  import opened LockFreeInvariant

  // ---------------------------------------------------------------- runs

  lemma StepHolds(s: State, h: Shape, m: Move) returns (h': Shape)
    requires Inv(s, h)
    ensures Inv(Next(s, m), h') && Extends(h, h')
  {
    if m.Produce? && m.p == 0 {
      h' := ProducerKeeps(s, h, m.v);
      assert Next(s, m) == ProducerStep(s, 0, m.v);
    } else if m.Consume? && m.c < |s.consumers| {
      h' := ConsumerKeeps(s, h, m.c);
      assert Next(s, m) == ConsumerStep(s, m.c);
    } else {
      h' := h;
      assert Next(s, m) == s;
    }
  }

  lemma {:induction false} PathHolds(states: seq<State>, h: Shape, i: nat) returns (h': Shape)
    requires Path(states) && i < |states| && Inv(states[0], h)
    ensures Inv(states[i], h') && Extends(h, h')
    decreases i
  {
    if i == 0 {
      h' := h;
    } else {
      var before := PathHolds(states, h, i - 1);
      assert Step(states[i - 1], states[i]);
      var m :| states[i] == Next(states[i - 1], m);
      h' := StepHolds(states[i - 1], before, m);
    }
  }

  lemma {:induction false} PathKeepsSizes(states: seq<State>, i: nat)
    requires Path(states) && i < |states|
    ensures |states[i].mem| == |states[0].mem| && |states[i].consumers| == |states[0].consumers|
    ensures states[0].log.linked <= states[i].log.linked && states[0].log.delivered <= states[i].log.delivered
    decreases i
  {
    if i != 0 {
      PathKeepsSizes(states, i - 1);
      assert Step(states[i - 1], states[i]);
      var m :| states[i] == Next(states[i - 1], m);
      StepKeepsSizes(states[i - 1], m);
    }
  }

  lemma StepKeepsSizes(s: State, m: Move)
    ensures |Next(s, m).mem| == |s.mem| && |Next(s, m).consumers| == |s.consumers|
    ensures s.log.linked <= Next(s, m).log.linked && s.log.delivered <= Next(s, m).log.delivered
  {
  }

  lemma ReachesHolds(s: State, h: Shape, s': State) returns (h': Shape)
    requires Reaches(s, s') && Inv(s, h)
    ensures Inv(s', h') && Extends(h, h')
  {
    var states :| Path(states) && states[0] == s && states[|states| - 1] == s';
    h' := PathHolds(states, h, |states| - 1);
  }

  lemma ReachesKeepsSizes(s: State, s': State)
    requires Reaches(s, s')
    ensures |s'.mem| == |s.mem| && |s'.consumers| == |s.consumers|
    ensures s.log.linked <= s'.log.linked && s.log.delivered <= s'.log.delivered
  {
    var states :| Path(states) && states[0] == s && states[|states| - 1] == s';
    PathKeepsSizes(states, |states| - 1);
  }

  lemma ReachableSizes(s: State, max: nat, consumers: nat)
    requires Reachable(s, max, consumers)
    ensures |s.mem| == max && |s.consumers| == consumers
  {
    ReachesKeepsSizes(Init(max, 1, consumers), s);
  }

  /** The states that one producer and `consumers` consumers can reach on a list of `max` nodes. */
  ghost predicate Reachable(s: State, max: nat, consumers: nat) {
    max >= 1 && Reaches(Init(max, 1, consumers), s)
  }

  lemma ReachableHolds(s: State, max: nat, consumers: nat) returns (h: Shape)
    requires Reachable(s, max, consumers)
    ensures Inv(s, h) && |s.mem| == max && |s.consumers| == consumers
  {
    InitHolds(max, consumers);
    h := ReachesHolds(Init(max, 1, consumers), InitShape(max, consumers), s);
    ReachableSizes(s, max, consumers);
  }

  // ---------------------------------------------------------------- chains

  /** Distinct nodes fit in memory. */
  lemma {:induction false} Pigeonhole(nodes: seq<nat>, max: nat)
    requires forall i | 0 <= i < |nodes| :: nodes[i] < max
    requires forall i, j | 0 <= i < j < |nodes| :: nodes[i] != nodes[j]
    ensures |nodes| <= max
    decreases max
  {
    if nodes == [] {
    } else if k :| 0 <= k < |nodes| && nodes[k] == max - 1 {
      Pigeonhole(nodes[..k] + nodes[k + 1..], max - 1);
    } else {
      assert nodes[0] < max;
      Pigeonhole(nodes, max - 1);
    }
  }

  /** The nodes of the links from position i on. */
  function NodesFrom(links: seq<Ptr>, i: nat): (nodes: seq<nat>)
    requires i <= |links|
    requires forall j | 0 <= j < |links| :: links[j].At?
    ensures |nodes| == |links| - i
  {
    seq(|links| - i, j requires 0 <= j < |links| - i => links[i + j].node)
  }

  lemma QueueFits(s: State, h: Shape)
    requires Inv(s, h)
    ensures |h.links| - h.front <= |s.mem|
  {
    var nodes := NodesFrom(h.links, h.front);
    forall i, j | 0 <= i < j < |nodes| ensures nodes[i] != nodes[j] {
      assert h.place[h.links[h.front + i].node] == Queued(h.front + i);
      assert h.place[h.links[h.front + j].node] == Queued(h.front + j);
    }
    Pigeonhole(nodes, |s.mem|);
  }

  lemma {:induction false} QueueChain(mem: seq<Node>, links: seq<Ptr>, i: nat, limit: nat)
    requires forall j | 0 <= j < |links| :: links[j].At? && links[j].node < |mem|
    requires i < |links| && |links| - i <= limit
    requires forall j, k | i <= j && k == j + 1 < |links| :: mem[links[j].node].next == links[k]
    requires mem[links[|links| - 1].node].next == Null
    ensures Chain(mem, links[i], limit) == NodesFrom(links, i)
    decreases |links| - i
  {
    if i == |links| - 1 {
      assert Chain(mem, Null, limit - 1) == [];
    } else {
      assert mem[links[i].node].next == links[i + 1];
      QueueChain(mem, links, i + 1, limit - 1);
    }
    assert NodesFrom(links, i) == [links[i].node] + NodesFrom(links, i + 1);
  }

  /** Following `next` from `m_out` meets exactly the links not yet popped, and then nothing. */
  lemma QueueIs(s: State, h: Shape)
    requires Inv(s, h)
    ensures QueueNodes(s) == NodesFrom(h.links, h.front)
    ensures Contents(s) == s.log.linked[h.front..]
  {
    QueueFits(s, h);
    QueueChain(s.mem, h.links, h.front, |s.mem|);
    QueueHolds(s, h);
  }

  lemma QueueHolds(s: State, h: Shape)
    requires LinksOk(s, h) && |h.place| == |s.mem| && QueueOk(s, h)
    requires QueueNodes(s) == NodesFrom(h.links, h.front)
    ensures Contents(s) == s.log.linked[h.front..]
  {
    ChainInMem(s.mem, s.head, |s.mem|);
    var nodes := QueueNodes(s)[1..];
    forall j | 0 <= j < |nodes| ensures s.mem[nodes[j]].data == s.log.linked[h.front..][j] {
      assert nodes[j] == h.links[h.front + 1 + j].node;
    }
    assert Contents(s) == DataOf(s.mem, nodes);
  }

  function Reversed(free: seq<nat>): (r: seq<nat>)
    ensures |r| == |free|
  {
    seq(|free|, i requires 0 <= i < |free| => free[|free| - 1 - i])
  }

  lemma {:induction false} FreeChain(s: State, h: Shape, p: Ptr, k: nat, limit: nat)
    requires |h.place| == |s.mem| && FreeOk(s, h) && k <= |h.free| && k <= limit
    requires if k == 0 then p == Null else PointsTo(p, h.free[k - 1])
    ensures Chain(s.mem, p, limit) == Reversed(h.free[..k])
    decreases k
  {
    if k > 0 {
      var next := s.mem[h.free[k - 1]].next;
      if k > 1 {
        assert PointsTo(s.mem[h.free[k - 1]].next, h.free[k - 2]);
      }
      FreeChain(s, h, next, k - 1, limit - 1);
      assert Reversed(h.free[..k]) == [h.free[k - 1]] + Reversed(h.free[..k - 1]);
    }
  }

  lemma FreeIs(s: State, h: Shape)
    requires Inv(s, h)
    ensures FreeNodes(s) == Reversed(h.free)
  {
    forall i, j | 0 <= i < j < |h.free| ensures h.free[i] != h.free[j] {
      assert h.place[h.free[i]] == Free(i) && h.place[h.free[j]] == Free(j);
    }
    Pigeonhole(h.free, |s.mem|);
    FreeChain(s, h, s.free, |h.free|, |s.mem|);
    assert h.free[..|h.free|] == h.free;
  }

  // ---------------------------------------------------------------- delivery

  /** Nothing is lost, duplicated or reordered: what has been linked is what has been delivered, in the order of
      the successful CASes on `m_out`, followed by what the queue holds. */
  lemma LinkedIsDeliveredThenQueued(s: State, max: nat, consumers: nat)
    requires Reachable(s, max, consumers)
    ensures s.log.linked == s.log.delivered + Contents(s)
  {
    var h := ReachableHolds(s, max, consumers);
    QueueIs(s, h);
  }

  /** What callers see with one producer and one consumer: the accepted values are the returned ones, the value
      the consumer is about to return, and the queue, less the value the producer is about to report. */
  lemma AcceptedIsReturnedThenQueued(s: State, max: nat)
    requires Reachable(s, max, 1)
    ensures |s.producers| == |s.consumers| == 1
    ensures s.log.accepted + Unaccepted(s.producers[0]) ==
            s.log.returned + Unreturned(s.consumers[0]) + Contents(s)
  {
    var h := ReachableHolds(s, max, 1);
    LinkedIsDeliveredThenQueued(s, max, 1);
    CallersLogs(s, h);
  }

  lemma CallersLogs(s: State, h: Shape)
    requires Inv(s, h) && |s.consumers| == 1
    ensures s.log.linked == s.log.accepted + Unaccepted(s.producers[0])
    ensures s.log.delivered == s.log.returned + Unreturned(s.consumers[0])
  {
  }

  /** No interleaving dereferences a null or foreign pointer, and none trips the assertion of ReleaseNode. */
  lemma NoFault(s: State, max: nat, consumers: nat)
    requires Reachable(s, max, consumers)
    ensures forall p | 0 <= p < |s.producers| :: s.producers[p] != PushFault
    ensures forall c | 0 <= c < |s.consumers| :: s.consumers[c] != PopFault
  {
    var h := ReachableHolds(s, max, consumers);
    forall c | 0 <= c < |s.consumers| ensures s.consumers[c] != PopFault {
      assert ConsumerOk(s, h, c);
    }
  }

  // ---------------------------------------------------------------- tags

  /** `m_out` never holds the same double word twice: if two moments of a run agree on it, no value was delivered
      between them.  So a CAS on `m_out` that succeeds proves the head was not recycled since it was read. */
  lemma HeadNeverRepeats(s: State, s': State, max: nat, consumers: nat)
    requires Reachable(s, max, consumers) && Reaches(s, s')
    ensures s.log.delivered <= s'.log.delivered && s.log.linked <= s'.log.linked
    ensures s.head == s'.head <==> s.log.delivered == s'.log.delivered
  {
    var h := ReachableHolds(s, max, consumers);
    var h' := ReachesHolds(s, h, s');
    ReachesKeepsSizes(s, s');
    assert h'.links[h.front] == s.head && h'.links[h'.front] == s'.head;
  }

  /** A successful CAS on `m_out` delivers the oldest value of the queue, whichever consumer makes it. */
  lemma DeliversOldest(s: State, max: nat, consumers: nat, c: nat)
    requires Reachable(s, max, consumers)
    requires c < |s.consumers| && s.consumers[c].HeadCas? && s.consumers[c].head == s.head
    ensures Contents(s) != [] && s.consumers[c].data == Contents(s)[0]
    ensures Contents(Next(s, Consume(c))) == Contents(s)[1..]
  {
    var h := ReachableHolds(s, max, consumers);
    QueueIs(s, h);
    CurrentIfEqual(s, h, c);
    var h' := StepHolds(s, h, Consume(c));
    QueueIs(Next(s, Consume(c)), h');
    DequeueLog(s, h, c, h');
  }

  lemma DequeueLog(s: State, h: Shape, c: nat, h': Shape)
    requires |h.links| >= 1 && LinksOk(s, h) && |h.place| == |s.mem| && QueueOk(s, h)
    requires c < |s.consumers| && s.consumers[c].HeadCas? && s.consumers[c].head == s.head
    requires var s' := Next(s, Consume(c)); LinksOk(s', h') && |h'.place| == |s'.mem| && QueueOk(s', h')
    requires InMem(s, s.head)
    ensures h'.front == h.front + 1 && Next(s, Consume(c)).log.linked == s.log.linked
  {
    assert |Next(s, Consume(c)).log.delivered| == h'.front;
  }

  // ---------------------------------------------------------------- progress of push

  /** With one producer the tail it reads is always the last node: the repair branch is never entered and the
      link CAS succeeds the first time. */
  lemma LinkAlwaysSucceeds(s: State, max: nat, consumers: nat, v: int)
    requires Reachable(s, max, consumers)
    ensures |s.producers| == 1
    ensures !s.producers[0].TailHelp?
    ensures s.producers[0].Link? ==> Next(s, Produce(0, v)).producers[0].Swing?
  {
    var h := ReachableHolds(s, max, consumers);
  }

  // ---------------------------------------------------------------- full and empty

  /** What a pop finds: the dummy's link is null exactly if the queue is empty, and otherwise leads to the node with the
      oldest value; `m_in` lags at the dummy only if that node is the last. */
  lemma PopFinds(s: State, max: nat, consumers: nat)
    requires Reachable(s, max, consumers)
    ensures InMem(s, s.head) && (s.mem[s.head.node].next.Null? <==> Contents(s) == [])
    ensures Contents(s) != [] ==>
              var next := s.mem[s.head.node].next;
              InMem(s, next) && next != s.head && s.mem[next.node].data == Contents(s)[0]
  {
    var h := ReachableHolds(s, max, consumers);
    QueueIs(s, h);
    HeadLinks(s, h);
  }

  lemma HeadLinks(s: State, h: Shape)
    requires LinksOk(s, h) && |h.place| == |s.mem| && QueueOk(s, h) && Contents(s) == s.log.linked[h.front..]
    ensures InMem(s, s.head) && (s.mem[s.head.node].next.Null? <==> Contents(s) == [])
    ensures Contents(s) != [] ==>
              var next := s.mem[s.head.node].next;
              InMem(s, next) && next != s.head && s.mem[next.node].data == Contents(s)[0]
  {
    if h.front < h.Last() {
      assert s.mem[h.links[h.front].node].next == h.links[h.front + 1];
      assert h.links[h.front].tag < h.links[h.front + 1].tag;
    }
  }

  /** Pop returns false at its read of `next` exactly when the queue is empty there, provided `m_out` still
      holds what this pop read; with a single consumer it always does. */
  lemma PopFailsIffEmpty(s: State, max: nat, consumers: nat, c: nat)
    requires Reachable(s, max, consumers)
    requires c < |s.consumers| && s.consumers[c].HeadNext?
    ensures consumers == 1 ==> s.consumers[c].head == s.head
    ensures s.consumers[c].head == s.head ==>
              (Next(s, Consume(c)).consumers[c].Idle? <==> Contents(s) == [])
  {
    OneConsumerIsCurrent(s, max, consumers, c);
    PopFinds(s, max, consumers);
    if s.consumers[c].head == s.head {
      FailsOnNull(s, c);
    }
  }

  lemma OneConsumerIsCurrent(s: State, max: nat, consumers: nat, c: nat)
    requires Reachable(s, max, consumers) && c < |s.consumers| && s.consumers[c].HeadNext?
    ensures consumers == 1 ==> s.consumers[c].head == s.head
  {
    var h := ReachableHolds(s, max, consumers);
    assert ConsumerOk(s, h, c);
  }

  lemma FailsOnNull(s: State, c: nat)
    requires c < |s.consumers| && s.consumers[c].HeadNext? && InMem(s, s.consumers[c].head)
    ensures Next(s, Consume(c)).consumers[c].Idle? <==> s.mem[s.consumers[c].head.node].next.Null?
  {
  }

  /** Push returns false at its read of `m_head` exactly when the free chain is empty there. */
  lemma PushFailsIffNoFreeNode(s: State, max: nat, consumers: nat, v: int)
    requires Reachable(s, max, consumers)
    ensures |s.producers| == 1
    ensures s.producers[0].AllocRead? ==> (Next(s, Produce(0, v)).producers[0].Ready? <==> FreeNodes(s) == [])
  {
    var h := ReachableHolds(s, max, consumers);
    FreeIs(s, h);
  }

  // ---------------------------------------------------------------- every node is in one place

  function ConsumersHold(cs: seq<Consumer>): seq<nat> {
    if cs == [] then [] else ConsumersHold(cs[..|cs| - 1]) + HeldByConsumer(cs[|cs| - 1])
  }

  function ProducersHold(ps: seq<Producer>): seq<nat> {
    if ps == [] then [] else ProducersHold(ps[..|ps| - 1]) + HeldByProducer(ps[|ps| - 1])
  }

  /** Every node of the list: on the queue, on the free chain, or held by a thread. */
  function AllNodes(s: State): seq<nat> {
    QueueNodes(s) + FreeNodes(s) + ProducersHold(s.producers) + ConsumersHold(s.consumers)
  }

  ghost predicate NoRepeats(nodes: seq<nat>) {
    forall i, j | 0 <= i < j < |nodes| :: nodes[i] != nodes[j]
  }

  lemma ConsumerHolds(s: State, h: Shape, c: nat)
    requires Inv(s, h) && c < |s.consumers|
    ensures var nodes := HeldByConsumer(s.consumers[c]);
      |nodes| <= 1 && (nodes != [] ==> nodes[0] < |s.mem| && h.place[nodes[0]] == Releasing(c))
  {
    assert ConsumerOk(s, h, c);
  }

  /** The consumers' nodes are the nodes placed with a consumer, each once. */
  lemma {:induction false} ConsumersHoldPlaces(cs: seq<Consumer>, place: seq<Place>)
    requires forall c | 0 <= c < |cs| :: |HeldByConsumer(cs[c])| <= 1
    requires forall c | 0 <= c < |cs| && HeldByConsumer(cs[c]) != [] ::
      HeldByConsumer(cs[c])[0] < |place| && place[HeldByConsumer(cs[c])[0]] == Releasing(c)
    requires forall n: nat | n < |place| && place[n].Releasing? && place[n].c < |cs| ::
      HeldByConsumer(cs[place[n].c]) == [n]
    ensures var nodes := ConsumersHold(cs);
      && NoRepeats(nodes)
      && (forall i | 0 <= i < |nodes| :: nodes[i] < |place| && place[nodes[i]].Releasing? && place[nodes[i]].c < |cs|)
      && (forall n: nat | n < |place| && place[n].Releasing? && place[n].c < |cs| :: n in nodes)
    decreases |cs|
  {
    if cs != [] {
      var front := cs[..|cs| - 1];
      var held := HeldByConsumer(cs[|cs| - 1]);
      assert forall c | 0 <= c < |front| :: front[c] == cs[c];
      ConsumersHoldPlaces(front, place);
      NoRepeatsJoin(ConsumersHold(front), held);
      forall n: nat | n < |place| && place[n].Releasing? && place[n].c < |cs| ensures n in ConsumersHold(cs) {
        if place[n].c == |cs| - 1 {
          assert held == [n];
        } else {
          assert n in ConsumersHold(front);
        }
      }
    }
  }

  /** In every reachable state each node is in exactly one place, so none leaks and none is in use twice. */
  lemma EveryNodeInOnePlace(s: State, max: nat, consumers: nat)
    requires Reachable(s, max, consumers)
    ensures NoRepeats(AllNodes(s))
    ensures forall n: nat :: n in AllNodes(s) <==> n < max
    ensures |AllNodes(s)| == max
  {
    var h := ReachableHolds(s, max, consumers);
    Partition(s, h);
    NoRepeatsCount(AllNodes(s), max);
  }

  lemma Partition(s: State, h: Shape)
    requires Inv(s, h)
    ensures NoRepeats(AllNodes(s)) && forall n: nat :: n in AllNodes(s) <==> n < |s.mem|
  {
    QueuePlaces(s, h);
    FreePlaces(s, h);
    ProducerPlaces(s, h);
    ConsumerPlaces(s, h);
    var q, f := QueueNodes(s), FreeNodes(s);
    var p, c := ProducersHold(s.producers), ConsumersHold(s.consumers);
    PartitionCovers(s, h, q, f, p, c);
    PlacesPartition(h.place, h.front, q, f, p, c);
  }

  ghost predicate PlacedInQueue(place: seq<Place>, front: nat, q: seq<nat>) {
    forall i | 0 <= i < |q| :: q[i] < |place| && place[q[i]] == Queued(front + i)
  }

  ghost predicate PlacedFree(place: seq<Place>, f: seq<nat>) {
    forall i | 0 <= i < |f| :: f[i] < |place| && place[f[i]] == Free(|f| - 1 - i)
  }

  ghost predicate PlacedHeld(place: seq<Place>, p: seq<nat>) {
    |p| <= 1 && forall i | 0 <= i < |p| :: p[i] < |place| && place[p[i]] == Held
  }

  /** The nodes placed with the first `consumers` consumers, each once. */
  ghost predicate PlacedReleasing(place: seq<Place>, consumers: nat, c: seq<nat>) {
    && NoRepeats(c)
    && (forall i | 0 <= i < |c| :: c[i] < |place| && place[c[i]].Releasing?)
    && (forall n: nat | n < |place| && place[n].Releasing? && place[n].c < consumers :: n in c)
  }

  /** Every node of memory is in the list that its place says. */
  ghost predicate AllListed(place: seq<Place>, front: nat, q: seq<nat>, f: seq<nat>, p: seq<nat>, c: seq<nat>) {
    forall n: nat | n < |place| ::
      match place[n]
      case Free(k) => k < |f| && f[|f| - 1 - k] == n
      case Queued(i) => front <= i < front + |q| && q[i - front] == n
      case Held => p == [n]
      case Releasing(_) => n in c
  }

  lemma QueuePlaces(s: State, h: Shape)
    requires Inv(s, h)
    ensures QueueNodes(s) == NodesFrom(h.links, h.front) && PlacedInQueue(h.place, h.front, QueueNodes(s))
  {
    QueueIs(s, h);
    LinksArePlaced(s, h);
  }

  lemma LinksArePlaced(s: State, h: Shape)
    requires LinksOk(s, h) && |h.place| == |s.mem| && QueueOk(s, h)
    ensures PlacedInQueue(h.place, h.front, NodesFrom(h.links, h.front))
  {
    var q := NodesFrom(h.links, h.front);
    forall i | 0 <= i < |q| ensures q[i] < |h.place| && h.place[q[i]] == Queued(h.front + i) {
      assert q[i] == h.links[h.front + i].node;
    }
  }

  lemma FreePlaces(s: State, h: Shape)
    requires Inv(s, h)
    ensures FreeNodes(s) == Reversed(h.free) && PlacedFree(h.place, FreeNodes(s))
  {
    FreeIs(s, h);
  }

  lemma ProducerPlaces(s: State, h: Shape)
    requires Inv(s, h)
    ensures ProducersHold(s.producers) == HeldByProducer(s.producers[0])
    ensures PlacedHeld(h.place, ProducersHold(s.producers))
  {
    assert s.producers[..0] == [] && ProducersHold([]) == [];
  }

  lemma ConsumerPlaces(s: State, h: Shape)
    requires Inv(s, h)
    ensures PlacedReleasing(h.place, |s.consumers|, ConsumersHold(s.consumers))
  {
    forall d | 0 <= d < |s.consumers|
      ensures var nodes := HeldByConsumer(s.consumers[d]);
        |nodes| <= 1 && (nodes != [] ==> nodes[0] < |h.place| && h.place[nodes[0]] == Releasing(d))
    {
      ConsumerHolds(s, h, d);
    }
    ConsumersHoldPlaces(s.consumers, h.place);
  }

  lemma PartitionCovers(s: State, h: Shape, q: seq<nat>, f: seq<nat>, p: seq<nat>, c: seq<nat>)
    requires |s.producers| == 1 && LinksOk(s, h) && PlaceOk(s, h)
    requires q == NodesFrom(h.links, h.front) && f == Reversed(h.free) && p == HeldByProducer(s.producers[0])
    requires PlacedReleasing(h.place, |s.consumers|, c)
    ensures AllListed(h.place, h.front, q, f, p, c)
  {
  }

  /** Four lists of nodes in four kinds of place, covering memory, have no node in common. */
  lemma PlacesPartition(place: seq<Place>, front: nat, q: seq<nat>, f: seq<nat>, p: seq<nat>, c: seq<nat>)
    requires PlacedInQueue(place, front, q) && PlacedFree(place, f) && PlacedHeld(place, p)
    requires NoRepeats(c) && forall i | 0 <= i < |c| :: c[i] < |place| && place[c[i]].Releasing?
    requires AllListed(place, front, q, f, p, c)
    ensures NoRepeats(q + f + p + c) && forall n: nat :: n in q + f + p + c <==> n < |place|
  {
    forall n: nat | n < |place| ensures n in q + f + p + c {
      match place[n]
      case Free(k) => assert n in f;
      case Queued(i) => assert n in q;
      case Held => assert n in p;
      case Releasing(_) => assert n in c;
    }
    NoRepeatsJoin(q, f);
    NoRepeatsJoin(q + f, p);
    NoRepeatsJoin(q + f + p, c);
  }

  lemma NoRepeatsJoin(a: seq<nat>, b: seq<nat>)
    requires NoRepeats(a) && NoRepeats(b)
    requires forall i, j | 0 <= i < |a| && 0 <= j < |b| :: a[i] != b[j]
    ensures NoRepeats(a + b)
  {
  }

  lemma NoRepeatsCount(nodes: seq<nat>, max: nat)
    requires NoRepeats(nodes) && forall n: nat :: n in nodes <==> n < max
    ensures |nodes| == max
  {
    assert forall i | 0 <= i < |nodes| :: nodes[i] in nodes;
    Pigeonhole(nodes, max);
    Covers(nodes, max);
  }

  lemma {:induction false} Covers(nodes: seq<nat>, max: nat)
    requires forall n: nat | n < max :: n in nodes
    ensures |nodes| >= max
    decreases max
  {
    if max > 0 {
      var last: nat := max - 1;
      assert last in nodes;
      var k :| 0 <= k < |nodes| && nodes[k] == last;
      var rest := nodes[..k] + nodes[k + 1..];
      forall n: nat | n < last ensures n in rest {
        assert n in nodes;
        var j :| 0 <= j < |nodes| && nodes[j] == n;
        assert rest[if j < k then j else j - 1] == n;
      }
      Covers(rest, max - 1);
    }
  }

  /** Both chains end in a null link, and `m_in` is the last node of the queue or the one before it. */
  lemma ChainsEndAndTailIsNear(s: State, max: nat, consumers: nat)
    requires Reachable(s, max, consumers)
    ensures var q, f := QueueNodes(s), FreeNodes(s);
      && |q| >= 1 && s.head.At? && q[0] == s.head.node
      && q[|q| - 1] < |s.mem| && s.mem[q[|q| - 1]].next == Null
      && (f != [] ==> f[|f| - 1] < |s.mem| && s.mem[f[|f| - 1]].next == Null)
      && s.tail.At?
      && (s.tail.node == q[|q| - 1] || (|q| >= 2 && s.tail.node == q[|q| - 2]))
  {
    var h := ReachableHolds(s, max, consumers);
    QueueEnds(s, h);
    FreeEnds(s, h);
  }

  lemma QueueEnds(s: State, h: Shape)
    requires Inv(s, h)
    ensures var q := QueueNodes(s);
      && |q| >= 1 && s.head.At? && q[0] == s.head.node
      && q[|q| - 1] < |s.mem| && s.mem[q[|q| - 1]].next == Null
      && s.tail.At?
      && (s.tail.node == q[|q| - 1] || (|q| >= 2 && s.tail.node == q[|q| - 2]))
  {
    QueueIs(s, h);
    QueueEndsAt(s, h, QueueNodes(s));
  }

  lemma QueueEndsAt(s: State, h: Shape, q: seq<nat>)
    requires |s.producers| == 1 && LinksOk(s, h) && TailOk(s, h) && |h.place| == |s.mem| && QueueOk(s, h)
    requires q == NodesFrom(h.links, h.front)
    ensures && |q| >= 1 && s.head.At? && q[0] == s.head.node
      && q[|q| - 1] < |s.mem| && s.mem[q[|q| - 1]].next == Null
      && s.tail.At?
      && (s.tail.node == q[|q| - 1] || (|q| >= 2 && s.tail.node == q[|q| - 2]))
  {
    assert q[|q| - 1] == h.links[h.Last()].node;
    assert |q| >= 2 ==> q[|q| - 2] == h.links[h.Last() - 1].node;
  }

  lemma FreeEnds(s: State, h: Shape)
    requires Inv(s, h)
    ensures var f := FreeNodes(s);
      f != [] ==> f[|f| - 1] < |s.mem| && s.mem[f[|f| - 1]].next == Null
  {
    FreeIs(s, h);
  }

  /** Capacity: a push that fails found every node in the queue or in the hands of consumers. */
  lemma FullMeansNodesAreElsewhere(s: State, max: nat, consumers: nat, v: int)
    requires Reachable(s, max, consumers)
    ensures |s.producers| == 1
    ensures s.producers[0].AllocRead? && Next(s, Produce(0, v)).producers[0].Ready? ==>
              |Contents(s)| + 1 + |ConsumersHold(s.consumers)| == max
  {
    var h := ReachableHolds(s, max, consumers);
    EveryNodeInOnePlace(s, max, consumers);
    PushFailsIffNoFreeNode(s, max, consumers, v);
    QueueIs(s, h);
    if s.producers[0].AllocRead? {
      ProducerPlaces(s, h);
    }
  }
}
