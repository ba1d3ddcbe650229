/** How calls of push and pop end, step by step and when a thread runs alone (src/thread/lockfreelist.h:68-222). */
module LockFreeCalls {
  import opened LockFreeSteps
  import opened LockFreeInvariant
  import opened LockFreeTheorems
  import opened LockFreeRuns

  // ---------------------------------------------------------------- the only ways a call ends

  /** The value a call of push was given. */
  function Argument(p: Producer): seq<int> {
    match p
    case Ready => []
    case PushFault => []
    case _ => [p.v]
  }

  /** In any state of any number of threads: a call keeps the value it was given until it ends. */
  lemma PushKeepsArgument(s: State, p: nat, v: int)
    requires p < |s.producers|
    ensures var s' := ProducerStep(s, p, v);
      && |s'.producers| == |s.producers|
      && (s.producers[p].Ready? ==> s' == SetP(s, p, AllocRead(v)))
      && (!s.producers[p].Ready? && !s'.producers[p].Ready? && !s'.producers[p].PushFault? ==>
            Argument(s'.producers[p]) == Argument(s.producers[p]) && s'.log.accepted == s.log.accepted)
  {
  }

  /** It ends in one of two ways.  Either that very value joins the accepted ones, or the free chain was empty and
      nothing else changes. */
  lemma PushEnds(s: State, p: nat, v: int)
    requires p < |s.producers| && !s.producers[p].Ready? && ProducerStep(s, p, v).producers[p].Ready?
    ensures var s' := ProducerStep(s, p, v);
      || s'.log.accepted == s.log.accepted + Argument(s.producers[p])
      || (FreeNodes(s) == [] && s' == SetP(s, p, Ready))
  {
  }

  /** A call of pop ends in one of two ways.  Either it returns the value it took off the queue, or the node it read as
      the head had no successor and nothing else changes; a value once taken stays in hand until it is returned. */
  lemma PopEnds(s: State, c: nat)
    requires c < |s.consumers|
    ensures var s' := ConsumerStep(s, c);
      && |s'.consumers| == |s.consumers|
      && var from, to := s.consumers[c], s'.consumers[c];
      && (from.Idle? ==> s' == SetC(s, c, HeadRead))
      && (Unreturned(from) != [] && !to.Idle? && !to.PopFault? ==>
            Unreturned(to) == Unreturned(from) && s'.log.returned == s.log.returned)
      && (!from.Idle? && to.Idle? ==>
            || (Unreturned(from) != [] && s'.log.returned == s.log.returned + Unreturned(from))
            || (from.HeadNext? && InMem(s, from.head) && s.mem[from.head.node].next == Null
                && s' == SetC(s, c, Idle)))
  {
  }

  /** A retry means that somebody else moved: a push starts over on `m_head` only if `m_head` has changed since it was
      read, and a pop on `m_out` only if `m_out` has, or after repairing `m_in`. */
  lemma RetriesMeanProgress(s: State, p: nat, c: nat, v: int)
    ensures p < |s.producers| && s.producers[p].AllocCas? && ProducerStep(s, p, v).producers[p].AllocRead? ==>
              s.free != s.producers[p].was
    ensures c < |s.consumers| && s.consumers[c].HeadCas? && ConsumerStep(s, c).consumers[c].HeadRead? ==>
              s.head != s.consumers[c].head
    ensures c < |s.consumers| && s.consumers[c].HeadHelp? && s.consumers[c].next != s.consumers[c].tail ==>
              ConsumerStep(s, c).tail != s.consumers[c].tail
    ensures c < |s.consumers| && s.consumers[c].FreeCas? && ConsumerStep(s, c).consumers[c].FreeRead? ==>
              s.free != s.consumers[c].was
  {
  }

  // ---------------------------------------------------------------- a thread that runs alone

  /** What a push finds in any reachable state in which it is called. */
  lemma PushFinds(s: State, max: nat, consumers: nat)
    requires Reachable(s, max, consumers) && |s.producers| == 1 && s.producers[0].Ready?
    ensures InMem(s, s.tail) && s.mem[s.tail.node].next == Null
    ensures s.free.At? ==> InMem(s, s.free) && s.free.node != s.tail.node
    ensures FreeNodes(s) == [] <==> s.free.Null?
  {
    var h := ReachableHolds(s, max, consumers);
    FreeIs(s, h);
    EndsApart(s, h);
  }

  lemma EndsApart(s: State, h: Shape)
    requires |s.producers| == 1 && s.producers[0].Ready? && LinksOk(s, h) && TailOk(s, h)
    requires |h.place| == |s.mem| && QueueOk(s, h) && FreeOk(s, h)
    ensures InMem(s, s.tail) && s.mem[s.tail.node].next == Null
    ensures s.free.At? ==> InMem(s, s.free) && s.free.node != s.tail.node
    ensures s.free.Null? <==> h.free == []
  {
    assert h.place[h.links[h.Last()].node] == Queued(h.Last());
    if h.free != [] {
      assert h.place[h.free[|h.free| - 1]] == Free(|h.free| - 1);
    }
  }

  lemma ReachesByAlone(s: State, m: Move, s': State, max: nat, consumers: nat)
    requires Reachable(s, max, consumers) && Alone(s, m, s')
    ensures Reachable(s', max, consumers)
  {
    var n: nat :| Repeated(s, m, n) == s';
    AloneReaches(s, m, n);
    ReachesAfter(Init(max, 1, consumers), s, s');
  }

  lemma ReachesAfter(s: State, s': State, s'': State)
    requires Reaches(s, s') && Reaches(s', s'')
    ensures Reaches(s, s'')
  {
    var p: seq<State> :| Path(p) && p[0] == s && p[|p| - 1] == s';
    var q: seq<State> :| Path(q) && q[0] == s' && q[|q| - 1] == s'';
    PathsJoin(p, q);
    var all := p + q[1..];
    assert all[0] == s && all[|all| - 1] == s'';
  }

  /** Wherever the consumers stand: a push that runs alone comes to an end.  It fails, changing nothing, exactly if no
      node is free, and otherwise puts its value at the end of the queue. */
  lemma SoloPush(s: State, max: nat, consumers: nat, v: int) returns (s': State)
    requires Reachable(s, max, consumers) && |s.producers| == 1 && s.producers[0].Ready?
    ensures Alone(s, Produce(0, v), s') && s'.producers == s.producers && s'.consumers == s.consumers
    ensures FreeNodes(s) == [] ==> s' == s && Repeated(s, Produce(0, v), 2) == s
    ensures FreeNodes(s) != [] ==>
              Contents(s') == Contents(s) + [v] && s'.log.accepted == s.log.accepted + [v]
  {
    var m := Produce(0, v);
    PushFinds(s, max, consumers);
    if s.free.Null? {
      s' := s;
      FailsInTwo(s, v);
    } else {
      GoesNowhere(s, Only(m));
      PushCompletes(s, s, Only(m), 0, v);
      s' := Pushed(s, 0, v);
      ReachesByAlone(s, m, s', max, consumers);
      ContentsFromLogs(s, s', v, max, consumers);
    }
  }

  lemma FailsInTwo(s: State, v: int)
    requires |s.producers| == 1 && s.producers[0].Ready? && s.free.Null?
    ensures Repeated(s, Produce(0, v), 2) == s
  {
    var s1 := SetP(s, 0, AllocRead(v));
    assert Next(s, Produce(0, v)) == s1;
    assert Next(s1, Produce(0, v)) == s by { assert s1.producers[0 := Ready] == s.producers; }
    assert Repeated(s, Produce(0, v), 0) == s;
    assert Repeated(s, Produce(0, v), 1) == s1;
  }

  lemma ContentsFromLogs(s: State, s': State, v: int, max: nat, consumers: nat)
    requires Reachable(s, max, consumers) && Reachable(s', max, consumers)
    requires s'.log.linked == s.log.linked + [v] && s'.log.delivered == s.log.delivered
    ensures Contents(s') == Contents(s) + [v]
  {
    LinkedIsDeliveredThenQueued(s, max, consumers);
    LinkedIsDeliveredThenQueued(s', max, consumers);
    CancelFront(s.log.delivered, Contents(s'), Contents(s) + [v]);
  }

  lemma CancelFront(a: seq<int>, b: seq<int>, c: seq<int>)
    requires a + b == a + c
    ensures b == c
  {
    assert (a + b)[|a|..] == b && (a + c)[|a|..] == c;
  }

  /** Wherever the others stand, the producer between its link and its swing included: a pop that runs alone comes to an
      end.  It fails, changing nothing, exactly if the queue is empty, and otherwise returns the oldest value and takes
      it off the queue. */
  lemma SoloPop(s: State, max: nat, consumers: nat, c: nat) returns (s': State)
    requires Reachable(s, max, consumers) && c < |s.consumers| && s.consumers[c].Idle?
    ensures Alone(s, Consume(c), s') && s'.producers == s.producers && s'.consumers == s.consumers
    ensures Contents(s) == [] ==> s' == s && Repeated(s, Consume(c), 4) == s
    ensures Contents(s) != [] ==>
              Contents(s') == Contents(s)[1..] && s'.log.returned == s.log.returned + [Contents(s)[0]]
  {
    var m := Consume(c);
    PopFinds(s, max, consumers);
    if Contents(s) == [] {
      s' := s;
      FailsInFour(s, c);
    } else {
      GoesNowhere(s, Only(m));
      if s.tail != s.head {
        PopCompletes(s, s, Only(m), c);
        s' := Popped(s);
      } else {
        PopRepairs(s, c);
        var repaired := s.(tail := s.mem[s.head.node].next);
        PopCompletesFromRead(s, repaired, Only(m), c);
        s' := Popped(repaired);
      }
      ReachesByAlone(s, m, s', max, consumers);
      PoppedContents(s, s', max, consumers);
    }
  }

  lemma FailsInFour(s: State, c: nat)
    requires c < |s.consumers| && s.consumers[c].Idle? && InMem(s, s.head) && s.mem[s.head.node].next.Null?
    ensures Repeated(s, Consume(c), 4) == s
  {
    var m := Consume(c);
    var s1, s2, s3 := SetC(s, c, HeadRead), SetC(s, c, HeadTail(s.head)), SetC(s, c, HeadNext(s.head, s.tail));
    assert Next(s, m) == s1 && Next(s1, m) == s2 && Next(s2, m) == s3;
    assert Next(s3, m) == s by { assert s3.consumers[c := Idle] == s.consumers; }
    assert Repeated(s, m, 0) == s && Repeated(s, m, 1) == s1;
    assert Repeated(s, m, 2) == s2 && Repeated(s, m, 3) == s3;
  }

  /** With `m_in` still at the dummy: one turn of the loop moves it to the last node and starts over. */
  lemma PopRepairs(s: State, c: nat)
    requires c < |s.consumers| && s.consumers[c].Idle? && s.tail == s.head && InMem(s, s.head)
    requires s.mem[s.head.node].next.At?
    ensures Goes(s, SetC(s.(tail := s.mem[s.head.node].next), c, HeadRead), Only(Consume(c)))
  {
    var who := Only(Consume(c));
    var next := s.mem[s.head.node].next;
    var s1, s3 := SetC(s, c, HeadNext(s.head, s.tail)), SetC(s.(tail := next), c, HeadRead);
    var s2 := SetC(s, c, HeadHelp(s.head, s.tail, next));
    GoesNowhere(s, who);
    Consumes(s, s, who, c, SetC(s, c, HeadRead));
    PopReadsEnds(s, s, who, c);
    Consumes(s, s1, who, c, s2);
    Consumes(s, s2, who, c, s3);
  }

  lemma PoppedContents(s: State, s': State, max: nat, consumers: nat)
    requires Reachable(s, max, consumers) && Reachable(s', max, consumers) && Contents(s) != []
    requires s'.log.linked == s.log.linked && s'.log.delivered == s.log.delivered + [Contents(s)[0]]
    ensures Contents(s') == Contents(s)[1..]
  {
    LinkedIsDeliveredThenQueued(s, max, consumers);
    LinkedIsDeliveredThenQueued(s', max, consumers);
    DropFront(s.log.linked, s.log.delivered, Contents(s), Contents(s'));
  }

  lemma DropFront(all: seq<int>, before: seq<int>, q: seq<int>, q': seq<int>)
    requires q != [] && all == before + q && all == before + [q[0]] + q'
    ensures q' == q[1..]
  {
    assert q == [q[0]] + q[1..];
    assert before + [q[0]] + q[1..] == before + q;
    CancelFront(before + [q[0]], q', q[1..]);
  }
}
