/**
 The lock-free list used by one thread at a time (src/thread/lockfreelist.h).

 The same code as in LockFreeSteps, on real fields and arrays, refining a bounded FIFO of capacity max - 1.
 Valid states include the one a stalled producer leaves behind, in which `m_in` is one node short of the end,
 so the repair branches of both loops are live here.
 */
module LockFreeQueue {
  import opened LockFreeSteps

  // ---------------------------------------------------------------- the two chains, as values

  /** `links` are the pointers from `m_out` to the last node, `spare` the free chain from its bottom up, and
      `held` the node (if any) in neither.  Together they are all of `max` nodes, each once. */
  ghost predicate Apart(max: nat, links: seq<Ptr>, spare: seq<nat>, held: set<nat>) {
    && |links| >= 1 && |links| + |spare| + |held| == max
    && (forall i | 0 <= i < |links| :: links[i].At? && links[i].node < max)
    && (forall k | 0 <= k < |spare| :: spare[k] < max)
    && (forall n | n in held :: n < max)
    && (forall i, j | 0 <= i < j < |links| :: links[i].node != links[j].node)
    && (forall j, k | 0 <= j < k < |spare| :: spare[j] != spare[k])
    && (forall i, k | 0 <= i < |links| && 0 <= k < |spare| :: links[i].node != spare[k])
    && (forall i | 0 <= i < |links| :: links[i].node !in held)
    && (forall k | 0 <= k < |spare| :: spare[k] !in held)
  }

  ghost predicate QueueChain(next: seq<Ptr>, links: seq<Ptr>) {
    && |links| >= 1
    && (forall i | 0 <= i < |links| :: links[i].At? && links[i].node < |next|)
    && (forall i, j | 0 <= i && j == i + 1 < |links| :: next[links[i].node] == links[j])
    && next[links[|links| - 1].node] == Null
  }

  ghost predicate FreeChain(next: seq<Ptr>, spare: seq<nat>, free: Ptr) {
    && (forall k | 0 <= k < |spare| :: spare[k] < |next|)
    && (|spare| > 0 ==> next[spare[0]] == Null)
    && (forall j, k | 0 <= j && k == j + 1 < |spare| :: PointsTo(next[spare[k]], spare[j]))
    && (if |spare| == 0 then free == Null else free.At? && free.node == spare[|spare| - 1])
  }

  /** `m_in` is the last link or the one before it. */
  ghost predicate NearEnd(tail: Ptr, links: seq<Ptr>) {
    |links| >= 1 && (tail == links[|links| - 1] || (|links| >= 2 && tail == links[|links| - 2]))
  }

  ghost function Values(data: seq<int>, links: seq<Ptr>): (vs: seq<int>)
    requires |links| >= 1 && forall i | 0 <= i < |links| :: links[i].At? && links[i].node < |data|
    ensures |vs| == |links| - 1
  {
    seq(|links| - 1, i requires 0 <= i < |links| - 1 => data[links[i + 1].node])
  }

  lemma OffTheQueue(next: seq<Ptr>, links: seq<Ptr>, n: nat, p: Ptr)
    requires QueueChain(next, links) && n < |next| && forall i | 0 <= i < |links| :: links[i].node != n
    ensures QueueChain(next[n := p], links)
  {
  }

  lemma OffTheFreeChain(next: seq<Ptr>, spare: seq<nat>, free: Ptr, n: nat, p: Ptr)
    requires FreeChain(next, spare, free) && n < |next| && forall k | 0 <= k < |spare| :: spare[k] != n
    ensures FreeChain(next[n := p], spare, free)
  {
    forall j, k | 0 <= j && k == j + 1 < |spare| ensures PointsTo(next[n := p][spare[k]], spare[j]) {
      assert PointsTo(next[spare[k]], spare[j]);
    }
  }

  lemma TakeTop(next: seq<Ptr>, spare: seq<nat>, free: Ptr)
    requires FreeChain(next, spare, free) && free.At?
    ensures |spare| > 0 && free.node == spare[|spare| - 1] && FreeChain(next, spare[..|spare| - 1], next[free.node])
  {
    var rest := spare[..|spare| - 1];
    forall j, k | 0 <= j && k == j + 1 < |rest| ensures PointsTo(next[rest[k]], rest[j]) {
      assert PointsTo(next[spare[k]], spare[j]);
    }
    if |rest| > 0 {
      assert PointsTo(next[spare[|rest|]], spare[|rest| - 1]);
    }
  }

  lemma PutTop(next: seq<Ptr>, spare: seq<nat>, free: Ptr, tag: nat, n: nat)
    requires FreeChain(next, spare, free) && n < |next| && next[n] == free
    ensures FreeChain(next, spare + [n], At(tag, n))
  {
    var all := spare + [n];
    assert all[|spare|] == n;
    forall j, k | 0 <= j && k == j + 1 < |all| ensures PointsTo(next[all[k]], all[j]) {
      if k < |spare| {
        assert PointsTo(next[spare[k]], spare[j]);
      }
    }
  }

  lemma PutApart(max: nat, links: seq<Ptr>, spare: seq<nat>, n: nat)
    requires Apart(max, links, spare, {n})
    ensures Apart(max, links, spare + [n], {})
  {
  }

  /** The free chain after construction, from its bottom up: every node but the dummy 0. */
  function AllSpare(max: nat): seq<nat>
    requires max >= 1
  {
    seq(max - 1, k requires 0 <= k < max - 1 => max - 1 - k)
  }

  lemma FreshChains(max: nat, next: seq<Ptr>)
    requires |next| == max >= 1 && next[0] == Null && next[max - 1] == Null
    requires forall n | 1 <= n < max - 1 :: next[n] == At(n + 1, n + 1)
    ensures Apart(max, [At(0, 0)], AllSpare(max), {}) && QueueChain(next, [At(0, 0)])
    ensures FreeChain(next, AllSpare(max), if max == 1 then Null else At(1, 1))
  {
    var spare := AllSpare(max);
    forall j, k | 0 <= j && k == j + 1 < |spare| ensures PointsTo(next[spare[k]], spare[j]) {
      assert spare[k] == max - 1 - k && spare[j] == max - 1 - j;
    }
  }

  /** What follows the first link and what follows a link near the end. */
  lemma FollowedBy(next: seq<Ptr>, links: seq<Ptr>, tail: Ptr)
    requires QueueChain(next, links) && NearEnd(tail, links)
    ensures next[links[0].node] == if |links| == 1 then Null else links[1]
    ensures tail.At? && tail.node < |next|
    ensures next[tail.node] == if tail == links[|links| - 1] then Null else links[|links| - 1]
  {
    if |links| >= 2 {
      assert next[links[0].node] == links[1];
      assert next[links[|links| - 2].node] == links[|links| - 1];
    }
  }

  lemma LinkLast(max: nat, next: seq<Ptr>, links: seq<Ptr>, spare: seq<nat>, mine: Ptr)
    requires mine.At? && Apart(max, links, spare, {mine.node}) && |next| == max
    requires QueueChain(next, links) && next[mine.node] == Null
    ensures Apart(max, links + [mine], spare, {})
    ensures QueueChain(next[links[|links| - 1].node := mine], links + [mine])
  {
    var all := links + [mine];
    var last := links[|links| - 1].node;
    var next' := next[last := mine];
    assert all[|links|] == mine && forall i | 0 <= i < |links| :: all[i] == links[i];
    forall i, j | 0 <= i && j == i + 1 < |all| ensures next'[all[i].node] == all[j] {
      if j < |links| {
        assert next[links[i].node] == links[j];
      }
    }
  }

  lemma DropFirst(max: nat, next: seq<Ptr>, links: seq<Ptr>, spare: seq<nat>)
    requires Apart(max, links, spare, {}) && |next| == max && QueueChain(next, links) && |links| >= 2
    ensures Apart(max, links[1..], spare, {links[0].node}) && QueueChain(next, links[1..])
  {
  }

  lemma ValuesAppend(data: seq<int>, data': seq<int>, links: seq<Ptr>, mine: Ptr, v: int)
    requires |links| >= 1 && forall i | 0 <= i < |links| :: links[i].At? && links[i].node < |data|
    requires mine.At? && mine.node < |data| && data' == data[mine.node := v]
    requires forall i | 0 <= i < |links| :: links[i].node != mine.node
    ensures Values(data', links + [mine]) == Values(data, links) + [v]
  {
  }

  lemma ValuesDrop(data: seq<int>, links: seq<Ptr>)
    requires |links| >= 2 && forall i | 0 <= i < |links| :: links[i].At? && links[i].node < |data|
    ensures Values(data, links)[0] == data[links[1].node] && Values(data, links[1..]) == Values(data, links)[1..]
  {
  }

  // ---------------------------------------------------------------- the class

  class LockFreeList {
    const max: nat
    const next: array<Ptr>
    const data: array<int>
    var id: nat
    var tail: Ptr
    var head: Ptr
    var free: Ptr

    ghost var links: seq<Ptr>
    ghost var spare: seq<nat>

    /** Both chains are well formed and `held` is what is in neither. */
    ghost predicate Holding(held: set<nat>)
      reads this, next, data
    {
      && next.Length == data.Length == max
      && Apart(max, links, spare, held)
      && QueueChain(next[..], links) && FreeChain(next[..], spare, free)
      && head == links[0] && NearEnd(tail, links)
    }

    ghost predicate Valid()
      reads this, next, data
    {
      Holding({})
    }

    ghost function Contents(): (vs: seq<int>)
      reads this, next, data
      requires |links| >= 1 && forall i | 0 <= i < |links| :: links[i].At? && links[i].node < data.Length
    {
      Values(data[..], links)
    }

    /** Nobody has stalled between linking a node and swinging `m_in` to it. */
    ghost predicate Settled()
      reads this
    {
      |links| >= 1 && tail == links[|links| - 1]
    }

    constructor (capacity: nat)
      requires capacity >= 1
      ensures Valid() && Settled() && max == capacity && Contents() == []
    {
      max := capacity;
      next := new Ptr[capacity](_ => Null);
      data := new int[capacity];
      id, tail, head, free := 0, Null, Null, Null;
      links, spare := [], [];
      new;
      InitInternalNodeList();
      // AllocNode, which cannot fail here
      var node := free;
      free := next[node.node];
      next[node.node] := Null;
      tail := At(0, node.node);
      head := tail;
      links := [tail];
      spare := AllSpare(capacity);
      FreshChains(capacity, next[..]);
    }

    method InitInternalNodeList()
      requires next.Length == max >= 1
      modifies this`id, this`free, next
      ensures id == max - 1 && free == At(0, 0)
      ensures forall n | 0 <= n < max - 1 :: next[n] == At(n + 1, n + 1)
      ensures next[max - 1] == Null
    {
      var i := 0;
      while i < max - 1
        invariant 0 <= i <= max - 1
        invariant forall n | 0 <= n < i :: next[n] == At(n + 1, n + 1)
      {
        next[i] := At(i + 1, i + 1);
        i := i + 1;
      }
      next[i] := Null;
      free := At(0, 0);
      id := i;
    }

    // Each compare-and-swap of the source, with both outcomes and what success does to the chains.

    /** `atomic_cas2(&m_head, was, m_head->next)` in AllocNode: the top free node comes off. */
    method CasFreeOff(was: Ptr) returns (swapped: bool)
      requires Valid() && was.At? && free.At?
      modifies this`free, this`spare
      ensures swapped <==> old(free) == was
      ensures swapped ==> was.node < max && Holding({was.node}) && |old(spare)| > 0
      ensures !swapped ==> Valid() && free == old(free) && spare == old(spare)
    {
      swapped := free == was;
      if swapped {
        TakeTop(next[..], spare, free);
        free := next[free.node];
        spare := spare[..|spare| - 1];
      }
    }

    /** `atomic_cas2(&m_head, was, mine)` in ReleaseNode: the node goes on top. */
    method CasFreeOn(was: Ptr, mine: Ptr) returns (swapped: bool)
      requires mine.At? && mine.node < max && Holding({mine.node}) && next[mine.node] == was
      modifies this`free, this`spare
      ensures swapped <==> old(free) == was
      ensures if swapped then Valid() else Holding({mine.node})
    {
      swapped := free == was;
      if swapped {
        PutTop(next[..], spare, free, mine.tag, mine.node);
        PutApart(max, links, spare, mine.node);
        free := mine;
        spare := spare + [mine.node];
      }
    }

    /** `atomic_cas2(&m_in, was, to)`, where `to` is the last link. */
    method CasTail(was: Ptr, to: Ptr, ghost held: set<nat>)
      requires Holding(held) && |links| >= 2 && was == links[|links| - 2] && to == links[|links| - 1]
      modifies this`tail
      ensures Holding(held) && Settled()
    {
      if tail == was {
        tail := to;
      }
    }

    /** `atomic_cas2(&at->next, 0, mine)` in push: the node becomes the last one. */
    method CasLink(at: nat, mine: Ptr) returns (swapped: bool)
      requires mine.At? && mine.node < max && Holding({mine.node}) && next[mine.node] == Null
      requires at < max && (next[at] == Null ==> Settled() && at == tail.node)
      modifies this`links, next
      ensures swapped <==> old(next[at]) == Null
      ensures swapped ==> Valid() && links == old(links) + [mine]
      ensures !swapped ==> Holding({mine.node}) && links == old(links) && next[mine.node] == Null
    {
      swapped := next[at] == Null;
      if swapped {
        LinkLast(max, next[..], links, spare, mine);
        OffTheFreeChain(next[..], spare, free, at, mine);
        ghost var linked := next[..][at := mine];
        next[at] := mine;
        assert next[..] == linked;
        links := links + [mine];
      }
    }

    /** `atomic_cas2(&m_out, was, to)` in pop: the second node becomes the dummy. */
    method CasHead(was: Ptr, to: Ptr) returns (swapped: bool)
      requires Valid() && was.At? && (head == was ==> |links| >= 2 && tail != was && to == links[1])
      modifies this`head, this`links
      ensures swapped <==> old(head) == was
      ensures swapped ==> was.node < max && Holding({was.node}) && links == old(links)[1..]
      ensures !swapped ==> Valid() && links == old(links) && head == old(head)
    {
      swapped := head == was;
      if swapped {
        DropFirst(max, next[..], links, spare);
        head := to;
        links := links[1..];
      }
    }

    /** A plain write to the link of the node that is in neither chain. */
    method WriteNext(node: nat, p: Ptr)
      requires node < max && Holding({node})
      modifies next
      ensures Holding({node}) && next[node] == p
    {
      OffTheQueue(next[..], links, node, p);
      OffTheFreeChain(next[..], spare, free, node, p);
      ghost var written := next[..][node := p];
      next[node] := p;
      assert next[..] == written;
    }

    method AllocNode() returns (node: Ptr)
      requires Valid()
      modifies this`free, this`spare, next
      ensures node.Null? <==> old(spare) == []
      ensures node.Null? ==> Valid()
      ensures node.At? ==> node.node < max && Holding({node.node}) && next[node.node] == Null
    {
      node := Null;
      var swapped := false;
      while !swapped
        invariant !swapped ==> Valid() && spare == old(spare)
        invariant swapped ==> node.At? && node.node < max && Holding({node.node}) && old(spare) != []
        decreases !swapped
      {
        node := free;
        if node.Null? {
          return;
        }
        swapped := CasFreeOff(node);
      }
      WriteNext(node.node, Null);
    }

    method ReleaseNode(node: nat)
      requires node < max && Holding({node})
      modifies this`id, this`free, this`spare, next
      ensures Valid()
    {
      var mine := At(id, node);
      id := id + 1;
      var swapped := false;
      while !swapped
        invariant if swapped then Valid() else Holding({node})
        decreases !swapped
      {
        var was := free;
        WriteNext(node, was);
        swapped := CasFreeOn(was, mine);
      }
    }

    method Push(v: int) returns (ok: bool)
      requires Valid()
      modifies this`id, this`free, this`tail, this`links, this`spare, next, data
      ensures Valid()
      ensures ok <==> |old(Contents())| < max - 1
      ensures Contents() == if ok then old(Contents()) + [v] else old(Contents())
      ensures ok ==> Settled()
    {
      var node := AllocNode();
      if node.Null? {
        return false;
      }
      Append(node.node, v);
      return true;
    }

    /** The rest of push, once it has a node. */
    method Append(node: nat, v: int)
      requires node < max && Holding({node})
      modifies this`id, this`tail, this`links, next, data
      ensures Valid() && Settled() && Contents() == old(Contents()) + [v]
    {
      ghost var links0, data0 := links, data[..];
      Fill(node, v);
      var mine := At(id, node);
      id := id + 1;
      ValuesAppend(data0, data[..], links0, mine, v);
      LinkAndSwing(mine);
    }

    method LinkAndSwing(mine: Ptr)
      requires mine.At? && mine.node < max && Holding({mine.node}) && next[mine.node] == Null
      modifies this`tail, this`links, next
      ensures Valid() && Settled() && links == old(links) + [mine]
    {
      var last := LinkLoop(mine);
      CasTail(last, mine, {});
    }

    method Fill(node: nat, v: int)
      requires node < max && Holding({node})
      modifies next, data
      ensures Holding({node}) && next[node] == Null && data[..] == old(data[..])[node := v]
    {
      ghost var filled := data[..][node := v];
      data[node] := v;
      assert data[..] == filled;
      assert Holding({node});
      WriteNext(node, Null);
    }

    /** The retry loop of push: repair a lagging `m_in` if need be, then link behind the last node. */
    method LinkLoop(mine: Ptr) returns (last: Ptr)
      requires mine.At? && mine.node < max && Holding({mine.node}) && next[mine.node] == Null
      modifies this`tail, this`links, next
      ensures Valid() && links == old(links) + [mine] && last == links[|links| - 2]
    {
      last := tail;
      var linked := false;
      while !linked
        invariant !linked ==> Holding({mine.node}) && next[mine.node] == Null && links == old(links)
        invariant linked ==> Valid() && links == old(links) + [mine] && last == links[|links| - 2]
        decreases !linked, !Settled()
      {
        linked, last := TryLink(mine);
      }
    }

    /** One turn of that loop: a turn that finds `m_in` lagging repairs it and fails to link. */
    method TryLink(mine: Ptr) returns (linked: bool, last: Ptr)
      requires mine.At? && mine.node < max && Holding({mine.node}) && next[mine.node] == Null
      modifies this`tail, this`links, next
      ensures linked <==> old(Settled())
      ensures linked ==> Valid() && links == old(links) + [mine] && last == links[|links| - 2]
      ensures !linked ==> Holding({mine.node}) && next[mine.node] == Null && links == old(links) && Settled()
    {
      FollowedBy(next[..], links, tail);
      last := tail;
      var after := next[last.node];
      if !after.Null? {
        CasTail(last, after, {mine.node});
      }
      linked := CasLink(last.node, mine);
    }

    method Pop() returns (ok: bool, v: int)
      requires Valid()
      modifies this`id, this`head, this`free, this`tail, this`links, this`spare, next
      ensures Valid()
      ensures ok <==> old(Contents()) != []
      ensures ok ==> v == old(Contents())[0] && Contents() == old(Contents())[1..]
      ensures !ok ==> Contents() == old(Contents())
    {
      ghost var links0 := links;
      var out;
      out, v := Unlink();
      if out.Null? {
        return false, v;
      }
      ValuesDrop(data[..], links0);
      ReleaseNode(out.node);
      return true, v;
    }

    /** The retry loop of pop: `Null` if the queue is empty, otherwise the old dummy and the value behind it. */
    method Unlink() returns (out: Ptr, v: int)
      requires Valid()
      modifies this`head, this`tail, this`links
      ensures out.Null? <==> |old(links)| == 1
      ensures out.Null? ==> Valid() && links == old(links)
      ensures out.At? ==> out.node < max && Holding({out.node}) && links == old(links)[1..]
      ensures out.At? ==> v == data[links[0].node]
    {
      out := Null;
      v := 0;
      var done := false;
      while !done
        invariant !done || out.Null? ==> Valid() && links == old(links) && (done ==> |links| == 1)
        invariant done && out.At? ==> |old(links)| > 1 && out.node < max && Holding({out.node})
        invariant done && out.At? ==> links == old(links)[1..] && v == data[links[0].node]
        decreases !done, !Settled()
      {
        done, out, v := TryUnlink();
      }
    }

    /** One turn of that loop: a turn that finds `m_in` still at the dummy repairs it and is not done. */
    method TryUnlink() returns (done: bool, out: Ptr, v: int)
      requires Valid()
      modifies this`head, this`tail, this`links
      ensures done && out.Null? ==> Valid() && links == old(links) && |links| == 1
      ensures done && out.At? ==> |old(links)| > 1 && out.node < max && Holding({out.node})
      ensures done && out.At? ==> links == old(links)[1..] && v == data[links[0].node]
      ensures !done ==> Valid() && links == old(links) && Settled() && !old(Settled())
    {
      v := 0;
      out := head;
      var last := tail;
      FollowedBy(next[..], links, tail);
      var after := next[out.node];
      if after == Null {
        return true, Null, v;
      }
      if last == out {
        CasTail(last, after, {});
        return false, out, v;
      }
      v := data[after.node];
      done := CasHead(out, after);
    }
  }
}
