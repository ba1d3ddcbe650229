/** What callers of pop get back, for any number of producers and consumers (src/thread/lockfreelist.h:123-161). */
module LockFreeReturns {
  import opened LockFreeSteps
  import opened LockFreeInvariant
  import opened LockFreeTheorems

  function Times(vs: seq<int>, v: int): nat {
    if vs == [] then 0 else (if vs[0] == v then 1 else 0) + Times(vs[1..], v)
  }

  /** How many consumers have taken v off the queue and are about to return it. */
  function Returning(cs: seq<Consumer>, v: int): nat {
    if cs == [] then 0 else Times(Unreturned(cs[0]), v) + Returning(cs[1..], v)
  }

  predicate Accounted(s: State, v: int) {
    Times(s.log.delivered, v) == Times(s.log.returned, v) + Returning(s.consumers, v)
  }

  /** The node a consumer is to release is one of memory's, so releasing it cannot fault. */
  predicate HandInMem(c: Consumer, size: nat) {
    match c
    case FreeId(node, _) => node < size
    case FreeRead(mine, _) => mine.At? && mine.node < size
    case FreeNext(mine, _, _) => mine.At? && mine.node < size
    case FreeCas(mine, _, _) => mine.At? && mine.node < size
    case _ => true
  }

  ghost predicate HandsInMem(s: State) {
    forall c | 0 <= c < |s.consumers| :: HandInMem(s.consumers[c], |s.mem|)
  }

  lemma StepKeepsHands(s: State, m: Move)
    requires HandsInMem(s)
    ensures HandsInMem(Next(s, m))
  {
    StepKeepsSizes(s, m);
    if m.Consume? && m.c < |s.consumers| {
      OneHand(s, m.c);
    }
  }

  lemma OneHand(s: State, c: nat)
    requires c < |s.consumers| && HandInMem(s.consumers[c], |s.mem|)
    ensures var s' := ConsumerStep(s, c);
      s'.consumers == s.consumers[c := s'.consumers[c]] && HandInMem(s'.consumers[c], |s.mem|)
  {
  }

  lemma {:induction false} TimesAppend(a: seq<int>, b: seq<int>, v: int)
    ensures Times(a + b, v) == Times(a, v) + Times(b, v)
    decreases |a|
  {
    if a == [] {
      assert a + b == b;
    } else {
      assert (a + b)[1..] == a[1..] + b;
      TimesAppend(a[1..], b, v);
    }
  }

  lemma {:induction false} ReturningUpdate(cs: seq<Consumer>, c: nat, to: Consumer, v: int)
    requires c < |cs|
    ensures Returning(cs[c := to], v) + Times(Unreturned(cs[c]), v) == Returning(cs, v) + Times(Unreturned(to), v)
    decreases |cs|
  {
    if c == 0 {
      assert cs[c := to][1..] == cs[1..];
    } else {
      assert cs[c := to][1..] == cs[1..][c - 1 := to];
      ReturningUpdate(cs[1..], c - 1, to, v);
    }
  }

  /** What a consumer's step adds to the two logs it takes from its own hand, or puts there. */
  lemma StepBalances(s: State, c: nat)
    requires c < |s.consumers| && HandInMem(s.consumers[c], |s.mem|)
    ensures var s', to := ConsumerStep(s, c), ConsumerStep(s, c).consumers[c];
      && s'.consumers == s.consumers[c := to]
      && ((s'.log.delivered == s.log.delivered && s'.log.returned == s.log.returned
           && Unreturned(to) == Unreturned(s.consumers[c]))
          || (Unreturned(s.consumers[c]) == [] && s'.log.returned == s.log.returned
              && s'.log.delivered == s.log.delivered + Unreturned(to))
          || (Unreturned(to) == [] && s'.log.delivered == s.log.delivered
              && s'.log.returned == s.log.returned + Unreturned(s.consumers[c])))
  {
  }

  lemma StepAccounts(s: State, m: Move, v: int)
    requires Accounted(s, v) && HandsInMem(s)
    ensures Accounted(Next(s, m), v)
  {
    if m.Consume? && m.c < |s.consumers| {
      var s' := ConsumerStep(s, m.c);
      var to := s'.consumers[m.c];
      StepBalances(s, m.c);
      ReturningUpdate(s.consumers, m.c, to, v);
      TimesAppend(s.log.delivered, Unreturned(to), v);
      TimesAppend(s.log.returned, Unreturned(s.consumers[m.c]), v);
    }
  }

  lemma {:induction false} PathAccounts(states: seq<State>, i: nat, v: int)
    requires Path(states) && i < |states| && Accounted(states[0], v) && HandsInMem(states[0])
    ensures Accounted(states[i], v) && HandsInMem(states[i])
    decreases i
  {
    if i > 0 {
      PathAccounts(states, i - 1, v);
      assert Step(states[i - 1], states[i]);
      var m :| states[i] == Next(states[i - 1], m);
      StepAccounts(states[i - 1], m, v);
      StepKeepsHands(states[i - 1], m);
    }
  }

  lemma {:induction false} NobodyReturns(cs: seq<Consumer>, v: int)
    requires forall c | 0 <= c < |cs| :: cs[c] == Idle
    ensures Returning(cs, v) == 0
    decreases |cs|
  {
    if cs != [] {
      NobodyReturns(cs[1..], v);
    }
  }

  /** Whatever the numbers of producers and consumers, every value taken off the queue has been returned or is in the
      hands of one consumer that will return it, as often as it was taken off. */
  lemma DeliveredIsReturnedOrInHand(s: State, max: nat, producers: nat, consumers: nat, v: int)
    requires max >= 1 && Reaches(Init(max, producers, consumers), s)
    ensures Times(s.log.delivered, v) == Times(s.log.returned, v) + Returning(s.consumers, v)
  {
    var states: seq<State> :| Path(states) && states[0] == Init(max, producers, consumers) && states[|states| - 1] == s;
    NobodyReturns(states[0].consumers, v);
    PathAccounts(states, |states| - 1, v);
  }

  /** With one producer: every linked value has been returned, is about to be, or is still queued, and so for each
      number of times it was linked. */
  lemma LinkedIsReturnedOrQueued(s: State, max: nat, consumers: nat, v: int)
    requires Reachable(s, max, consumers)
    ensures Times(s.log.linked, v) ==
              Times(s.log.returned, v) + Returning(s.consumers, v) + Times(Contents(s), v)
  {
    LinkedIsDeliveredThenQueued(s, max, consumers);
    DeliveredIsReturnedOrInHand(s, max, 1, consumers, v);
    TimesAppend(s.log.delivered, Contents(s), v);
  }
}
