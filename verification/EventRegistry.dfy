/**
 The poller's table of awaited fd events, as a value (src/fiber/poller.cc:32-38, 59-210).

 Callbacks are opaque identities.  The kernel's epoll set is modelled by its documented answers to epoll_ctl;
 any refusal for other reasons is an input.
 */
module EventRegistry {

  datatype Event = Read | Write

  /** 0 stands for a null std::function. */
  type Callback = nat
  const NO_CALLBACK: Callback := 0

  /** One `FdContext`: a callback stays in its slot after it has been handed to the scheduler. */
  datatype Context = Context(events: set<Event>, readCb: Callback, writeCb: Callback)

  const IDLE := Context({}, NO_CALLBACK, NO_CALLBACK)

  /** The size of the table after construction. */
  const FIRST_SIZE: nat := 64

  datatype Registry =
    Registry(table: seq<Context>, pending: int, kernel: map<int, set<Event>>, scheduled: seq<Callback>)

  // ---------------------------------------------------------------- the kernel

  datatype Errno = EEXIST | ENOENT | Other(code: nat)
  datatype Op = Add | Mod | Del

  /** Whether the kernel has some other reason to refuse a call, such as no memory. */
  datatype Refusal = Accepts | Refuses(code: nat)

  datatype Reply = Granted | Denied(errno: Errno)
  datatype Answer = Answer(kernel: map<int, set<Event>>, reply: Reply)

  /** EEXIST answers only adding an fd that is watched, ENOENT only changing or deleting one that is not. */
  function Ctl(kernel: map<int, set<Event>>, fd: int, op: Op, mask: set<Event>, refusal: Refusal): Answer {
    if op.Add? && fd in kernel then Answer(kernel, Denied(EEXIST))
    else if !op.Add? && fd !in kernel then Answer(kernel, Denied(ENOENT))
    else if refusal.Refuses? then Answer(kernel, Denied(Other(refusal.code)))
    else if op.Del? then Answer(kernel - {fd}, Granted)
    else Answer(kernel[fd := mask], Granted)
  }

  // ---------------------------------------------------------------- one context

  function CallbackOf(c: Context, e: Event): Callback {
    if e == Read then c.readCb else c.writeCb
  }

  function WithCallback(c: Context, e: Event, cb: Callback): Context {
    if e == Read then c.(readCb := cb) else c.(writeCb := cb)
  }

  function Arm(c: Context, e: Event, cb: Callback): Context {
    WithCallback(c.(events := c.events + {e}), e, cb)
  }

  /** delEvent forgets the callback; triggerEvent leaves it. */
  function Disarm(c: Context, e: Event): Context {
    WithCallback(c.(events := c.events - {e}), e, NO_CALLBACK)
  }

  function Trigger(c: Context, e: Event): Context {
    c.(events := c.events - {e})
  }

  // ---------------------------------------------------------------- the operations

  /** `OutOfBounds` is indexing m_fdContexts outside its size, which the language leaves undefined. */
  datatype Outcome = Outcome(registry: Registry, ok: bool) | OutOfBounds

  /** The size of the table once addEvent has made room. */
  function Resized(size: nat, fd: int): nat {
    if size < fd then 2 * fd else size
  }

  predicate InTable(size: nat, fd: int) {
    0 <= fd < size
  }

  /** `resize` never shrinks here: it is only called with twice an fd beyond the table. */
  function Grown(table: seq<Context>, fd: int): (t: seq<Context>)
    ensures |t| == Resized(|table|, fd) >= |table|
    ensures forall i | 0 <= i < |t| :: t[i] == if i < |table| then table[i] else IDLE
  {
    if |table| < fd then table + seq(2 * fd - |table|, _ => IDLE) else table
  }

  function AddEvent(r: Registry, fd: int, e: Event, cb: Callback, refusal: Refusal): Outcome {
    var table := Grown(r.table, fd);
    if !InTable(|table|, fd) then OutOfBounds
    else
      var c := table[fd];
      var a := Ctl(r.kernel, fd, if c.events == {} then Add else Mod, {e} + c.events, refusal);
      if a.reply.Denied? then Outcome(r.(table := table), false)
      else Outcome(r.(table := table[fd := Arm(c, e, cb)], pending := r.pending + 1, kernel := a.kernel), true)
  }

  function DelEvent(r: Registry, fd: int, e: Event, refusal: Refusal): Outcome {
    if |r.table| < fd then Outcome(r, false)
    else if !InTable(|r.table|, fd) then OutOfBounds
    else if e !in r.table[fd].events then Outcome(r, false)
    else
      var c := r.table[fd];
      var left := c.events - {e};
      var a := Ctl(r.kernel, fd, if left == {} then Del else Mod, left, refusal);
      if a.reply.Denied? && a.reply.errno != EEXIST then Outcome(r, false)
      else Outcome(r.(table := r.table[fd := Disarm(c, e)], pending := r.pending - 1, kernel := a.kernel), true)
  }

  function CancelEvent(r: Registry, fd: int, e: Event, refusal: Refusal): Outcome {
    if |r.table| < fd then Outcome(r, false)
    else if !InTable(|r.table|, fd) then OutOfBounds
    else if e !in r.table[fd].events then Outcome(r, false)
    else
      var c := r.table[fd];
      var left := c.events - {e};
      var a := Ctl(r.kernel, fd, if left == {} then Del else Mod, left, refusal);
      if a.reply.Denied? then Outcome(r, false)
      else Outcome(Fire(r.(kernel := a.kernel), fd, e), true)
  }

  /** triggerEvent, and the count going down beside it. */
  function Fire(r: Registry, fd: int, e: Event): Registry
    requires InTable(|r.table|, fd)
  {
    r.(table := r.table[fd := Trigger(r.table[fd], e)], pending := r.pending - 1,
       scheduled := r.scheduled + [CallbackOf(r.table[fd], e)])
  }

  function FireIfArmed(r: Registry, fd: int, e: Event): (r': Registry)
    requires InTable(|r.table|, fd)
    ensures |r'.table| == |r.table|
  {
    if e in r.table[fd].events then Fire(r, fd, e) else r
  }

  function CancelAll(r: Registry, fd: int, refusal: Refusal): Outcome {
    if |r.table| < fd then Outcome(r, false)
    else if !InTable(|r.table|, fd) then OutOfBounds
    else
      var a := Ctl(r.kernel, fd, Del, {}, refusal);
      if a.reply.Denied? then Outcome(r, false)
      else Outcome(FireIfArmed(FireIfArmed(r.(kernel := a.kernel), fd, Read), fd, Write), true)
  }

  // ---------------------------------------------------------------- what the table holds

  function Bits(c: Context): nat {
    (if Read in c.events then 1 else 0) + (if Write in c.events then 1 else 0)
  }

  /** The number of armed bits over all fds. */
  function Armed(table: seq<Context>): nat {
    if table == [] then 0 else Bits(table[0]) + Armed(table[1..])
  }

  function Waiting(c: Context, cb: Callback): nat {
    (if Read in c.events && c.readCb == cb then 1 else 0) + (if Write in c.events && c.writeCb == cb then 1 else 0)
  }

  /** How many armed events a callback is waiting for. */
  function Held(table: seq<Context>, cb: Callback): nat {
    if table == [] then 0 else Waiting(table[0], cb) + Held(table[1..], cb)
  }

  lemma {:induction false} UpdateOne(table: seq<Context>, i: nat, c: Context, cb: Callback)
    requires i < |table|
    ensures Armed(table[i := c]) + Bits(table[i]) == Armed(table) + Bits(c)
    ensures Held(table[i := c], cb) + Waiting(table[i], cb) == Held(table, cb) + Waiting(c, cb)
  {
    var table' := table[i := c];
    if i == 0 {
      assert table'[1..] == table[1..];
    } else {
      assert table'[1..] == table[1..][i - 1 := c];
      UpdateOne(table[1..], i - 1, c, cb);
    }
  }

  lemma {:induction false} HeldOfIdle(table: seq<Context>, more: seq<Context>, cb: Callback)
    requires forall i | 0 <= i < |more| :: more[i] == IDLE
    ensures Armed(table + more) == Armed(table) && Held(table + more, cb) == Held(table, cb)
    decreases |table|, |more|
  {
    if table != [] {
      assert (table + more)[1..] == table[1..] + more;
      HeldOfIdle(table[1..], more, cb);
    } else if more != [] {
      assert table + more == more;
      assert [] + more[1..] == more[1..];
      HeldOfIdle([], more[1..], cb);
    }
  }

  lemma GrownHoldsTheSame(table: seq<Context>, fd: int, cb: Callback)
    ensures Armed(Grown(table, fd)) == Armed(table) && Held(Grown(table, fd), cb) == Held(table, cb)
  {
    if |table| < fd {
      HeldOfIdle(table, seq(2 * fd - |table|, _ => IDLE), cb);
    }
  }

  lemma SomeEvent(events: set<Event>)
    requires events != {}
    ensures Read in events || Write in events
  {
    var e :| e in events;
    assert e == Read || e == Write;
  }

  // ---------------------------------------------------------------- the kernel's interest mask

  /** The kernel watches exactly the fds with armed events, each with exactly its `events_`. */
  ghost predicate InterestAgrees(r: Registry) {
    && (forall fd | fd in r.kernel :: 0 <= fd < |r.table|)
    && (forall fd | 0 <= fd < |r.table| :: Agrees(r.table[fd], fd, r.kernel))
  }

  /** The event is armed on an fd of the table. */
  predicate Arms(r: Registry, fd: int, e: Event) {
    InTable(|r.table|, fd) && e in r.table[fd].events
  }

  ghost predicate Agrees(c: Context, fd: int, kernel: map<int, set<Event>>) {
    if fd in kernel then c.events != {} && kernel[fd] == c.events else c.events == {}
  }

  lemma AddKeepsInterest(r: Registry, fd: int, e: Event, cb: Callback, refusal: Refusal)
    requires InterestAgrees(r) && AddEvent(r, fd, e, cb, refusal).Outcome?
    ensures InterestAgrees(AddEvent(r, fd, e, cb, refusal).registry)
    ensures AddEvent(r, fd, e, cb, refusal).ok <==> refusal.Accepts?
  {
    var table := Grown(r.table, fd);
    assert InterestAgrees(r.(table := table));
    assert Agrees(table[fd], fd, r.kernel);
    assert {e} + table[fd].events == Arm(table[fd], e, cb).events;
    assert e in Arm(table[fd], e, cb).events;
  }

  lemma CancelKeepsInterest(r: Registry, fd: int, e: Event, refusal: Refusal)
    requires InterestAgrees(r) && CancelEvent(r, fd, e, refusal).Outcome?
    ensures InterestAgrees(CancelEvent(r, fd, e, refusal).registry)
    ensures CancelEvent(r, fd, e, refusal).ok <==> Arms(r, fd, e) && refusal.Accepts?
  {
    if fd < |r.table| {
      assert Agrees(r.table[fd], fd, r.kernel);
    }
  }

  /** cancelAll succeeds only on an fd with something armed: deleting an unwatched fd is an error. */
  lemma CancelAllKeepsInterest(r: Registry, fd: int, refusal: Refusal)
    requires InterestAgrees(r) && CancelAll(r, fd, refusal).Outcome?
    ensures InterestAgrees(CancelAll(r, fd, refusal).registry)
    ensures CancelAll(r, fd, refusal).ok <==>
              fd < |r.table| && r.table[fd].events != {} && refusal.Accepts?
    ensures CancelAll(r, fd, refusal).ok ==> CancelAll(r, fd, refusal).registry.table[fd].events == {}
  {
    if fd < |r.table| {
      assert Agrees(r.table[fd], fd, r.kernel);
      if fd in r.kernel && refusal.Accepts? {
        var r' := CancelAll(r, fd, refusal).registry;
        if r'.table[fd].events != {} {
          SomeEvent(r'.table[fd].events);
        }
        assert forall i | 0 <= i < |r.table| && i != fd :: r'.table[i] == r.table[i];
      }
    }
  }

  /** delEvent asks the kernel to change or delete a watched fd, so what it tolerates never comes back. */
  lemma DelKeepsInterest(r: Registry, fd: int, e: Event, refusal: Refusal)
    requires InterestAgrees(r) && DelEvent(r, fd, e, refusal).Outcome?
    ensures InterestAgrees(DelEvent(r, fd, e, refusal).registry)
    ensures DelEvent(r, fd, e, refusal).ok <==> Arms(r, fd, e) && refusal.Accepts?
  {
    if Arms(r, fd, e) {
      assert Agrees(r.table[fd], fd, r.kernel);
    }
  }

  // ---------------------------------------------------------------- what each operation changes

  /** Every other fd is as it was; places added to the table are idle. */
  ghost predicate OtherFdsKept(r: Registry, r': Registry, fd: int) {
    && (forall i | 0 <= i < |r'.table| && i != fd :: r'.table[i] == if i < |r.table| then r.table[i] else IDLE)
    && (forall i | i != fd :: i in r'.kernel <==> i in r.kernel)
    && (forall i | i != fd && i in r.kernel :: i in r'.kernel && r'.kernel[i] == r.kernel[i])
  }

  /** An addEvent that is accepted, the fd beyond the table or in it: this event is armed with this callback, the other
      event of the fd is as it was, the kernel watches both, and nothing is handed over. */
  lemma AddDoes(r: Registry, fd: int, e: Event, cb: Callback)
    requires InterestAgrees(r) && 0 <= fd && fd != |r.table|
    ensures var o := AddEvent(r, fd, e, cb, Accepts);
      && o.Outcome? && o.ok && fd < |o.registry.table| == (if |r.table| < fd then 2 * fd else |r.table|)
      && OtherFdsKept(r, o.registry, fd)
      && var before, c := if fd < |r.table| then r.table[fd] else IDLE, o.registry.table[fd];
      && c.events == before.events + {e} && fd in o.registry.kernel && o.registry.kernel[fd] == c.events
      && (e == Read ==> c.readCb == cb && c.writeCb == before.writeCb)
      && (e == Write ==> c.writeCb == cb && c.readCb == before.readCb)
      && o.registry.pending == r.pending + 1 && o.registry.scheduled == r.scheduled
  {
    AddKeepsInterest(r, fd, e, cb, Accepts);
    assert Agrees(Grown(r.table, fd)[fd], fd, r.kernel);
  }

  /** A delEvent that is accepted clears this bit and forgets its callback, hands nothing over, and leaves the other
      event of the fd armed or not as it was. */
  lemma DelDoes(r: Registry, fd: int, e: Event)
    requires InterestAgrees(r) && Arms(r, fd, e)
    ensures var o := DelEvent(r, fd, e, Accepts);
      && o.Outcome? && o.ok && |o.registry.table| == |r.table| && OtherFdsKept(r, o.registry, fd)
      && var before, c := r.table[fd], o.registry.table[fd];
      && c.events == before.events - {e}
      && (e == Read ==> c.readCb == 0 && c.writeCb == before.writeCb)
      && (e == Write ==> c.writeCb == 0 && c.readCb == before.readCb)
      && o.registry.pending == r.pending - 1 && o.registry.scheduled == r.scheduled
  {
    assert Agrees(r.table[fd], fd, r.kernel);
  }

  /** A cancelEvent that is accepted clears this bit and hands exactly its callback over. */
  lemma CancelDoes(r: Registry, fd: int, e: Event)
    requires InterestAgrees(r) && Arms(r, fd, e)
    ensures var o := CancelEvent(r, fd, e, Accepts);
      && o.Outcome? && o.ok && |o.registry.table| == |r.table| && OtherFdsKept(r, o.registry, fd)
      && var before, c := r.table[fd], o.registry.table[fd];
      && c == before.(events := before.events - {e})
      && o.registry.scheduled == r.scheduled + [if e == Read then before.readCb else before.writeCb]
      && o.registry.pending == r.pending - 1
  {
    assert Agrees(r.table[fd], fd, r.kernel);
  }

  /** A cancelAll that is accepted hands over what is armed, the read callback first. */
  lemma CancelAllDoes(r: Registry, fd: int)
    requires InterestAgrees(r) && InTable(|r.table|, fd) && r.table[fd].events != {}
    ensures var o := CancelAll(r, fd, Accepts);
      && o.Outcome? && o.ok && |o.registry.table| == |r.table| && OtherFdsKept(r, o.registry, fd)
      && var before := r.table[fd];
      && o.registry.table[fd] == before.(events := {}) && fd !in o.registry.kernel
      && o.registry.scheduled == r.scheduled
           + (if Read in before.events then [before.readCb] else [])
           + (if Write in before.events then [before.writeCb] else [])
      && o.registry.pending == r.pending
           - (if Read in before.events then 1 else 0) - (if Write in before.events then 1 else 0)
  {
    assert Agrees(r.table[fd], fd, r.kernel);
    CancelAllKeepsInterest(r, fd, Accepts);
  }

  /** An operation that answers no changes nothing, but that addEvent has made room. */
  lemma RefusedChangesNothing(r: Registry, m: Move)
    requires Perform(r, m).Outcome? && !Perform(r, m).ok
    ensures m.AddMove? ==> Perform(r, m).registry == r.(table := Grown(r.table, m.fd))
    ensures !m.AddMove? ==> Perform(r, m).registry == r
  {
  }

  // ---------------------------------------------------------------- operations that undo each other

  /** Arming an event that is not armed, on an fd in the table or beyond it, and then cancelling it hands the callback
      over once and leaves the counts and masks as they were. */
  lemma CancelUndoesAdd(r: Registry, fd: int, e: Event, cb: Callback)
    requires InterestAgrees(r) && 0 <= fd && fd != |r.table| && !Arms(r, fd, e)
    ensures var armed, table := AddEvent(r, fd, e, cb, Accepts), Grown(r.table, fd);
      && armed.Outcome? && armed.ok
      && var cancelled := CancelEvent(armed.registry, fd, e, Accepts);
      && cancelled.Outcome? && cancelled.ok
      && cancelled.registry ==
           r.(table := table[fd := WithCallback(table[fd], e, cb)], scheduled := r.scheduled + [cb])
  {
    var table := Grown(r.table, fd);
    var c := table[fd];
    assert Agrees(c, fd, r.kernel);
    AddKeepsInterest(r, fd, e, cb, Accepts);
    var armed := AddEvent(r, fd, e, cb, Accepts).registry;
    assert armed.table[fd] == Arm(c, e, cb);
    assert c.events + {e} - {e} == c.events;
    var done := CancelEvent(armed, fd, e, Accepts).registry;
    assert done.kernel == r.kernel;
    assert done.table[fd] == WithCallback(c, e, cb);
    assert done.table == table[fd := WithCallback(c, e, cb)];
  }

  /** Deleting instead hands nothing over and forgets the callback. */
  lemma DelUndoesAdd(r: Registry, fd: int, e: Event, cb: Callback)
    requires InterestAgrees(r) && 0 <= fd && fd != |r.table| && !Arms(r, fd, e)
    ensures var armed, table := AddEvent(r, fd, e, cb, Accepts), Grown(r.table, fd);
      && armed.Outcome? && armed.ok
      && var deleted := DelEvent(armed.registry, fd, e, Accepts);
      && deleted.Outcome? && deleted.ok
      && deleted.registry == r.(table := table[fd := WithCallback(table[fd], e, NO_CALLBACK)])
  {
    var table := Grown(r.table, fd);
    var c := table[fd];
    assert Agrees(c, fd, r.kernel);
    AddKeepsInterest(r, fd, e, cb, Accepts);
    var armed := AddEvent(r, fd, e, cb, Accepts).registry;
    assert armed.table[fd] == Arm(c, e, cb);
    assert c.events + {e} - {e} == c.events;
    var done := DelEvent(armed, fd, e, Accepts).registry;
    assert done.kernel == r.kernel;
    assert done.table[fd] == WithCallback(c, e, NO_CALLBACK);
    assert done.table == table[fd := WithCallback(c, e, NO_CALLBACK)];
  }

  /** cancelAll is cancelEvent for READ followed by cancelEvent for WRITE. */
  lemma CancelAllIsBothCancels(r: Registry, fd: int)
    requires InterestAgrees(r) && InTable(|r.table|, fd) && r.table[fd].events != {}
    ensures CancelAll(r, fd, Accepts) ==
              Outcome(CancelEvent(CancelEvent(r, fd, Read, Accepts).registry, fd, Write, Accepts).registry, true)
  {
    var c := r.table[fd];
    assert Agrees(c, fd, r.kernel);
    SomeEvent(c.events);
    assert c.events - {Read} - {Write} == {} by {
      if c.events - {Read} - {Write} != {} {
        SomeEvent(c.events - {Read} - {Write});
      }
    }
    if Read in c.events && Write in c.events {
      assert Write in c.events - {Read};
      assert r.kernel[fd := c.events - {Read}] - {fd} == r.kernel - {fd};
    } else if Read in c.events {
      assert c.events - {Read} == c.events - {Read} - {Write};
    } else {
      assert c.events - {Write} == c.events - {Read} - {Write};
    }
  }

  // ---------------------------------------------------------------- whole runs

  /** The registry with a record of every callback accepted by addEvent, forgotten by delEvent, or replaced by
      arming an event that was armed already.  A run ends at its first index out of bounds. */
  datatype System = System(
    registry: Registry, added: seq<Callback>, deleted: seq<Callback>, replaced: seq<Callback>, faulted: bool)

  datatype Move =
    | AddMove(fd: int, event: Event, cb: Callback, refusal: Refusal)
    | DelMove(fd: int, event: Event, refusal: Refusal)
    | CancelMove(fd: int, event: Event, refusal: Refusal)
    | CancelAllMove(fd: int, refusal: Refusal)

  function Start(): System {
    System(Registry(seq(FIRST_SIZE, _ => IDLE), 0, map[], []), [], [], [], false)
  }

  function Perform(r: Registry, m: Move): Outcome {
    match m
    case AddMove(fd, e, cb, refusal) => AddEvent(r, fd, e, cb, refusal)
    case DelMove(fd, e, refusal) => DelEvent(r, fd, e, refusal)
    case CancelMove(fd, e, refusal) => CancelEvent(r, fd, e, refusal)
    case CancelAllMove(fd, refusal) => CancelAll(r, fd, refusal)
  }

  function Apply(s: System, m: Move): System {
    if s.faulted then s
    else
      match Perform(s.registry, m)
      case OutOfBounds => s.(faulted := true)
      case Outcome(r, ok) =>
        if !ok then s.(registry := r)
        else
          match m
          case AddMove(fd, e, cb, _) =>
            System(r, s.added + [cb], s.deleted,
                   if Arms(s.registry, fd, e) then s.replaced + [CallbackOf(s.registry.table[fd], e)] else s.replaced,
                   false)
          case DelMove(fd, e, _) =>
            if Arms(s.registry, fd, e)
            then s.(registry := r, deleted := s.deleted + [CallbackOf(s.registry.table[fd], e)])
            else s.(registry := r)
          case CancelMove(_, _, _) => s.(registry := r)
          case CancelAllMove(_, _) => s.(registry := r)
  }

  function Run(s: System, moves: seq<Move>): System
    decreases |moves|
  {
    if moves == [] then s else Run(Apply(s, moves[0]), moves[1..])
  }

  function Times(cbs: seq<Callback>, cb: Callback): nat {
    multiset(cbs)[cb]
  }

  lemma TimesSnoc(cbs: seq<Callback>, x: Callback, cb: Callback)
    ensures Times(cbs + [x], cb) == Times(cbs, cb) + if x == cb then 1 else 0
  {
    assert multiset(cbs + [x]) == multiset(cbs) + multiset{x};
  }

  /** Every time a callback was taken on, it has been scheduled, deleted or replaced or is still armed; and the
      pending count exceeds the armed bits by the number of replacements. */
  predicate Conserved(s: System, cb: Callback) {
    && s.registry.pending == Armed(s.registry.table) + |s.replaced|
    && Times(s.added, cb) ==
         Times(s.registry.scheduled, cb) + Times(s.deleted, cb) + Times(s.replaced, cb) + Held(s.registry.table, cb)
  }

  lemma AddCounts(s: System, m: Move, cb: Callback)
    requires Conserved(s, cb) && m.AddMove? && !s.faulted && Perform(s.registry, m).Outcome?
    ensures var s' := Apply(s, m); s'.registry.pending == Armed(s'.registry.table) + |s'.replaced|
  {
    var table := Grown(s.registry.table, m.fd);
    GrownHoldsTheSame(s.registry.table, m.fd, cb);
    UpdateOne(table, m.fd, Arm(table[m.fd], m.event, m.cb), cb);
  }

  lemma AddConserves(s: System, m: Move, cb: Callback)
    requires Conserved(s, cb) && m.AddMove? && !s.faulted && Perform(s.registry, m).Outcome?
    ensures Conserved(Apply(s, m), cb)
  {
    AddCounts(s, m, cb);
    var table := Grown(s.registry.table, m.fd);
    GrownHoldsTheSame(s.registry.table, m.fd, cb);
    UpdateOne(table, m.fd, Arm(table[m.fd], m.event, m.cb), cb);
    TimesSnoc(s.added, m.cb, cb);
    TimesSnoc(s.replaced, CallbackOf(table[m.fd], m.event), cb);
  }

  lemma DelConserves(s: System, m: Move, cb: Callback)
    requires Conserved(s, cb) && m.DelMove? && !s.faulted && InTable(|s.registry.table|, m.fd)
    ensures Conserved(Apply(s, m), cb)
  {
    var c := s.registry.table[m.fd];
    UpdateOne(s.registry.table, m.fd, Disarm(c, m.event), cb);
    TimesSnoc(s.deleted, CallbackOf(c, m.event), cb);
  }

  /** Handing armed callbacks over keeps the excess of the count and each callback's number of places. */
  lemma FireMoves(r: Registry, fd: int, e: Event, cb: Callback)
    requires InTable(|r.table|, fd)
    ensures var r' := FireIfArmed(r, fd, e);
      && r'.pending - Armed(r'.table) == r.pending - Armed(r.table)
      && Times(r'.scheduled, cb) + Held(r'.table, cb) == Times(r.scheduled, cb) + Held(r.table, cb)
      && |r'.table| == |r.table|
  {
    UpdateOne(r.table, fd, Trigger(r.table[fd], e), cb);
    TimesSnoc(r.scheduled, CallbackOf(r.table[fd], e), cb);
  }

  lemma CancelConserves(s: System, m: Move, cb: Callback)
    requires Conserved(s, cb) && (m.CancelMove? || m.CancelAllMove?)
    requires !s.faulted && InTable(|s.registry.table|, m.fd)
    ensures Conserved(Apply(s, m), cb)
  {
    var r := s.registry.(kernel := Apply(s, m).registry.kernel);
    if m.CancelMove? {
      FireMoves(r, m.fd, m.event, cb);
    } else {
      FireMoves(r, m.fd, Read, cb);
      FireMoves(FireIfArmed(r, m.fd, Read), m.fd, Write, cb);
    }
  }

  lemma ApplyConserves(s: System, m: Move, cb: Callback)
    requires Conserved(s, cb)
    ensures Conserved(Apply(s, m), cb)
  {
    if !s.faulted && Perform(s.registry, m).Outcome? {
      if m.AddMove? {
        AddConserves(s, m, cb);
      } else if m.fd < |s.registry.table| {
        if m.DelMove? { DelConserves(s, m, cb); } else { CancelConserves(s, m, cb); }
      }
    }
  }

  lemma {:induction false} RunConserves(s: System, moves: seq<Move>, cb: Callback)
    requires Conserved(s, cb)
    ensures Conserved(Run(s, moves), cb)
    decreases |moves|
  {
    if moves != [] {
      ApplyConserves(s, moves[0], cb);
      RunConserves(Apply(s, moves[0]), moves[1..], cb);
    }
  }

  lemma IdleTable(n: nat, cb: Callback)
    ensures Armed(seq(n, _ => IDLE)) == 0 && Held(seq(n, _ => IDLE), cb) == 0
  {
    HeldOfIdle([], seq(n, _ => IDLE), cb);
    assert [] + seq(n, _ => IDLE) == seq(n, _ => IDLE);
  }

  lemma StartConserves(cb: Callback)
    ensures Conserved(Start(), cb)
  {
    IdleTable(FIRST_SIZE, cb);
  }

  /** In every run, each time a callback was accepted it is in exactly one place: handed over by a cancel,
      forgotten by a delete, replaced, or still armed. */
  lemma CallbacksAreConserved(moves: seq<Move>, cb: Callback)
    ensures var s := Run(Start(), moves);
      Times(s.added, cb) ==
        Times(s.registry.scheduled, cb) + Times(s.deleted, cb) + Times(s.replaced, cb) + Held(s.registry.table, cb)
  {
    StartConserves(cb);
    RunConserves(Start(), moves, cb);
  }

  /** A callback accepted once is scheduled once if a cancel reached it, and never if it was deleted, replaced or is
      still armed. */
  lemma ScheduledOnceOrNever(moves: seq<Move>, cb: Callback)
    requires Times(Run(Start(), moves).added, cb) == 1
    ensures var s := Run(Start(), moves);
      && (cb in s.deleted || cb in s.replaced || Held(s.registry.table, cb) > 0 <==> cb !in s.registry.scheduled)
      && (cb in s.registry.scheduled ==> Times(s.registry.scheduled, cb) == 1)
  {
    CallbacksAreConserved(moves, cb);
    var s := Run(Start(), moves);
    assert cb in s.deleted <==> Times(s.deleted, cb) > 0;
    assert cb in s.replaced <==> Times(s.replaced, cb) > 0;
    assert cb in s.registry.scheduled <==> Times(s.registry.scheduled, cb) > 0;
  }

  /** The pending count is never below the armed bits (so it never goes under zero), and equals them exactly when
      no armed event was ever armed again. */
  lemma PendingIsArmedIff(moves: seq<Move>)
    ensures var s := Run(Start(), moves);
      && s.registry.pending >= Armed(s.registry.table)
      && (s.registry.pending == Armed(s.registry.table) <==> s.replaced == [])
  {
    StartConserves(NO_CALLBACK);
    RunConserves(Start(), moves, NO_CALLBACK);
  }

  /** Arming an armed event again: one more pending, no more armed, and the first callback is gone without having
      been scheduled. */
  lemma RearmingDrifts(r: Registry, fd: int, e: Event, cb: Callback, lost: Callback)
    requires InterestAgrees(r) && Arms(r, fd, e) && CallbackOf(r.table[fd], e) == lost && lost != cb
    ensures var o := AddEvent(r, fd, e, cb, Accepts);
      && o.Outcome? && o.ok && o.registry.pending == r.pending + 1 && Armed(o.registry.table) == Armed(r.table)
      && Held(o.registry.table, lost) == Held(r.table, lost) - 1 && o.registry.scheduled == r.scheduled
  {
    assert Agrees(r.table[fd], fd, r.kernel);
    UpdateOne(r.table, fd, Arm(r.table[fd], e, cb), lost);
  }

  lemma {:induction false} RunKeepsInterest(s: System, moves: seq<Move>)
    requires InterestAgrees(s.registry)
    ensures InterestAgrees(Run(s, moves).registry)
    decreases |moves|
  {
    if moves != [] {
      var m := moves[0];
      if !s.faulted && Perform(s.registry, m).Outcome? {
        match m
        case AddMove(fd, e, cb, refusal) => AddKeepsInterest(s.registry, fd, e, cb, refusal);
        case DelMove(fd, e, refusal) => DelKeepsInterest(s.registry, fd, e, refusal);
        case CancelMove(fd, e, refusal) => CancelKeepsInterest(s.registry, fd, e, refusal);
        case CancelAllMove(fd, refusal) => CancelAllKeepsInterest(s.registry, fd, refusal);
      }
      RunKeepsInterest(Apply(s, m), moves[1..]);
    }
  }

  /** In every run the kernel's interest mask of every fd is its `events_`. */
  lemma KernelMaskIsEvents(moves: seq<Move>)
    ensures InterestAgrees(Run(Start(), moves).registry)
  {
    RunKeepsInterest(Start(), moves);
  }

  // ---------------------------------------------------------------- indexing past the end

  /** The check `size < fd` lets through exactly the negative fds and the fd equal to the size. */
  lemma OutOfBoundsIff(r: Registry, m: Move)
    ensures InTable(Resized(|r.table|, m.fd), m.fd) <==> 0 <= m.fd && m.fd != |r.table|
    ensures Perform(r, m) == OutOfBounds <==> m.fd < 0 || m.fd == |r.table|
  {
  }

  /** At the start that is fd 64, whatever the operation. */
  lemma FirstSizeIsOutOfBounds(m: Move)
    requires m.fd == 64
    ensures Perform(Start().registry, m) == OutOfBounds && Apply(Start(), m).faulted
  {
  }

  /** The size of the table after a move that does not fault. */
  function SizeWith(size: nat, m: Move): nat {
    if m.AddMove? then Resized(size, m.fd) else size
  }

  /** From a table of this size some move's fd is negative or equals the size the table has by then: something a
      caller can work out from the fds alone. */
  predicate Faults(size: nat, moves: seq<Move>)
    decreases |moves|
  {
    moves != [] && (moves[0].fd < 0 || moves[0].fd == size || Faults(SizeWith(size, moves[0]), moves[1..]))
  }

  lemma ApplySize(s: System, m: Move)
    requires !s.faulted
    ensures Apply(s, m).faulted <==> m.fd < 0 || m.fd == |s.registry.table|
    ensures !Apply(s, m).faulted ==> |Apply(s, m).registry.table| == SizeWith(|s.registry.table|, m)
  {
  }

  lemma {:induction false} FaultIsFinal(s: System, moves: seq<Move>)
    requires s.faulted
    ensures Run(s, moves) == s
    decreases |moves|
  {
    if moves != [] {
      FaultIsFinal(s, moves[1..]);
    }
  }

  lemma {:induction false} RunFaultsIff(s: System, moves: seq<Move>)
    requires !s.faulted
    ensures Run(s, moves).faulted <==> Faults(|s.registry.table|, moves)
    decreases |moves|
  {
    if moves != [] {
      ApplySize(s, moves[0]);
      var s' := Apply(s, moves[0]);
      if s'.faulted {
        FaultIsFinal(s', moves[1..]);
      } else {
        RunFaultsIff(s', moves[1..]);
      }
    }
  }

  /** A run indexes out of bounds exactly when its fds say so. */
  lemma OutOfBoundsInRunIff(moves: seq<Move>)
    ensures Run(Start(), moves).faulted <==> Faults(64, moves)
  {
    RunFaultsIff(Start(), moves);
  }

  ghost predicate IsTwiceAnEarlierFd(size: nat, moves: seq<Move>) {
    exists i :: 0 <= i < |moves| && moves[i].AddMove? && size == 2 * moves[i].fd
  }

  lemma {:induction false} RunSizeIs(s: System, moves: seq<Move>)
    ensures var size := |Run(s, moves).registry.table|;
      size == |s.registry.table| || IsTwiceAnEarlierFd(size, moves)
    decreases |moves|
  {
    if moves != [] {
      var s', rest := Apply(s, moves[0]), moves[1..];
      if !s.faulted {
        ApplySize(s, moves[0]);
      }
      RunSizeIs(s', rest);
      var size := |Run(s', rest).registry.table|;
      if IsTwiceAnEarlierFd(size, rest) {
        var i :| 0 <= i < |rest| && rest[i].AddMove? && size == 2 * rest[i].fd;
        assert moves[i + 1] == rest[i];
      } else if size != |s.registry.table| {
        assert moves[0].AddMove? && size == 2 * moves[0].fd;
      }
    }
  }

  /** The table has 64 places or twice the fd of an earlier addEvent, so any other fd that is not negative is safe
      after any run that has not gone out of bounds already. */
  lemma OtherFdsAreSafe(moves: seq<Move>, m: Move)
    ensures var size := |Run(Start(), moves).registry.table|; size == 64 || IsTwiceAnEarlierFd(size, moves)
    ensures m.fd >= 0 && m.fd != 64 && !IsTwiceAnEarlierFd(m.fd, moves) ==>
              Perform(Run(Start(), moves).registry, m) != OutOfBounds
  {
    RunSizeIs(Start(), moves);
    OutOfBoundsIff(Run(Start(), moves).registry, m);
  }
}
