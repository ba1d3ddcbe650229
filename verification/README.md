# Verification of the fiber runtime's core

Dafny models of four parts of the repository, with proofs. `dafny verify dfyconfig.toml` checks everything.

- **The lock-free bounded queue** (`src/thread/lockfreelist.h`). `LockFreeSteps` is a step system in which every
  atomic double-word access and every plain read or write is one step; any number of producers and consumers can be
  set up in it. `LockFreeInvariant` proves the invariant for one producer and any number of consumers,
  `LockFreeTheorems` states what follows for every reachable state, `LockFreeReturns` accounts for what callers of pop
  get, `LockFreeCalls` says how calls end and what a thread achieves alone (over the runs spelled out in
  `LockFreeRuns`), and `LockFreeCounterexamples` shows what goes wrong with more threads, and exactly when.
  `LockFreeQueue` is the class run by one thread, refining a bounded sequence, also from states whose tail lags.
- **Exact rationals** (`boost/rational.hpp`). `IntegerGcd` holds gcd, Bezout coefficients and C++ `/` and `%`
  (ISO/IEC 14882:2011, section 5.6); `Rationals` the class and the proof of its shortcuts; `RationalLaws` the
  laws between operators.
- **The fiber runtime.** `TimerTasks` and `TimerSets` (the ordered timer set as a value, and as an object),
  `TimerEffects` (what each operation does to the tasks), `TimerRuns` (timer, clock, pipe and poller loop
  interleaved), `EventRegistry` and `Pollers` (fd events against the kernel's interest set), `ProcesserSteps` and
  `Processers` (handing fibers over while the processer runs), `Schedulers` (placement).
- **Two small languages.** `LogPatterns` and `LogFormat` (log patterns), `TokenStreams` and `Tokenizers` (the
  character separator).

Operations the source performs in place are methods of classes; each is proved to do what a function of the old state
says, and the properties are proved about those functions and about runs of them.

Where the code does not meet what one would expect of it, the model follows the code, a lemma shows the case, and
another says exactly when the expectation holds:

- two consumers: a pop can fail although the queue holds a value from before the call until after it
  (`StalePopMissesValue`; exactly from three nodes and two consumers on, `MissIff`);
- two producers: an accepted value can be lost for good (`SecondProducerLosesValue`; on three nodes or more exactly from
  two producers on, `LossIff`);
- `reset(ms, false)` subtracts the new period, so the deadline stays while the period shrinks; a later `refresh`, which
  never notifies, can then bring the deadline before the planned wake (`ShortenedThenRefreshedIsMissed`; a run loses no
  wake-up exactly under `NoLostWakeUpIff`);
- arming an armed fd event drifts the pending count and loses the first callback (`RearmingDrifts`; the count is right
  exactly under `PendingIsArmedIff`);
- an fd equal to the table size passes the bounds check `size < fd` and indexes past the end, as a negative fd does
  (`FirstSizeIsOutOfBounds`; exactly `OutOfBoundsIff` for one call and `OutOfBoundsInRunIff` for a run);
- a log pattern split between `%D` and `{` does not compose (`BareTimeThenBrace`, `ConcatenationParsesIff`);
- a character both kept and dropped is kept in one token mode and dropped in the other
  (`DropIsKeepWithoutEmptiesIff`), and `reset()` leaves `m_output_done` set (`ReusedKeepIsSplitIff`).

`delEvent` also treats errno EEXIST as success, but epoll_ctl answers EEXIST only to adding an fd that is watched, so
that branch never runs (`DelKeepsInterest`). `src/log/README.md:13` says that `%D` needs a format in braces; the code
also takes it bare, with a default format, and the model follows the code.

## Model

| member | source | states |
|---|---|---|
| `LockFreeTheorems.LinkedIsDeliveredThenQueued` | src/thread/lockfreelist.h:68-161 | one producer, any number of consumers, every interleaving: the linked values are the delivered ones, in the order of the `m_out` CASes, followed by the queue |
| `LockFreeTheorems.AcceptedIsReturnedThenQueued` | src/thread/lockfreelist.h:68-161 | one producer and one consumer: accepted values = returned values, then what is about to be returned, then the queue; nothing lost, doubled or reordered |
| `LockFreeTheorems.HeadNeverRepeats` | src/thread/lockfreelist.h:123-161 | the double word in `m_out` never comes back: equal at two moments of a run iff nothing was delivered in between (no ABA) |
| `LockFreeTheorems.DeliversOldest` | src/thread/lockfreelist.h:149-152 | a successful CAS on `m_out`, by any consumer, takes exactly the oldest value, and the value it read is that one |
| `LockFreeTheorems.EveryNodeInOnePlace` | src/thread/lockfreelist.h:173-242 | each of the `m_max` nodes is in exactly one of: queue chain, free chain, one thread's hands |
| `LockFreeTheorems.ChainsEndAndTailIsNear` | src/thread/lockfreelist.h:88-119 | both chains are finite and end in a null link; `m_out` starts the queue chain; `m_in` is its last node or the one before |
| `LockFreeTheorems.NoFault` | src/thread/lockfreelist.h:149-202 | no interleaving dereferences a null or foreign pointer or trips the range assertion of ReleaseNode |
| `LockFreeTheorems.LinkAlwaysSucceeds` | src/thread/lockfreelist.h:88-115 | with one producer the repair branch is never taken and the link CAS succeeds at once |
| `LockFreeTheorems.PopFinds` | src/thread/lockfreelist.h:128-149 | the dummy's link is null iff the queue is empty, and otherwise leads to the node of the oldest value |
| `LockFreeTheorems.PopFailsIffEmpty` | src/thread/lockfreelist.h:126-140 | pop returns false at its read of `next` iff the queue is empty there, when `m_out` is still what it read; with one consumer it always is |
| `LockFreeTheorems.PushFailsIffNoFreeNode` | src/thread/lockfreelist.h:173-180 | push returns false at its read of `m_head` iff the free chain is empty there |
| `LockFreeTheorems.FullMeansNodesAreElsewhere` | src/thread/lockfreelist.h:173-180 | a push that fails found every node in the queue or held by consumers |
| `LockFreeCalls.PushKeepsArgument` | src/thread/lockfreelist.h:68-121 | in any state, with any number of threads: a call of push keeps the value it was given until it ends |
| `LockFreeCalls.PushEnds` | src/thread/lockfreelist.h:68-121 | it ends either with exactly that value accepted, or with the free chain empty and nothing changed; a lost race for `m_head` does not end it |
| `LockFreeCalls.PopEnds` | src/thread/lockfreelist.h:123-161 | a call of pop ends either by returning the value it took, or because the node read as head had no successor, and then nothing changes |
| `LockFreeCalls.RetriesMeanProgress` | src/thread/lockfreelist.h:126-153 | a loop starts over only after somebody else has moved `m_head` or `m_out`, or after `m_in` has been repaired |
| `LockFreeCalls.SoloPush` | src/thread/lockfreelist.h:68-121 | from any reachable state, wherever the consumers stand, a push running alone ends: failed with nothing changed iff no node is free, else with its value at the end of the queue |
| `LockFreeCalls.SoloPop` | src/thread/lockfreelist.h:123-161 | from any reachable state, a lagging `m_in` included, a pop running alone ends: failed with nothing changed iff the queue is empty, else with the oldest value returned and off the queue |
| `LockFreeInvariant.InitHolds` | src/thread/lockfreelist.h:54-65 | the state after construction satisfies the invariant |
| `LockFreeInvariant.ProducerKeeps` | src/thread/lockfreelist.h:68-121 | every atomic step of push keeps the invariant and only extends the history of links |
| `LockFreeInvariant.ConsumerKeeps` | src/thread/lockfreelist.h:123-161 | every atomic step of pop and ReleaseNode, by any consumer, keeps the invariant |
| `LockFreeReturns.DeliveredIsReturnedOrInHand` | src/thread/lockfreelist.h:123-161 | any number of producers and consumers: every value taken off the queue has been returned or is in the hands of one consumer, counted with multiplicity |
| `LockFreeReturns.LinkedIsReturnedOrQueued` | src/thread/lockfreelist.h:68-161 | one producer, any number of consumers: every linked value has been returned, is about to be, or is queued, counted with multiplicity |
| `LockFreeCounterexamples.MissIff` | src/thread/lockfreelist.h:126-140 | one producer: a pop can fail although the queue holds a value from before the call until after it, iff there are at least three nodes and at least two consumers |
| `LockFreeCounterexamples.StalePopMissesValue` | src/thread/lockfreelist.h:126-140 | such a run, from construction, on every list of at least three nodes with at least two consumers |
| `LockFreeCounterexamples.MissNeedsBoth` | src/thread/lockfreelist.h:126-152 | no run of a smaller list or of one consumer contains such a call |
| `LockFreeCounterexamples.LossIff` | src/thread/lockfreelist.h:108-119 | on at least three nodes, a push can be accepted and its value lost for good, with everybody at rest, iff there are at least two producers |
| `LockFreeCounterexamples.SecondProducerLosesValue` | src/thread/lockfreelist.h:108-119 | such a run, for every list of at least three nodes and every number of producers from two and of consumers from one |
| `LockFreeCounterexamples.OneProducerLosesNothing` | src/thread/lockfreelist.h:68-161 | one producer, everybody at rest: every accepted value has been returned or is queued |
| `LockFreeRuns.PushCompletes` | src/thread/lockfreelist.h:68-121 | every field after a push that nobody interrupts |
| `LockFreeRuns.PopCompletes` | src/thread/lockfreelist.h:123-161 | every field after a pop that nobody interrupts |
| `LockFreeQueue.LockFreeList.constructor` | src/thread/lockfreelist.h:54-65 | an empty list of capacity `m_max` - 1, tail not lagging |
| `LockFreeQueue.LockFreeList.InitInternalNodeList` | src/thread/lockfreelist.h:225-242 | the free chain runs through all nodes in order, and `m_id` starts at `m_max` - 1 |
| `LockFreeQueue.LockFreeList.Push` | src/thread/lockfreelist.h:68-121 | fails iff `m_max` - 1 values are queued; otherwise appends exactly the value; repairs a lagging `m_in` |
| `LockFreeQueue.LockFreeList.Pop` | src/thread/lockfreelist.h:123-161 | fails iff the queue is empty; otherwise returns and removes exactly the oldest value |
| `LockFreeQueue.LockFreeList.AllocNode` | src/thread/lockfreelist.h:173-197 | null iff the free chain is empty; otherwise a node in neither chain with a null link |
| `LockFreeQueue.LockFreeList.ReleaseNode` | src/thread/lockfreelist.h:200-222 | the held node goes back on the free chain and the queue is unchanged |
| `LockFreeQueue.LockFreeList.TryLink` | src/thread/lockfreelist.h:88-115 | one turn of the retry loop links iff `m_in` was not lagging, and otherwise repairs it |
| `LockFreeQueue.LockFreeList.LinkLoop` | src/thread/lockfreelist.h:88-115 | the retry loop ends with the node linked behind the last one |
| `LockFreeQueue.LockFreeList.TryUnlink` | src/thread/lockfreelist.h:126-153 | one turn of the retry loop: done with the value, done on an empty queue, or a lagging `m_in` repaired |
| `LockFreeQueue.LockFreeList.Unlink` | src/thread/lockfreelist.h:126-153 | the retry loop ends with the old dummy removed and its successor's value read, or with the queue found empty |
| `IntegerGcd.GcdIsGreatest` | code/boost.context/boost/rational.hpp:303-306 | what `integer::gcd` is taken to be: every common divisor divides it |
| `IntegerGcd.TModRange` | code/boost.context/boost/rational.hpp:435-441 | C++ `%` by a positive number: smaller than it, with the sign of the dividend, and consistent with `/` |
| `IntegerGcd.CoprimeIffGcdIsOne` | code/boost.context/boost/rational.hpp:537-541 | the invariant test by gcd is coprimality |
| `Rationals.ReduceIsNormal` | code/boost.context/boost/rational.hpp:544-576 | full normalisation keeps the value and gives positive denominator, gcd 1 |
| `Rationals.NormalFormIsUnique` | code/boost.context/boost/rational.hpp:521-526 | two normal forms of the same value are the same pair, so comparing fields is comparing values |
| `Rationals.SumNeedsOnlyGcdWithG` | code/boost.context/boost/rational.hpp:281-311 | after dividing out g = gcd(b, d), cancelling gcd(numerator, g) leaves nothing in common |
| `Rationals.SumIsReduced` | code/boost.context/boost/rational.hpp:278-311 | the shortcut of `+=` gives the exact sum in normal form |
| `Rationals.CrossCoprime` | code/boost.context/boost/rational.hpp:339-343 | after the two cross gcds are divided out the products have nothing in common |
| `Rationals.ProductIsReduced` | code/boost.context/boost/rational.hpp:332-345 | the shortcut of `*=` gives the exact product in normal form |
| `Rationals.QuotientIsReduced` | code/boost.context/boost/rational.hpp:347-374 | the shortcut of `/=`, sign repair included, gives the exact quotient in normal form |
| `Rationals.QuotientsDecide` | code/boost.context/boost/rational.hpp:449-455 | floors decide an order when they differ, and otherwise the remainders' fractions do |
| `Rationals.Rational.Normalize` | code/boost.context/boost/rational.hpp:544-576 | throws iff the denominator is zero; otherwise reaches the reduced pair |
| `Rationals.Rational.Assign` | code/boost.context/boost/rational.hpp:258-261 | throws iff the new denominator is zero; otherwise the reduced pair of the two numbers |
| `Rationals.Rational.AddAssignInt` | code/boost.context/boost/rational.hpp:185-185 | exact sum with an integer, still in normal form |
| `Rationals.Rational.SubtractAssignInt` | code/boost.context/boost/rational.hpp:186-186 | exact difference with an integer, still in normal form |
| `Rationals.Rational.AddAssign` | code/boost.context/boost/rational.hpp:278-311 | exact sum in normal form, also when the argument is the object itself |
| `Rationals.Rational.SubtractAssign` | code/boost.context/boost/rational.hpp:313-330 | exact difference in normal form, also when the argument is the object itself |
| `Rationals.Rational.MultiplyAssign` | code/boost.context/boost/rational.hpp:332-345 | exact product in normal form, also when the argument is the object itself |
| `Rationals.Rational.DivideAssign` | code/boost.context/boost/rational.hpp:347-374 | throws iff the divisor is zero, changing nothing; otherwise the exact quotient in normal form, also for itself |
| `Rationals.Rational.MultiplyAssignInt` | code/boost.context/boost/rational.hpp:377-387 | exact product with an integer in normal form |
| `Rationals.Rational.DivideAssignInt` | code/boost.context/boost/rational.hpp:389-410 | throws iff the integer is zero; otherwise the exact quotient in normal form |
| `Rationals.Rational.Less` | code/boost.context/boost/rational.hpp:413-495 | the continued-fraction comparison terminates and returns true iff a*d < c*b, for any numerators and positive denominators |
| `Rationals.Rational.LessInt` | code/boost.context/boost/rational.hpp:497-513 | comparing the floor with i decides n/d < i |
| `Rationals.Rational.GreaterInt` | code/boost.context/boost/rational.hpp:515-519 | true iff i < n/d on normal forms |
| `Rationals.Rational.EqualInt` | code/boost.context/boost/rational.hpp:528-533 | on normal forms the field test is equality of values |
| `RationalLaws.InnerGcdIsGcd` | code/boost.context/boost/rational.hpp:232-234 | the recursive Euclid with C++ remainders is the gcd up to sign |
| `RationalLaws.IsNormalizedIffNormal` | code/boost.context/boost/rational.hpp:248-253 | the guard of the converting constructor accepts exactly the normal forms |
| `RationalLaws.Trichotomy` | code/boost.context/boost/rational.hpp:413-526 | on normal forms exactly one of <, ==, > holds |
| `RationalLaws.BelowIsTransitive` | code/boost.context/boost/rational.hpp:413-495 | the order is transitive |
| `RationalLaws.SubtractUndoesAdd` | code/boost.context/boost/rational.hpp:278-330 | x + y - y is x, field by field, through both shortcuts |
| `RationalLaws.DivideUndoesMultiply` | code/boost.context/boost/rational.hpp:332-374 | x * y / y is x, field by field, for y not zero |
| `RationalLaws.SumKeepsOrder` | code/boost.context/boost/rational.hpp:278-311 | adding the same number to both sides keeps the order |
| `TimerTasks.CreateKeepsValid` | src/fiber/timer.cc:87-93 | the set stays strictly sorted and holds a task iff its callback is set, except tasks created without one |
| `TimerTasks.CancelKeepsValid` | src/fiber/timer.cc:18-28 | same after cancel, whose unchecked erase(find()) always finds its element |
| `TimerTasks.RefreshKeepsValid` | src/fiber/timer.cc:31-47 | same after refresh: the key changes only while the task is outside the set |
| `TimerTasks.ResetKeepsValid` | src/fiber/timer.cc:49-74 | same after reset |
| `TimerTasks.ResetNotFromNowKeepsDeadline` | src/fiber/timer.cc:64-71 | reset(ms, false) leaves the deadline where it was, in 64-bit arithmetic |
| `TimerTasks.CollectSpec` | src/fiber/timer.cc:185-199 | a collection hands out each expired callback, retires one-shots, moves recurring tasks to now + period, and leaves every other task alone |
| `TimerTasks.CollectFiresTheDue` | src/fiber/timer.cc:169-191 | no rollover, first reading <= second: nothing fires unless something is due at the first; then all tasks due at the first and none due after the second, in deadline order |
| `TimerTasks.CollectOnRollover` | src/fiber/timer.cc:169-191 | on a rollover every task fires and only recurring ones stay |
| `TimerTasks.RolloverIff` | src/fiber/timer.cc:145-153 | exactly when a rollover is seen, including the wrap of the subtraction in the first hour |
| `TimerTasks.EqualDeadlinesFireByAddress` | src/fiber/timer.cc:76-85 | tasks with equal deadlines fire in the order of their addresses |
| `TimerEffects.CreateSets` | src/fiber/timer.cc:87-93 | the new task is due exactly ms after its clock reading; no other task is touched; a notification iff it is the first to fire and none is under way |
| `TimerEffects.CancelDoes` | src/fiber/timer.cc:18-28 | refused iff the callback is gone; otherwise the callback goes, the task leaves the set, one-shot or recurring, and no other task is touched |
| `TimerEffects.RefreshSets` | src/fiber/timer.cc:31-47 | refused iff the callback is gone; otherwise due exactly its period after the clock reading, sooner or later than before; nothing else changes |
| `TimerEffects.ResetAnswers` | src/fiber/timer.cc:49-62 | true without effect for the old period not from now; refused iff the callback is gone |
| `TimerEffects.ResetSets` | src/fiber/timer.cc:63-74 | the new period; due exactly that long after the clock reading, or, not from now, exactly when it was; a notification iff first to fire and none under way |
| `TimerEffects.AddNotifiesIff` | src/fiber/timer.cc:129-143 | a notification iff the task is now before every other member and `m_tickled` was clear |
| `TimerEffects.TimeoutIs` | src/fiber/timer.cc:108-122 | only `m_tickled` is cleared; the answer is the time to the earliest deadline over all members, 0 iff one has passed, all bits set if there is none |
| `TimerEffects.CollectRemembers` | src/fiber/timer.cc:145-170 | a collection with a task in the set remembers its clock reading; `m_tickled` stays |
| `TimerSets.TimerSet.Find` | src/fiber/timer.cc:23-24 | finds the position of the task, or the end iff it is not in the set |
| `TimerSets.TimerSet.AddTimerTask` | src/fiber/timer.cc:129-143 | inserts at the sorted place and asks for a notification iff the task is first and none is under way |
| `TimerSets.TimerSet.CreateTimer` | src/fiber/timer.cc:87-93 | the new state of the timer in full |
| `TimerSets.TimerSet.CancelTask` | src/fiber/timer.cc:18-28 | the new state of the timer in full |
| `TimerSets.TimerSet.RefreshTask` | src/fiber/timer.cc:31-47 | the new state of the timer in full |
| `TimerSets.TimerSet.ResetTask` | src/fiber/timer.cc:49-74 | the new state of the timer in full |
| `TimerSets.TimerSet.GetNextExecuteTime` | src/fiber/timer.cc:108-122 | clears `m_tickled` and returns the time to the first deadline, 0 if past, all bits set if there is none |
| `TimerSets.TimerSet.GetExecuteTask` | src/fiber/timer.cc:155-200 | the new state of the timer in full, and the callbacks handed out |
| `TimerRuns.OneShotsAreConserved` | src/fiber/timer.cc:18-28 | every run, any clock: times fired + successful cancels + (1 if waiting) = 1 for every one-shot task |
| `TimerRuns.RunConserves` | src/fiber/timer.cc:155-200 | each lock-protected operation keeps that sum |
| `TimerRuns.OperationsSetDeadlines` | src/fiber/timer.cc:31-74 | createTimer, refresh and reset from now make a task wait for its reading plus its period |
| `TimerRuns.NeverFiresEarly` | src/fiber/timer.cc:155-200 | over whole runs: such a task keeps its deadline and is not handed out until a collection reaches it or the clock rolls over, unless it is cancelled, refreshed or reset |
| `TimerRuns.FiresWhenDue` | src/fiber/timer.cc:155-200 | the first collection to reach the deadline hands the task out exactly once; a one-shot is then done, a recurring task waits for its period later |
| `TimerRuns.CancelledNeverFires` | src/fiber/timer.cc:18-28 | over whole runs: a task whose cancel was granted, one-shot or recurring, never fires again |
| `TimerRuns.SleepsUntil` | src/fiber/poller.cc:220-234 | the poller plans to wake at the earliest deadline, after 3000 ms at the latest, and sleeps 3000 ms if a task is due already |
| `TimerRuns.PollerGoesRound` | src/fiber/poller.cc:220-269 | an interrupted wait is planned anew, a finished one is followed by a collection, then the pipe is emptied if it was seen readable |
| `TimerRuns.NoLostWakeUpIff` | src/fiber/poller.cc:220-234 | a run loses no wake-up at any moment iff each refresh made during a planned sleep sets a deadline no earlier than the planned wake or finds `m_tickled` set |
| `TimerRuns.NoLostWakeUp` | src/fiber/poller.cc:220-234 | while the poller sleeps towards a planned wake, a task due before it means `m_tickled` is set with a byte in the pipe or owed; in every run whose refreshes do not bring a deadline forward |
| `TimerRuns.NoLostWakeUpInRegularRuns` | src/fiber/timer.cc:108-143 | those include every run with a clock that does not step back and resets from now |
| `TimerRuns.RefreshIsHarmlessIff` | src/fiber/timer.cc:31-47 | a refresh keeps the wake-up property iff its new deadline is not before the planned wake or `m_tickled` is set |
| `TimerRuns.ShortenedThenRefreshedIsMissed` | src/fiber/timer.cc:49-74 | a run with reset(ms, false) and then refresh in which the poller sleeps 3000 ms over a task due after 1 ms |
| `EventRegistry.PendingIsArmedIff` | src/fiber/poller.cc:95-96 | in every run the pending count is at least the armed bits, and equal iff no armed event was ever armed again |
| `EventRegistry.RearmingDrifts` | src/fiber/poller.cc:95-101 | arming an armed event: one more pending, no more armed, and the first callback is lost unscheduled |
| `EventRegistry.CallbacksAreConserved` | src/fiber/poller.cc:70-210 | in every run each accepted callback has been scheduled, deleted or replaced or is still armed, counted with multiplicity |
| `EventRegistry.ScheduledOnceOrNever` | src/fiber/poller.cc:70-210 | a callback accepted once is scheduled once, or never iff deleted, replaced or still armed |
| `EventRegistry.KernelMaskIsEvents` | src/fiber/poller.cc:84-96 | in every run the kernel's interest mask of every fd is its `events_` |
| `EventRegistry.AddDoes` | src/fiber/poller.cc:70-103 | accepted, on an fd in the table or beyond: this event armed with this callback, the other event and every other fd as before, the mask told to the kernel |
| `EventRegistry.DelDoes` | src/fiber/poller.cc:105-141 | accepted: this bit cleared and its callback forgotten, nothing handed over, all else as before |
| `EventRegistry.CancelDoes` | src/fiber/poller.cc:143-176 | accepted: this bit cleared and exactly its callback handed over, all else as before |
| `EventRegistry.CancelAllDoes` | src/fiber/poller.cc:177-210 | accepted: what is armed is handed over, the read callback first, and the fd is unwatched |
| `EventRegistry.RefusedChangesNothing` | src/fiber/poller.cc:70-210 | an operation that answers no changes nothing, but that addEvent has made room |
| `EventRegistry.OutOfBoundsIff` | src/fiber/poller.cc:74-78 | the check `size < fd` lets an index out of bounds through iff the fd is negative or equals the size of the table |
| `EventRegistry.FirstSizeIsOutOfBounds` | src/fiber/poller.cc:48-48 | on the table of 64 that construction makes, every operation on fd 64 indexes past the end |
| `EventRegistry.OutOfBoundsInRunIff` | src/fiber/poller.cc:70-210 | a run indexes out of bounds iff some fd in it is negative or equals the size that the earlier fds give the table |
| `EventRegistry.OtherFdsAreSafe` | src/fiber/poller.cc:59-78 | over all runs the table has 64 places or twice the fd of an earlier addEvent, so every other non-negative fd is safe |
| `EventRegistry.DelKeepsInterest` | src/fiber/poller.cc:121-137 | delEvent keeps the mask equal to `events_` and succeeds iff the event is armed and the kernel does not refuse: the EEXIST it tolerates never comes back |
| `EventRegistry.CancelAllKeepsInterest` | src/fiber/poller.cc:189-209 | cancelAll succeeds iff something is armed and the kernel does not refuse, and then nothing is |
| `EventRegistry.CancelUndoesAdd` | src/fiber/poller.cc:143-176 | arming then cancelling schedules the callback once and restores counts and masks |
| `EventRegistry.DelUndoesAdd` | src/fiber/poller.cc:105-141 | arming then deleting schedules nothing, forgets the callback and restores counts and masks |
| `EventRegistry.CancelAllIsBothCancels` | src/fiber/poller.cc:177-210 | cancelAll is cancelEvent for READ, then for WRITE |
| `Pollers.Poller.AddEvent` | src/fiber/poller.cc:70-103 | the new registry in full, or the index out of bounds; the table grows to twice the fd when the fd is beyond it |
| `Pollers.Poller.DelEvent` | src/fiber/poller.cc:105-141 | the new registry in full, or the index out of bounds |
| `Pollers.Poller.TriggerEvent` | src/fiber/poller.cc:32-38 | one bit cleared, its callback scheduled, the slot keeping it |
| `Pollers.Poller.CancelEvent` | src/fiber/poller.cc:143-176 | the new registry in full, or the index out of bounds |
| `Pollers.Poller.CancelAll` | src/fiber/poller.cc:177-210 | the new registry in full, or the index out of bounds |
| `Pollers.Poller.Resize` | src/fiber/poller.cc:59-68 | new idle contexts are added and old ones kept |
| `ProcesserSteps.EveryClaimedPopSucceeds` | src/fiber/processer.cc:185-210 | every interleaving: size of newQueue = counted + pushed but uncounted + claimed but unpopped, so no claimed pop fails |
| `ProcesserSteps.SwappedInEntryOrder` | src/fiber/processer.cc:120-172 | fibers are switched to exactly in the order they entered runableQueue; only a stopping scheduler drops one, the one in hand |
| `ProcesserSteps.FirstTurnsInAcceptedOrder` | src/fiber/processer.cc:58-81 | the accepted fibers are, in order, those that entered runableQueue from newQueue and those still in it; first turns are a prefix |
| `ProcesserSteps.FibersAreConserved` | src/fiber/processer.cc:113-210 | each acceptance of a fiber ends in exactly one place |
| `ProcesserSteps.FinishedAreReclaimedInOrder` | src/fiber/processer.cc:158-182 | gcQueue holds at most 33 fibers, and finished fibers are destroyed once, in order |
| `ProcesserSteps.ShutAcceptsNothing` | src/fiber/processer.cc:58-67 | a processer whose state is stop or done accepts no fiber in any further run, but one already being pushed |
| `ProcesserSteps.StoppingEnds` | src/fiber/processer.cc:120-137 | a stopping scheduler ends the processer where it would take up a fiber, and drops the one in hand |
| `ProcesserSteps.ClaimsExactly` | src/fiber/processer.cc:189-195 | getNewFibers claims exactly what is counted at its CAS, or reads the count again |
| `ProcesserSteps.NothingStartsAfterStop` | src/fiber/processer.cc:120-137 | once the scheduler is stopping no fiber is switched to, in any further run |
| `Processers.Processer.AddFiber` | src/fiber/processer.cc:58-81 | dropped iff the processer is stopped or done; otherwise appended, or stuck iff newQueue is full, where every further attempt changes nothing; a run of the step system |
| `Processers.Processer.GetNewFibers` | src/fiber/processer.cc:185-210 | everything in newQueue moves, in order, behind what is runable; a run of the step system |
| `Processers.Processer.Gc` | src/fiber/processer.cc:177-182 | empties gcQueue, destroying its fibers in order |
| `Processers.Processer.Refill` | src/fiber/processer.cc:128-135 | with nothing runable: takes the newcomers, or reclaims; a run of the step system |
| `Processers.Processer.Turn` | src/fiber/processer.cc:137-172 | one turn of the front fiber for each way it can end; a run of the step system |
| `Schedulers.PlaceIs` | src/fiber/scheduler.cc:60-76 | to its own processer if running, else to the first idle one, the index not moving |
| `Schedulers.SharedPlaceIs` | src/fiber/scheduler.cc:78-98 | with none idle: to the first non-blocked one going round from `id`, or to `id` if all are blocked; `id` moves to just after |
| `Schedulers.PlacementIsFair` | src/fiber/scheduler.cc:78-92 | none idle or blocked: m shared placements give each of n processers between m / n and that rounded up |
| `Schedulers.QueuesListCalls` | src/fiber/scheduler.cc:60-99 | over any list of calls each processer's queue grows by exactly the fibers placed on it while it was neither stopping nor done, in call order |
| `Schedulers.FibersPlacedOnce` | src/fiber/scheduler.cc:60-99 | over any list of calls each fiber occurs, over all queues, once more for each of its calls not let go |
| `Schedulers.Scheduler.AddFiber` | src/fiber/scheduler.cc:60-99 | the loops terminate; the target's queue is its old queue and the fiber, or is unchanged if it is stopping or done; every other queue is unchanged |
| `Schedulers.Scheduler.CreateFiber` | src/fiber/scheduler.cc:51-57 | counted once and placed as a fiber nobody owns |
| `LogPatterns.PrintOfParse` | src/log/log_format.cc:214-300 | a successful parse prints back to exactly its input and is canonical |
| `LogPatterns.ParseOfPrint` | src/log/log_format.cc:214-300 | every canonical item list parses back to itself |
| `LogPatterns.AcceptedIffCanonicalPrint` | src/log/log_format.cc:214-300 | the accepted patterns are exactly the printed non-empty canonical lists, one list each |
| `LogPatterns.ConcatenationParsesIff` | src/log/log_format.cc:230-246 | p + q parses to the merged items iff not (p ends in a bare `%D` and q starts with `{`) |
| `LogPatterns.RenderingIsCompositional` | src/log/log_format.cc:314-323 | in that case p + q renders what p renders followed by what q renders, for every event |
| `LogPatterns.BareTimeThenBrace` | src/log/log_format.cc:230-239 | `%D` and `{` parse, `%D{` does not |
| `LogPatterns.DirectivesRender` | src/log/log_format.cc:40-187 | from the text of a directive to the event: %c, %f, %m, %N, %P show logger name, file, content, thread name, level; %T a tab, %n a newline |
| `LogPatterns.NumbersRender` | src/log/log_format.cc:51-81 | %L, %t, %F show line, thread id and fiber id as decimal numerals that read back to them |
| `LogPatterns.ErrorsRender` | src/log/log_format.cc:117-140 | %e and %E show nothing while errno is 0, else "errno=" and its numeral, "strerr=" and its text |
| `LogPatterns.TimesAndTextRender` | src/log/log_format.cc:18-37 | %D shows the time by "%y:%m:%d %H-%M-%S", %D{f} by f; other text shows as itself |
| `LogPatterns.OtherLettersAreErrors` | src/log/log_format.cc:280-285 | a `%` before any other letter, or at the end, is an error |
| `LogFormat.FormatEvent` | src/log/log_format.cc:195-323 | a formatter made for a pattern shows what the pattern renders, and ends the program iff a non-empty pattern does not parse |
| `LogFormat.LogFormatter.ParserFormatter` | src/log/log_format.cc:214-300 | the i/j loops compute the parse; a failed parse keeps the old items |
| `LogFormat.LogFormatter.SetPattern` | src/log/log_format.cc:201-212 | the program ends iff the pattern does not parse; otherwise the remembered pattern is what the items print |
| `LogFormat.LogFormatter.Format` | src/log/log_format.cc:319-323 | appends the rendering of the items to the stream |
| `LogFormat.ReadItem` | src/log/log_format.cc:223-295 | one turn of the parsing loop reads the item at i and ends where the next starts |
| `TokenStreams.SplitIsUnique` | code/boost.context/boost/token_functions.hpp:457-520 | k delimiters and k + 1 delimiter-free fields making up the input are determined by the input |
| `TokenStreams.KeepStreamIsSplit` | code/boost.context/boost/token_functions.hpp:486-518 | keep_empty_tokens: the tokens are those fields in order, each kept delimiter between its neighbours |
| `TokenStreams.KeepStreamIs` | code/boost.context/boost/token_functions.hpp:486-518 | the keep stream for both values of `m_output_done` |
| `TokenStreams.ReusedKeepIsSplitIff` | code/boost.context/boost/token_functions.hpp:455-455 | reset does not clear `m_output_done`: a second pass is the split iff the input is not empty and does not start with a delimiter |
| `TokenStreams.KeepEndsDone` | code/boost.context/boost/token_functions.hpp:488-498 | a full pass leaves `m_output_done` set |
| `TokenStreams.DropStreamIsSplit` | code/boost.context/boost/token_functions.hpp:468-484 | drop_empty_tokens: the non-empty part of the split in which a character that is both kept and dropped is dropped |
| `TokenStreams.DropIsKeepWithoutEmptiesIff` | code/boost.context/boost/token_functions.hpp:457-520 | the drop stream is the keep stream without empty fields iff no input character is both kept and dropped |
| `TokenStreams.TokensSpellInput` | code/boost.context/boost/token_functions.hpp:457-520 | the tokens, put together, are the input without the delimiters that are not kept |
| `Tokenizers.Tokenize` | code/boost.context/boost/token_functions.hpp:424-520 | from the constructor's arguments to the tokens: the split by the characters of the two strings, for either policy |
| `Tokenizers.TokenizeDefault` | code/boost.context/boost/token_functions.hpp:448-453 | the default constructor: the split by C-locale punctuation and white space, given by character codes, without empty tokens |
| `Tokenizers.CharSeparator.constructor` | code/boost.context/boost/token_functions.hpp:424-446 | the kept and the dropped delimiters are the characters of the two strings |
| `Tokenizers.CharSeparator.Default` | code/boost.context/boost/token_functions.hpp:448-453 | the kept delimiters are the punctuation and the dropped ones the white space of the C locale, by character codes |
| `Tokenizers.CharSeparator.Reset` | code/boost.context/boost/token_functions.hpp:455-455 | `m_output_done` stays as it is |
| `Tokenizers.CharSeparator.Next` | code/boost.context/boost/token_functions.hpp:457-520 | one call: token, new position and new `m_output_done` |
| `Tokenizers.CharSeparator.All` | code/boost.context/boost/token_functions.hpp:457-520 | repeated calls give the stream |

## Left out

- Several producers on the lock-free list beyond `SecondProducerLosesValue` and `LossIff`: AllocNode takes the new head
  from a second read of `m_head`, and the link CAS compares with an untagged null, so the tag argument needs a single
  producer.
- LockFreeCounterexamples.LossIff: lists of one or two nodes with several producers are not decided.
- Weak memory, torn double-word accesses and wrap-around of tags; progress (lock freedom) of the retry loops.
- Tags of the initial free chain: they are array positions, and the first id drawn repeats the largest one. It never
  meets a queue link with that tag, so the theorems are unaffected.
- TimerRuns.NoLostWakeUp: the planned wake is counted from the clock reading it was computed from, and a zero timeout is
  not planned: a task already due makes the poller wait 3000 ms, and only that bound holds.
- The pipe is edge-triggered in epoll; it is modelled as a count of unread bytes.
- Tasks are records in a map keyed by address; reuse of a freed task's address and the reference counts of shared_ptr
  are not modelled. Creating a task at an address in use is no step.
- Schedulers.Scheduler.AddFiber: the processers' states are read as one snapshot per call, and before `start`, with no
  processers, the function indexes an empty vector; at least one processer is required.
- The readiness dispatch at `src/fiber/poller.cc:275-314`, which maps EPOLLOUT to READ and EPOLLIN to WRITE and triggers
  events without checking that each is armed.
- Registry operations are whole steps: the per-fd lock is taken to serialise them, and growth of the table under the
  read lock is not interleaved with lookups. Closing an fd behind the poller's back, and using the poller's own
  pipe descriptor as an fd, are not modelled.
- `Processer::idle` and its flag, `addFibers` (its loop condition is inverted), and several threads adding to one
  processer at once; `boost::lockfree::spsc_queue` is not part of this model and is a FIFO of 128 places.
- `integer::gcd` is not part of this model and is specified as the non-negative gcd; fixed-width overflow in `rational`,
  the increment operators and stream input and output, which are easy members.
- strftime (its 64-byte buffer included), strerror, errno and level names are inputs of rendering; `cleanEventItem`.
- `offset_separator`, `escaped_list_separator` and the deprecated separator; iterators other than positions in a string;
  locales other than the C locale.
- YAML configuration, log appenders, sockets, hooks, context switching and thread wrappers.
