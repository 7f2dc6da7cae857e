# Verified models of operating-system exercises and lock headers

A Dafny 4.11 project that models the hard core of a repository of operating-system textbook exercises
and a copy of some Linux headers, and proves what that code is for. `dafny verify dfyconfig.toml` checks
all of it.

Three kinds of code are modelled.

* **Synchronisation programs** (chapter 5): the reusable two-wall barrier, the sleeping teaching
  assistant, the licence counter, the dining philosophers, the producer/consumer buffer and the process
  identifier manager. A protocol is a machine: shared variables, one program counter per thread, and a
  `Step` function for what a thread does next. A section under a mutex is one step, cut where it waits on
  a condition variable; every semaphore operation is one step. A schedule is any sequence of moves; a move
  of a blocked thread changes nothing, and a parked thread may be woken for no reason, as
  `pthread_cond_wait` in POSIX.1 permits. `Run(Init(...), moves)` is the state a schedule leads to, and the
  main results hold for all `moves` and for any number of threads, chairs, licences, philosophers, slots
  and identifiers: the constants of the programs are parameters. A failed `assert` of a program sets
  `crashed`, so that "no assertion fails" is proved and not assumed. Fields marked as history record what
  happened and never influence it.
* **Lock fast paths** (Linux headers): the exchange-based mutex, the queue read/write lock and the
  reader/writer semaphore. Every atomic operation is one step; the packed word wraps as the machine's does.
  A caller handed over to a slow path stays there with the bias its fast path left in the word.
* **Fast forms against simple ones**: the page-table range macros, the word-at-a-time search for a zero
  byte and the unrolled, register-staged and prefetching XOR kernels.

Where the source updates an object in place, the model does too: `Philosophers.Table`,
`PidManager.Manager` and `BoundedBuffer.Buffer` are classes over arrays, and the XOR kernels and the zero
finder are methods. Each of their methods is proved against a function of the old state, and the results
over whole runs are about those same functions.

## How the proofs are built

`Counting` has `Total`, the sum of a weight over all threads, and how it changes when one thread moves.
Every protocol's invariant is a few equations between shared variables and such totals (a *tally*), plus
what each program counter says of its thread. `Exclusion` says what it means for a reader/writer lock to
exclude. `Arithmetic` has division with remainder. The modules whose names end in `Traces`, `Accounts` and
`Turns` tell from the schedule alone, and not from how a step is written, what the operations leave behind
and who can get on. Four protocols (barrier, assistant, licences,
philosophers) have a theorem of bounded work: a potential that every step lowers, except those that count
as progress.

Properties that hold only under a condition are stated with the exact one:

| property | holds exactly when |
|---|---|
| the barrier never deadlocks, its threads calling it for ever | there are at least as many threads as the threshold |
| the licence counter never deadlocks | no request may exceed the number of licences |
| the queue read/write lock excludes | there are at most 2^24 threads |
| the reader/writer semaphore's count decodes | there are at most (active mask + 1) / 2 threads |
| the reader/writer semaphore excludes | there are at most (active mask + 1) / 2 + 1 threads |

## Model

| member | source | states |
|---|---|---|
| `Barrier.RunRight` | ch5/problems/pp5_41/barrier.c:13-192 | The barrier's invariant holds after every schedule: gate value plus threads inside is the threshold, the counter counts exactly the threads between the first wall and their counting out, nobody is parked at a wall that has opened, a full barrier has a thread ready to open it |
| `Barrier.RoundsSafe` | ch5/problems/pp5_41/barrier.c:29-143 | Every finished round had threshold different threads count in and released exactly those; in the current round nobody passed the second wall before threshold threads counted in; nobody counts into a round that still drains |
| `Barrier.LeavingCountsOut` | ch5/problems/pp5_41/barrier.c:131-143 | A thread past the second wall always finds the counter positive and counts itself out once; the wall opens on its exit exactly when it was still closed |
| `Barrier.InitRight` | ch5/problems/pp5_41/barrier.c:214-239 | The initial state, with every thread outside, satisfies the invariant for every positive threshold |
| `BarrierProgress.FullGateMoves` | ch5/problems/pp5_41/barrier.c:29-58 | When the gate is shut some thread inside can step without being woken: no wakeup is lost, neither when the counter fills without a broadcast nor when the last thread out leaves others parked at the first wall |
| `BarrierProgress.NotStuck` | ch5/problems/pp5_41/barrier.c:171-192 | With at least threshold threads somebody can always step |
| `BarrierProgress.DeadlockFreeIff` | ch5/problems/pp5_41/barrier.c:13-192 | No schedule of threads that call the barrier for ever deadlocks if and only if there are at least threshold of them |
| `BarrierProgress.StepSpends` | ch5/problems/pp5_41/barrier.c:13-156 | Every step opens the second wall or lowers a bounded potential |
| `BarrierProgress.RoundsKeepComing` | ch5/problems/pp5_41/barrier.c:13-192 | Without any fairness assumption, the steps of a schedule are bounded by a constant per completed round plus two per spurious wakeup |
| `BarrierProgress.EveryCallReturns` | ch5/problems/pp5_41/barrier.c:171-192 | After every schedule a thread outside can be brought to pass the gate, and with at least threshold threads a thread inside can be brought out again, having posted the gate |
| `TeachingAssistant.InitRight` | ch5/projects/proj1/posix-unnamed-sem-TA.c:184-239 | The initial values satisfy the handshake's invariant |
| `TeachingAssistant.RunRight` | ch5/projects/proj1/posix-unnamed-sem-TA.c:372-635 | The invariant that ties all eight semaphores, the chair count, the named student and every status to where students and assistant are holds after every schedule |
| `TeachingAssistant.OneInService` | ch5/projects/proj1/posix-unnamed-sem-TA.c:388-431 | Two students are never both between leaving the outside chair and posting their release |
| `TeachingAssistant.LockIsFree` | ch5/projects/proj1/posix-unnamed-sem-TA.c:388-395 | Whoever comes to wait on the assistant's lock finds it free |
| `TeachingAssistant.ServiceExclusive` | ch5/projects/proj1/posix-unnamed-sem-TA.c:372-501 | For every schedule: no assertion fails, no more students are seated than there are chairs, the free-chair count stays in range, service is exclusive and the lock wait never blocks |
| `TeachingAssistant.NameIsStable` | ch5/projects/proj1/posix-unnamed-sem-TA.c:570-598 | While the assistant greets, teaches and dismisses, the named student is valid, sits in the office, has the expected status, and no student's move changes the name |
| `TeachingAssistant.NameIsCleared` | ch5/projects/proj1/posix-unnamed-sem-TA.c:400-416 | After every schedule student_with_TA names a student exactly while that student is between setting and clearing it, and is -1 exactly while no student is |
| `TeachingAssistant.EveryRequestAnswered` | ch5/projects/proj1/posix-unnamed-sem-TA.c:513-602 | Each student was helped exactly as often as it asked, but for the one request it may have pending |
| `TeachingAssistant.NoRequestLost` | ch5/projects/proj1/posix-unnamed-sem-TA.c:463-614 | While the assistant is held up napping no request is outstanding; while it is held up later some student with a request can step |
| `TeachingAssistant.Unblocked` | ch5/projects/proj1/posix-unnamed-sem-TA.c:540-602 | From every state of the handshake a schedule of steps by students with requests alone brings the assistant past the semaphore it waits on |
| `TeachingAssistant.AssistantCanGoOn` | ch5/projects/proj1/posix-unnamed-sem-TA.c:463-635 | After every schedule the assistant can step, or naps with nothing outstanding, or can be brought to where it can step by the students with requests alone |
| `TeachingAssistant.NeverDeadlocked` | ch5/projects/proj1/posix-unnamed-sem-TA.c:513-635 | With at least one student somebody can always step |
| `TeachingAssistantProgress.HelpKeepsComing` | ch5/projects/proj1/posix-unnamed-sem-TA.c:463-635 | Without any fairness assumption, the steps of a schedule are at most 24 per help given plus two per time a student finds no chair plus a fixed start |
| `TeachingAssistantProgress.EveryRequestEnds` | ch5/projects/proj1/posix-unnamed-sem-TA.c:372-635 | After every schedule the assistant and the students under way can bring every semaphore, variable and thread back to its start without a new request, each student helped as often as it asked |
| `XchgMutex.RunKeeps` | linux_headers/include/asm-generic/mutex-xchg.h:25-114 | The mutex invariant holds over every interleaving of lock, lock_retval, trylock and unlock |
| `XchgMutex.MutualExclusion` | linux_headers/include/asm-generic/mutex-xchg.h:25-72 | The count is 1 exactly when nobody owns the lock, and never do two threads own it |
| `XchgMutex.TrylockTruthful` | linux_headers/include/asm-generic/mutex-xchg.h:82-114 | A trylock returns 1 exactly if it took ownership and else 0, leaves the count below 1, and does not leave 0 if it found the lock contended |
| `XchgMutex.MarkSurvives` | linux_headers/include/asm-generic/mutex-xchg.h:25-114 | While a handed-over locker has not been reported by an unlock, the count is -1 or an operation in flight is about to write -1 |
| `XchgMutex.ContendedUnlockToCome` | linux_headers/include/asm-generic/mutex-xchg.h:67-72 | With nothing in flight, a lock with unreported waiters has an owner whose unlock reports contention, and a free lock has no unreported waiter |
| `XchgMutex.MarksAreEarned` | linux_headers/include/asm-generic/mutex-xchg.h:25-114 | After every schedule the count is -1 only if a second exchange was made since the last unlock, and if one was, the count is -1 or an operation in flight will make it so |
| `XchgMutex.UnlockReportsIff` | linux_headers/include/asm-generic/mutex-xchg.h:67-72 | With nothing in flight an unlock takes the slow path exactly if a second exchange was made since the last unlock |
| `XchgMutex.UncontendedIsSilent` | linux_headers/include/asm-generic/mutex-xchg.h:25-72 | While no second exchange is made the count is 0 or 1 and no unlock takes the slow path |
| `XchgMutex.RoundTrips` | linux_headers/include/asm-generic/mutex-xchg.h:25-114 | Undisturbed, taking a free lock either way and unlocking it restores everything, and so does a trylock that fails |
| `Licences.StepBalances` | ch5/problems/pp5_37/pp5.37.c:111-196 | What a step takes from gate, counter or semaphore it puts with its thread, and back |
| `Licences.Conservation` | ch5/problems/pp5_37/pp5.37.c:115-196 | The counter equals semaphore value plus licences gathered at the gate plus returns not yet posted, and with what is granted it makes up all licences, after every schedule |
| `Licences.NeverInsufficient` | ch5/problems/pp5_37/pp5.37.c:122-193 | No assertion fails, the counter stays in range, and a thread that gathered its licences is never refused |
| `Licences.OnlyOneGathers` | ch5/problems/pp5_37/pp5.37.c:115-159 | Only the thread at the gate holds a partial set of licences |
| `Licences.HolderCanReturn` | ch5/problems/pp5_37/pp5.37.c:165-196 | If the thread at the gate waits for a licence, some holder can step towards returning its licences without passing the gate |
| `Licences.DeadlockFreeIff` | ch5/problems/pp5_37/pp5.37.c:262-296 | No schedule deadlocks if and only if no request may exceed the number of licences |
| `Licences.GrantsKeepComing` | ch5/problems/pp5_37/pp5.37.c:262-296 | Without any fairness assumption, the steps of a schedule are bounded by a constant start plus a constant per granted request |
| `LicenceAccounts.AccountsBalance` | ch5/problems/pp5_37/pp5.37.c:111-293 | Over every schedule a thread takes from the semaphore and from the counter exactly what its roll asked for, and has given all of it back to both when it is idle again |
| `LicenceAccounts.EveryRequestEnds` | ch5/problems/pp5_37/pp5.37.c:262-296 | If no request may exceed the licences, then after every schedule the threads under way can get everybody idle and all licences back, granting exactly the pending requests |
| `Philosophers.Neighbours` | ch5/projects/proj2/ch5_pp2_dpp.c:270-284 | The modular neighbour functions are rotations that undo each other and lead to somebody else |
| `Philosophers.Table.constructor` | ch5/projects/proj2/ch5_pp2_dpp.c:224-228 | Everybody thinks at first |
| `Philosophers.Table.Test` | ch5/projects/proj2/ch5_pp2_dpp.c:296-339 | The array becomes `Tested` of what it was, and the signal is sent exactly when the philosopher may eat |
| `Philosophers.Table.PickupForks` | ch5/projects/proj2/ch5_pp2_dpp.c:346-363 | The array becomes `Tried` of what it was; the caller goes on exactly if it now eats |
| `Philosophers.Table.ReturnForks` | ch5/projects/proj2/ch5_pp2_dpp.c:391-426 | The array becomes `Returned` of what it was; exactly the signalled neighbours have begun to eat |
| `Philosophers.TestKeeps` | ch5/projects/proj2/ch5_pp2_dpp.c:296-339 | A test keeps neighbours from eating together and settles the case of the philosopher tested, with any set of others still open |
| `Philosophers.TryKeeps` | ch5/projects/proj2/ch5_pp2_dpp.c:346-360 | Picking up forks keeps both: no two neighbours eat, and whoever is hungry has a neighbour that eats |
| `Philosophers.ReturnKeeps` | ch5/projects/proj2/ch5_pp2_dpp.c:391-416 | Returning forks keeps both, in either order of the two tests |
| `Philosophers.RunKeeps` | ch5/projects/proj2/ch5_pp2_dpp.c:346-510 | The monitor's invariant holds after every schedule, spurious wakeups included |
| `Philosophers.TableSafe` | ch5/projects/proj2/ch5_pp2_dpp.c:375-508 | Between sections no two neighbours eat, every hungry philosopher has an eating neighbour, and no assertion fails, including those that read the neighbours without the mutex |
| `Philosophers.NoLostWakeup` | ch5/projects/proj2/ch5_pp2_dpp.c:361-426 | Whoever is parked is hungry and has an eating neighbour that can step; somebody can always step |
| `Philosophers.MealsKeepComing` | ch5/projects/proj2/ch5_pp2_dpp.c:346-512 | Without any fairness assumption, the steps of a schedule are at most eight per meal begun plus three per philosopher plus one per spurious wakeup |
| `PhilosopherTurns.EverybodyCanEat` | ch5/projects/proj2/ch5_pp2_dpp.c:346-512 | After every schedule every philosopher can be brought to a meal by its own steps and its neighbours' alone |
| `PhilosopherTurns.FirstTestedWins` | ch5/projects/proj2/ch5_pp2_dpp.c:407-414 | The neighbour tested first, the left one after an even number of meals, gets its forks if it may eat; the other misses out only if it sits beside that one |
| `PhilosopherTurns.OrderMattersIff` | ch5/projects/proj2/ch5_pp2_dpp.c:407-414 | Alternating the order of the tests makes a difference if and only if three philosophers sit at the table |
| `QueueRwLock.RunKeeps` | linux_headers/include/asm-generic/qrwlock.h:65-150 | The word is 256 per reader bias present plus 0xff per writer, modulo 2^32, and there is at most one writer, after every schedule of any number of threads |
| `QueueRwLock.WordDecodes` | linux_headers/include/asm-generic/qrwlock.h:30-34 | With fewer than 2^24 biases present the two fields read exactly the readers and the writer |
| `QueueRwLock.NoTrace` | linux_headers/include/asm-generic/qrwlock.h:65-150 | Two schedules that leave the same biases leave the same word |
| `QueueRwLock.UnlockStaysInField` | linux_headers/include/asm-generic/qrwlock.h:74-150 | A read unlock, and the undoing of a failed read trylock, makes its thread idle, lowers the reader field by one and leaves the writer byte; a write unlock clears the writer byte and leaves the reader field |
| `QueueRwLock.CanLockPredicts` | linux_headers/include/asm-generic/qrwlock.h:42-94 | Each can-lock predicate holds exactly when the trylock, undisturbed, would succeed |
| `QueueRwLock.ExcludesIff` | linux_headers/include/asm-generic/qrwlock.h:65-150 | A writer never shares the lock with a reader or writer under any schedule if and only if there are at most 2^24 threads |
| `QueueRwLockTraces.GrantsIff` | linux_headers/include/asm-generic/qrwlock.h:99-122 | Over every schedule a read lock is granted exactly when there is no writer, and a write lock exactly when there is none and the reader count is 0 modulo 2^24 |
| `QueueRwLockTraces.RoundTrips` | linux_headers/include/asm-generic/qrwlock.h:65-150 | Undisturbed, a lock that was granted, by lock or trylock, and given back restores everything, and so does a trylock that fails |
| `QueueRwLockTraces.FailedReadTrylock` | linux_headers/include/asm-generic/qrwlock.h:65-77 | A failed read trylock among any moves of others leaves lock and threads as if it had not been made, unless somebody compares the word with 0 while only its bias makes it differ |
| `QueueRwLockTraces.FailedWriteTrylock` | linux_headers/include/asm-generic/qrwlock.h:84-94 | A write trylock that saw 0 and fails its exchange leaves lock and threads as if it had not been made |
| `RwSemaphore.RunKeeps` | linux_headers/include/asm-generic/rwsem.h:34-121 | The count is the wrapped sum of the biases of all attempts present, and a read trylock exchanges only from a count that was not negative, after every schedule |
| `RwSemaphore.SumDecodes` | linux_headers/include/asm-generic/rwsem.h:19-29 | A sum of at most half the base of biases does not overflow and decodes uniquely to readers and writers, for both widths |
| `RwSemaphore.CountDecodesIff` | linux_headers/include/asm-generic/rwsem.h:19-100 | Every reachable count decodes to its reader and writer attempts if and only if there are at most (active mask + 1) / 2 threads |
| `RwSemaphore.StepFinds` | linux_headers/include/asm-generic/rwsem.h:34-78 | A fast path that succeeds found no writer attempt, for a reader, and no attempt at all, for a writer |
| `RwSemaphore.DowngradeKeepsLock` | linux_headers/include/asm-generic/rwsem.h:113-121 | Downgrading turns the writer into one reader: for any number of threads the active part of the count stays, and is the number of attempts modulo the base; with fewer threads than the base it is positive; within the bound for exclusion nobody else has the semaphore; within the bound for decoding the writer part drops by one |
| `RwSemaphore.ExcludesIff` | linux_headers/include/asm-generic/rwsem.h:34-121 | One writer and no readers, or readers only, under every schedule if and only if there are at most (active mask + 1) / 2 + 1 threads |
| `RwSemaphoreTraces.GrantsIff` | linux_headers/include/asm-generic/rwsem.h:34-64 | With threads for which it excludes, the semaphore is granted for reading exactly when there is no write attempt and for writing exactly when there is no attempt |
| `RwSemaphoreTraces.GrantsShow` | linux_headers/include/asm-generic/rwsem.h:34-64 | For any number of threads a grant is given exactly if the wrapped sum of all biases, the new one included, is positive for a reader and one write bias for a writer |
| `RwSemaphoreTraces.RoundTrips` | linux_headers/include/asm-generic/rwsem.h:34-121 | A grant that is given back restores everything, and so does a writer that downgrades and leaves as a reader, for any number of threads |
| `RwSemaphoreTraces.TrylocksPredicted` | linux_headers/include/asm-generic/rwsem.h:40-78 | Undisturbed, the read trylock succeeds exactly when the count is not negative and the write trylock exactly when it is 0; a failed one changes nothing and a successful one is undone by the release |
| `RwSemaphoreTraces.FailedReadTrylock` | linux_headers/include/asm-generic/rwsem.h:40-51 | A read trylock that fails among any moves of others leaves everything as if it had not been made, and fails only if the count was negative meanwhile |
| `PidManager.ScanFits` | ch5/problems/pp5_36/pid_manager.c:69-82 | A bounded circular scan long enough to reach some free slot stops at the first free slot at or after its start |
| `PidManager.FreeIff` | ch5/problems/pp5_36/pid_manager.c:61-67 | The number of marked slots is below the table size exactly when some slot is free |
| `PidManager.AllocatedFits` | ch5/problems/pp5_36/pid_manager.c:51-103 | An allocation returns the first free identifier at or after the scan position, and -1 exactly when none is free |
| `PidManager.Manager.constructor` | ch5/problems/pp5_36/pid_manager.c:15-19 | An empty table for identifiers from minimum to maximum |
| `PidManager.Manager.FindFree` | ch5/problems/pp5_36/pid_manager.c:69-77 | The loop leaves the scan position where `Scan` stops, and changes nothing else |
| `PidManager.Manager.AllocatePid` | ch5/problems/pp5_36/pid_manager.c:51-103 | Table, scan position and result are those of `Allocated`, the in-use count stays the number of marked slots, and the program's check after the scan holds |
| `PidManager.Manager.ReleasePid` | ch5/problems/pp5_36/pid_manager.c:105-137 | Exactly the released mark is cleared, the in-use count stays the number of marked slots, and the program's checks of the count hold |
| `PidManager.HeldIsLive` | ch5/problems/pp5_36/pid_manager.c:51-137 | After every history of calls the marked identifiers are exactly those clients were given and have not released |
| `PidManager.AllocationsAreFresh` | ch5/problems/pp5_36/pid_manager.c:51-103 | After every history an allocation returns an identifier in range that nobody holds, or -1, and -1 exactly when all are held |
| `PidManager.AllocationsGoAround` | ch5/problems/pp5_36/pid_manager.c:18-103 | After every history an allocation that succeeds returns the first identifier nobody holds, going up and around from the last one given out, or from the lowest if none was |
| `PidManager.LowestFirst` | ch5/problems/pp5_36/pid_manager.c:17-103 | The first allocation of all returns the lowest identifier |
| `PidManager.AllocationApproaches` | ch5/problems/pp5_36/pid_manager.c:69-91 | While a slot is free an allocation succeeds and takes that slot or brings the scan strictly nearer to it |
| `PidManager.FreeSlotComesUp` | ch5/problems/pp5_36/pid_manager.c:69-91 | A slot that stays free sees fewer successful allocations than the table has slots |
| `BoundedBuffer.InsertAppends` | ch5/projects/proj3/ch5_pp3_pcp.c:290-309 | An insertion does not block, appends its item to the queue the ring stands for, and fails exactly when that queue fills the ring |
| `BoundedBuffer.RemoveTakesFirst` | ch5/projects/proj3/ch5_pp3_pcp.c:338-359 | A removal does not block, takes the first item of the queue, and fails exactly when there is none |
| `BoundedBuffer.Buffer.constructor` | ch5/projects/proj3/ch5_pp3_pcp.c:133-167 | An empty ring whose semaphores agree with it |
| `BoundedBuffer.Buffer.InsertItem` | ch5/projects/proj3/ch5_pp3_pcp.c:275-321 | The in-place update returns what `Insert` returns, so its semaphore wait is never at zero, and keeps tail and semaphores in step |
| `BoundedBuffer.Buffer.RemoveItem` | ch5/projects/proj3/ch5_pp3_pcp.c:323-372 | The in-place update returns what `Remove` returns, so its semaphore wait is never at zero, and keeps tail and semaphores in step |
| `BoundedBuffer.FirstInFirstOut` | ch5/projects/proj3/ch5_pp3_pcp.c:275-427 | In every run what was consumed followed by the n slots from the head is what was accepted, in order; what was accepted of each producer is what it made, but for an item it retries; the semaphores equal n and size - n; nobody blocks holding the mutex |
| `BufferTraces.AcceptedAreRolls` | ch5/projects/proj3/ch5_pp3_pcp.c:378-404 | What was accepted from a producer is what it rolled, in order and without a gap, but for a last roll still to be accepted |
| `BufferTraces.SlotsMarked` | ch5/projects/proj3/ch5_pp3_pcp.c:298-350 | After every run head and tail are where the removals and insertions have brought them, and a slot that is not taken holds the mark of a removed item, or 0 if none was ever put there |
| `PageWalk.MacroRounds` | linux_headers/include/asm-generic/pgtable.h:258-275 | The macro with its bit mask computes the rounded boundary and comparison the walks are about, for every width and every power of two as the size |
| `PageWalk.MaskRoundsDown` | linux_headers/include/asm-generic/pgtable.h:259-259 | Bitwise and with the complement of size - 1 rounds down to a multiple of size |
| `PageWalk.AddrEndIsNext` | linux_headers/include/asm-generic/pgtable.h:252-275 | The result is the smaller of the next boundary and the end, also when either wraps to 0 |
| `PageWalk.WalkReachesEnd` | linux_headers/include/asm-generic/pgtable.h:252-275 | Iterating the macro terminates exactly at the end and cuts the range at every boundary and nowhere else |
| `PageWalk.WalkSplits` | linux_headers/include/asm-generic/pgtable.h:252-275 | A walk splits at every boundary inside its range into two walks |
| `PageWalk.NestedIsFlat` | linux_headers/include/asm-generic/pgtable.h:264-275 | A walk in big chunks with a walk in small ones inside each is the flat walk in small ones |
| `PageWalk.LevelsAreFlat` | linux_headers/include/asm-generic/pgtable.h:258-275 | The nested pgd, pud and pmd walk yields the partition of the flat pmd-sized walk |
| `WordAtATime.HasZero64` | linux_headers/include/asm-generic/word-at-a-time.h:45-50 | Nonzero exactly when some byte of the 64-bit word is zero; the saved data is what the mask needs |
| `WordAtATime.MaskMarksZeros64` | linux_headers/include/asm-generic/word-at-a-time.h:21-25 | The mask has 0x80 in exactly the zero bytes and nothing elsewhere: carries make no false hit |
| `WordAtATime.FindZero64` | linux_headers/include/asm-generic/word-at-a-time.h:29-43 | Halving finds the first byte of any mask that is not zero, in big-endian order |
| `WordAtATime.FirstZero64` | linux_headers/include/asm-generic/word-at-a-time.h:18-50 | Together they find the first zero byte of every 64-bit word, and say so if there is none |
| `WordAtATime.HasZero32` | linux_headers/include/asm-generic/word-at-a-time.h:45-50 | The same for 32-bit words |
| `WordAtATime.MaskMarksZeros32` | linux_headers/include/asm-generic/word-at-a-time.h:21-25 | The same for 32-bit words |
| `WordAtATime.FindZero32` | linux_headers/include/asm-generic/word-at-a-time.h:37-42 | The same for 32-bit words |
| `WordAtATime.FirstZero32` | linux_headers/include/asm-generic/word-at-a-time.h:18-50 | The same for 32-bit words |
| `XorKernels.LongsLawful` | linux_headers/include/asm-generic/xor.h:18-41 | XOR of 32-bit and of 64-bit longs obeys the laws the kernels rely on |
| `XorKernels.LineInMemory` | linux_headers/include/asm-generic/xor.h:18-101 | A line updated word by word in memory becomes each word XORed with the sum of the sources, and nothing else changes |
| `XorKernels.LineInRegisters` | linux_headers/include/asm-generic/xor.h:103-302 | A line staged in registers becomes each word with the sources XORed in one after another, and nothing else changes |
| `XorKernels.FoldIsSum` | linux_headers/include/asm-generic/xor.h:103-302 | Staging and the direct form compute the same word for any number of sources |
| `XorKernels.Xor` | linux_headers/include/asm-generic/xor.h:18-302 | The plain kernels, in memory or staged, turn exactly the words of the whole lines within the given bytes, or of one line if there is none, into their XOR with all sources |
| `XorKernels.XorPrefetching` | linux_headers/include/asm-generic/xor.h:304-678 | The prefetching kernels with their jump back update exactly the same words to the same values, for every number of bytes |
| `XorKernels.WholeLines` | linux_headers/include/asm-generic/xor.h:21-34 | For a positive number of whole lines of bytes those words are all the longs of the bytes and no more |
| `XorKernels.LinesSpan` | linux_headers/include/asm-generic/xor.h:21-21 | The kernels' count of lines comes to the words of the whole lines within the bytes, or one line |
| `XorKernels.SumWithout` | linux_headers/include/asm-generic/xor.h:18-101 | Leaving one block out of the sum is XORing with it again |
| `XorKernels.MissingBlockRecovered` | linux_headers/include/asm-generic/xor.h:18-678 | Zeros XORed with all blocks, and the result with the surviving ones, are any one missing block |
| `XorKernels.Recover` | linux_headers/include/asm-generic/xor.h:18-678 | A plain kernel run on zeros and all blocks, and a prefetching one on its result and the survivors, each in memory or staged, return the missing block |

## Left out

- Printing, sleeping, `rand`, thread creation and joining, error codes of library calls, thread-id lookup: I/O and library plumbing. A random number is a parameter of the move that uses it.
- The protocols and the lock headers are step functions over values, not classes: what matters in them is the interleaving of steps of many threads, which a method call does not have. The sections of the philosophers, the process identifier manager and the buffer are classes as well.
- Weak memory ordering and memory barriers: atomic operations and semaphores are sequentially consistent.
- Slow paths of the locks (`queue_read_lock_slowpath`, `queue_write_lock_slowpath`, `rwsem_*_failed`, `fail_fn`) and the wake calls of the reader/writer semaphore: declared but not shown in the headers, so nothing is claimed about queueing, waking or fairness there.
- Threads that stop using the barrier: every thread calls `barrier_point` for ever, as the client's do (ch5/problems/pp5_41/pp5.41.c:132-152); a client whose threads stop can leave fewer than the threshold behind.
- Starvation of one particular thread: it depends on the scheduler and on semaphore fairness.
- In the teaching-assistant program the variable `Ta` is written and never read, and is not modelled; increments of `free_chairs_count` are atomic steps; `Chair_outside_sem`, which `init_state` does not initialise, starts at 0 as the comment on its declaration says.
- Overflow of the philosophers' meal counters and of the process identifier table's `int` indices: the counts are unbounded numbers.
- `zero_bytemask` of the word-at-a-time header: it rests on `__fls`, which is not part of this model.
- PidManager.Manager.ReleasePid: requires a live identifier, where the program aborts on any other; `PidManager.Apply` leaves such calls out of a history.
- XorKernels.Xor: takes any number of sources where the header has one function for each of one to four, runs the eight statements of a line as a loop, and leaves out the prefetch hints; `XorKernels.XorPrefetching` likewise.
- PageWalk.Walk: the loop over the macros is in their callers, outside the header; the model takes the usual loop that ends when the result equals the end.
- The first, superseded version of the teaching-assistant program, the earlier copies of the process identifier manager in chapters 3 and 4, and the empty outline of the buffer.
- The other exercises (Monte Carlo, statistics, Fibonacci, primes, summation, the chapter 7 deadlock demonstration), the Java and Win32 programs, the fork, pipe and shared-memory demonstrations, the kernel modules and all other headers: easy members or calls into code that is not shown.
