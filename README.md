# Transaction manager, PageRank preprocessing and the cacti actor system, in Dafny

This project models the logic at the heart of three concurrent-programming
projects and proves what that logic promises.

**Transaction lock manager** (`Project1`). `TransactionManagerImpl` runs
transactions under strict two-phase locking. It keeps four tables, all
guarded by one global lock:

- a registry from thread to `TransactionInfo`;
- a lock table from resource to owner;
- a wait table from resource to waiting threads;
- an undo log per transaction.

Every synchronized block is one atomic step on the state of class
`TxManager.TransactionManager`, and the calling thread is passed explicitly.
`operateOnResourceInCurrentTransaction` is modelled as four steps:

- `BeginOperate`: the three checks and the lock acquisition, which are four synchronized blocks in the source;
- `RemoveDeadlock`;
- `AwaitWake`: the semaphore wait with its `catch` and `finally` blocks;
- `ExecuteOperation`: the unsynchronized `execute`, the interrupt test and the synchronized history append.

Module `Permits` states what the semaphores should mean: a permit is held
only while waiting, and then either with an interrupt mark or as the one
permit of a lock handed to the holder.

The other modules of this component:

- Module `Locking` holds the tables as values, the invariant `Consistent` that ties them together, and one preservation lemma per kind of update. It also holds the release loop of `finishCurrentTransaction`, written as the method `ReleaseAll`.
- Module `Deadlock` states the chain walk of `removeDeadlock` as a function, together with the "younger" order it uses and the condition for the walk to stop.
- Module `History` states what replaying an undo log in reverse does.

**PageRank** (`Project3`). Module `Partition` models `ThreadsInfo`, which
splits `n` page indices among threads, and proves that the ranges partition
`[0, n)`. Module `PageRankPrep` models the preprocessing loops that build
the rank table's keys, `numLinks`, `danglingNodes` and `edges`. Each loop is
a method, proved against a function, and lemmas state what each table
means. These loops are the same in both computers:
`Project3/singleThreadedPageRankComputer.hpp:20-44` and
`Project3/multiThreadedPageRankComputer.hpp:25-48`.

**cacti** (`Project2`). Class `Cacti.ActorSystem` models the global state of
the actor library:

- the actor array, where each actor has a FIFO message queue;
- the live and total counters;
- the tasks handed to the thread pool.

Its invariant counts the live actors. It also ties every queued message to
one pending task.

Class `Silnia.Program` models the factorial program built on it. The
handlers update the shared state array and return what they send or print
as a list of effects. The triple `(k_factorial, k, n)` is proved to satisfy
`k_factorial = k! mod 2^64` at every step.

## Model

| member | source | states |
|---|---|---|
| TxManager.TransactionManager.constructor | Project1/TransactionManagerImpl.java:19-30 | A new manager knows exactly the given resources; its registry, lock table, wait table and interrupt set are empty, and its tables are consistent. |
| TxManager.TransactionManager.StartTransaction | Project1/TransactionManagerImpl.java:33-45 | A thread that already has a transaction is refused with `AnotherTransactionActive` and nothing changes. Otherwise it is registered with a fresh record carrying the clock value, and the invariant is kept. |
| TxManager.TransactionManager.AddToWaiting | Project1/TransactionManagerImpl.java:64-79 | The caller's waits-on field becomes `rid`, and the caller joins the waiter set of `rid`. A missing set is created. |
| TxManager.TransactionManager.RemoveFromWaiting | Project1/TransactionManagerImpl.java:83-97 | The caller's waits-on field becomes null, and the caller leaves the waiter set of `rid`, which is dropped once it is empty. |
| TxManager.TransactionManager.BeginOperate | Project1/TransactionManagerImpl.java:148-181 | The checks run in the source's order (no transaction, then aborted, then unknown resource), and a rejection changes nothing. The lock is then acquired in one of three ways. If the caller already owns it, nothing changes. If it is free, the caller owns it and it is appended to the held list. If another transaction owns it, the caller queues for it and waits on it. |
| TxManager.TransactionManager.FindDeadlock | Project1/TransactionManagerImpl.java:101-123 | The `while` walk from the owner of `rid`, whoever that owner is, returns exactly the verdict of `Deadlock.DetectAsWritten` and changes nothing. It needs the chain to stop within `bound` steps. |
| TxManager.TransactionManager.RemoveDeadlock | Project1/TransactionManagerImpl.java:101-134 | On a cycle, the victim of `DetectAsWritten` is the only transaction that is interrupted, marked aborted and given one permit; without a cycle nothing changes. When `rid` was already handed to the caller, the caller aborts itself. The tables stay consistent and the permit invariant is kept. |
| TxManager.TransactionManager.AwaitWake | Project1/TransactionManagerImpl.java:183-198 | An interrupt fails with `ActiveTransactionAborted` when the abort flag is set, and with `Interrupted` otherwise. It clears the interrupt and, as written, keeps the permits. Without an interrupt, a permit is consumed and the thread proceeds; under the permit invariant it then owns `rid`. Both exits remove the wait edge. Without an interrupt or a permit, nothing changes. A failed wait that keeps a permit breaks the permit invariant; every other exit keeps it. |
| TxManager.TransactionManager.AwaitWakeDrained | Project1/TransactionManagerImpl.java:183-198 | The corrected wait: as `AwaitWake`, except that a failed wait drops the permits. Every exit keeps the permit invariant, and a thread that proceeds owns `rid`. |
| TxManager.TransactionManager.ExecuteOperation | Project1/TransactionManagerImpl.java:201-213 | A failing `execute` changes no value and adds no history entry, and the lock is kept. A successful one writes the resource. A pending interrupt is then consumed and reported without an entry. Otherwise `(rid, op)` is appended at the tail of the history. |
| TxManager.TransactionManager.FinishCurrentTransaction | Project1/TransactionManagerImpl.java:220-253 | Each held lock becomes free when nobody waits for it; otherwise one of its waiters owns it, gets it in its held list and one permit. Locks the caller did not hold are unchanged. The caller's record is gone. The invariant is kept. |
| TxManager.TransactionManager.Commit | Project1/TransactionManagerImpl.java:256-268 | Without a transaction it fails with `NoActiveTransaction`, and for an aborted one with `ActiveTransactionAborted`; both leave the tables unchanged. Otherwise the locks are released as by `FinishCurrentTransaction`. |
| TxManager.TransactionManager.Rollback | Project1/TransactionManagerImpl.java:271-307 | Without a transaction it is a no-op. Otherwise the resources end up as `UndoAll` of the history (newest entry first) and the locks are released as by `FinishCurrentTransaction`. |
| TxManager.TransactionManager.IsTransactionActive | Project1/TransactionManagerImpl.java:310-314 | True exactly when the caller has a registered transaction. |
| TxManager.TransactionManager.IsTransactionAborted | Project1/TransactionManagerImpl.java:317-321 | The abort flag of the caller's transaction; like the source it needs one. |
| TxManager.TransactionManager.Interrupt | Project1/TransactionManagerImpl.java:186-195 | An external `Thread.interrupt()` of `t` marks `t` interrupted; `AwaitWake` and `ExecuteOperation` consume the mark. |
| Locking.NewTransactionInfo | Project1/TransactionInfo.java:19-26 | A new record has an empty history, no held resources, the given start time, no permits, no abort flag and no waits-on value. |
| Locking.AddWaiterMembers | Project1/TransactionManagerImpl.java:69-77 | Joining a waiter set adds exactly the pair (`rid`, `t`) to the wait table and nothing else. |
| Locking.RemoveWaiterMembers | Project1/TransactionManagerImpl.java:88-95 | Leaving a waiter set removes exactly the pair (`rid`, `t`), and no remaining waiter set is empty. |
| Locking.ConsistentGraphWellFormed | Project1/TransactionManagerImpl.java:105-122 | In consistent tables every waited-on resource is owned, and every owner and waiter is registered. So no lookup of the walk finds null. |
| Locking.EmptyConsistent | Project1/TransactionManagerImpl.java:19-30 | Empty tables over any resource set are consistent. |
| Locking.RegisterPreserves | Project1/TransactionManagerImpl.java:40-43 | Registering a record that holds nothing and waits on nothing keeps the tables consistent. |
| Locking.AcquirePreserves | Project1/TransactionManagerImpl.java:173-176 | Taking a free, known resource keeps the rule that `owner[rid] == T` exactly when `rid` is in `T`'s held list, and keeps that list free of repeats. |
| Locking.EnqueuePreserves | Project1/TransactionManagerImpl.java:64-79 | Queuing for an owned resource keeps the wait table and the waits-on fields in agreement. |
| Locking.DequeuePreserves | Project1/TransactionManagerImpl.java:83-97 | Leaving the queue of the resource waited on keeps the wait table and the waits-on fields in agreement. |
| Locking.AbortPreserves | Project1/TransactionManagerImpl.java:125-131 | Marking the victim aborted and giving it a permit keeps the tables consistent. |
| Locking.PermitPreserves | Project1/TransactionManagerImpl.java:186-198 | Setting a record's permit count, to any value, keeps the tables consistent. |
| Locking.WakePreserves | Project1/TransactionManagerImpl.java:186-198 | Ending a wait, with any permit count left, keeps the tables consistent. |
| Locking.HandoffWindowHangs | Project1/TransactionManagerImpl.java:111-123 | A consistent state the source reaches: T11 was handed resource 1 and is still queued for it, and T12 queues for it too. From there the walk of T12 stops within no bound. |
| Locking.AbortedCycleHangs | Project1/TransactionManagerImpl.java:111-131 | A consistent state the source reaches: T1 and T2 wait for each other, and T2 has just aborted itself and holds a permit, but is still queued. T3 queues for resource 1 too. From there T3's walk stops within no bound, either as written or when it also stops at handoffs. |
| Locking.WritePreserves | Project1/TransactionManagerImpl.java:201 | Writing the value of a known resource keeps the tables consistent. |
| Locking.AppendPreserves | Project1/TransactionManagerImpl.java:207-213 | Appending an entry for a known resource to a history keeps the tables consistent. |
| Locking.UndoPreserves | Project1/TransactionManagerImpl.java:296-303 | A history entry names a resource that has a value, and undoing it keeps the tables consistent. |
| Locking.ReleasePreserves | Project1/TransactionManagerImpl.java:220-253 | The tables are consistent again once every held lock was let go as `ReleasedLocks` and `HandedOff` describe and the caller's record was removed. |
| Locking.ReleaseAll | Project1/TransactionManagerImpl.java:227-251 | The release loop lets go of each held lock. A lock with waiters goes to one arbitrary waiter, which gets it in its held list and one permit. A lock without waiters is freed. No other lock or record changes, and the result is consistent. |
| Permits.EmptyPermits | Project1/TransactionManagerImpl.java:19-30 | A new manager, holding no records, meets the permit invariant. |
| Permits.RegisterKeepsPermits | Project1/TransactionManagerImpl.java:40-43 | Registering a new record, which has no permit, keeps the permit invariant. |
| Permits.InterruptKeepsPermits | Project1/TransactionManagerImpl.java:186-195 | Interrupting any thread keeps the permit invariant. |
| Permits.IdleHasNoPermit | Project1/TransactionManagerImpl.java:166-181 | Under the permit invariant a transaction that waits on nothing has no permit. |
| Permits.AcquireKeepsPermits | Project1/TransactionManagerImpl.java:173-176 | Taking a free lock while waiting on nothing keeps the permit invariant. |
| Permits.EnqueueKeepsPermits | Project1/TransactionManagerImpl.java:177-180 | Queuing for a lock keeps the permit invariant. |
| Permits.AbortKeepsPermits | Project1/TransactionManagerImpl.java:125-131 | Interrupting a waiting victim, marking it aborted and giving it one permit keeps the permit invariant. |
| Permits.DrainKeepsPermits | Project1/TransactionManagerImpl.java:188-195 | Dropping a transaction's permits while clearing its interrupt mark keeps the permit invariant. |
| Permits.LeaveQueueKeepsPermits | Project1/TransactionManagerImpl.java:196-198 | Leaving a queue without a permit keeps the permit invariant. |
| Permits.StalePermitBreaks | Project1/TransactionManagerImpl.java:186-198 | Leaving a queue with a permit and no interrupt mark breaks the permit invariant. |
| Permits.WaitEndPermits | Project1/TransactionManagerImpl.java:186-198 | A wait that takes a permit without an interrupt ends with the lock on `rid`, keeping the invariant. An interrupted wait that drops its permits keeps it. An interrupted wait that keeps a permit breaks it. |
| Permits.ExecuteKeepsPermits | Project1/TransactionManagerImpl.java:201-213 | Consuming the caller's interrupt, or appending to its history, keeps the permit invariant. |
| Permits.ReleaseKeepsPermitsOf | Project1/TransactionManagerImpl.java:227-252 | After a release, a transaction with a permit waits, and it has an interrupt mark or is the new owner of the lock it waits on, with one permit. |
| Permits.ReleaseKeepsPermits | Project1/TransactionManagerImpl.java:220-253 | Releasing the caller's locks and handing each to one waiter with one permit keeps the permit invariant. |
| Permits.StalePermitReachable | Project1/TransactionManagerImpl.java:186-198 | A run of consistent states: T11 is handed resource 1 and interrupted, its failed wait keeps the permit, and it then queues for resource 2, which T12 owns. It holds a permit there, is not interrupted and not aborted, so its `acquire` returns at once. |
| History.ExecuteOne | Project1/TransactionManagerImpl.java:201 | `execute` either fails and leaves no new state, or changes only the value of `rid`. |
| History.UndoAllKeys | Project1/TransactionManagerImpl.java:292-304 | Undoing a history touches no resource beyond the existing ones. |
| History.UndoNewestFirst | Project1/TransactionManagerImpl.java:284-304 | The undo runs in strict reverse order: the newest entry is undone first. |
| History.RollbackRestores | Project1/TransactionManagerImpl.java:271-307 | If every operation's undo inverts its execute, undoing a successfully executed history restores the starting values. |
| Deadlock.YoungerIsStrictTotalOrder | Project1/TransactionManagerImpl.java:47-60 | "Younger" (later start, ties broken by the larger thread id) is irreflexive, asymmetric and transitive, and it is total on distinct threads. |
| Deadlock.AcyclicChainExits | Project1/TransactionManagerImpl.java:111-123 | If waiting transactions other than the caller can be ranked so that every step of the walk lowers the rank, the walk stops. |
| Deadlock.SelfWaitNeverExits | Project1/TransactionManagerImpl.java:111-123 | A transaction other than the caller that owns the resource it waits on makes the walk loop forever. A handoff (lines 240-247) leaves exactly this state until the woken waiter cleans up. |
| Deadlock.ChainExitsAtHandoffSooner | Project1/TransactionManagerImpl.java:111-123 | The corrected walk, which also stops at a transaction owning the resource it waits on, stops wherever the walk as written stops, within the same bound. |
| Deadlock.ChainExitsAtHandoffMonotonic | Project1/TransactionManagerImpl.java:111-123 | A longer bound is as good as a shorter one for the corrected walk. |
| Deadlock.AcyclicButHandoffsChainExits | Project1/TransactionManagerImpl.java:111-123 | If the waits can be ranked apart from handed-over locks, the corrected walk stops within the rank plus one. At a handed-over lock it stops at once, the state in which the walk as written never stops. |
| Deadlock.HandoffIsNoDeadlock | Project1/TransactionManagerImpl.java:111-123 | At a handed-over lock the corrected walk reports no deadlock. |
| Deadlock.WalkAtHandoffAgrees | Project1/TransactionManagerImpl.java:111-125 | Wherever the walk as written stops, the corrected walk stops too and gives the same verdict and victim. |
| Deadlock.TwoCycleNeverExits | Project1/TransactionManagerImpl.java:111-123 | Two transactions other than the caller that wait for each other make the walk loop forever, and also the walk that stops at handoffs. |
| Deadlock.ChainIsWaitPath | Project1/TransactionManagerImpl.java:111-123 | The transactions the walk visits form a path of wait edges that never contains the caller, and the walk ends where the loop condition fails. |
| Deadlock.WalkPicksYoungest | Project1/TransactionManagerImpl.java:111-125 | The walk reports a deadlock exactly when it ends at the caller. Its victim is the youngest among the first candidate and the visited chain. |
| Deadlock.AsWrittenVictimWaits | Project1/TransactionManagerImpl.java:111-131 | The victim the code as written picks is the caller or a transaction that waits, so the abort's permit goes to a waiting thread. |
| Deadlock.HandedLockLooksLikeDeadlock | Project1/TransactionManagerImpl.java:104-131 | When the caller already owns `rid`, the code as written reports a deadlock with the caller as victim. The corrected detection reports none. |
| Deadlock.DetectReportsCycles | Project1/TransactionManagerImpl.java:101-134 | A reported deadlock is a real cycle: a non-empty wait path from the owner of `rid` back to the caller, and the victim is the youngest on it. Otherwise the walk ended at a transaction that waits on nothing. |
| Partition.IndicesMatchStart | Project3/multiThreadedPageRankComputer.hpp:113-134 | The first and last index of a used thread agree with the reference start positions, without `size_t` wrap-around, and every range lies inside `[0, n)`. |
| Partition.FirstThreadStartsAtZero | Project3/multiThreadedPageRankComputer.hpp:103-116 | For a non-empty network at least one thread is used, and thread 0 starts at index 0. |
| Partition.RangesAreContiguous | Project3/multiThreadedPageRankComputer.hpp:113-134 | Each used thread after the first starts right after the previous one's last index. |
| Partition.LastThreadEndsAtEnd | Project3/multiThreadedPageRankComputer.hpp:103-134 | The last used thread ends at index `n - 1`. |
| Partition.RangeLengths | Project3/multiThreadedPageRankComputer.hpp:105-134 | Thread `t` covers `n / numThreads + 1` indices if `t < n % numThreads` and `n / numThreads` otherwise, and never fewer than one. |
| Partition.RangeLengthsBalanced | Project3/multiThreadedPageRankComputer.hpp:105-134 | No two used ranges differ in length by more than one. |
| Partition.VisitedCoversAll | Project3/multiThreadedPageRankComputer.hpp:113-134 | The ranges of the first `t` threads, in thread order, are exactly the indices below the start of thread `t`. |
| Partition.AllIndicesVisitedOnce | Project3/multiThreadedPageRankComputer.hpp:100-134 | The ranges of all used threads, concatenated, are exactly `0, 1, ..., n - 1`, each once. |
| Partition.OwningThread | Project3/multiThreadedPageRankComputer.hpp:113-134 | Every index below `n` is in the range of exactly one used thread. |
| Partition.AsWrittenPartitionsBelow32Bits | Project3/multiThreadedPageRankComputer.hpp:100-134 | Below 2^32 nodes the constructor as written, with its `uint32_t` cast, is the intended one and partitions `[0, n)`. From 2^32 nodes on, whenever the truncated count is below the thread count, it uses fewer threads than intended. |
| Partition.TruncatedCountUsesNoThread | Project3/multiThreadedPageRankComputer.hpp:103 | With 2^32 nodes and 4 threads, the constructor as written uses no thread and visits nothing. The intended constructor uses 4 threads. |
| PageRankPrep.InitialRanks | Project3/singleThreadedPageRankComputer.hpp:20-24 | The rank table's keys are exactly the pages' ids, and every entry holds the initial rank. |
| PageRankPrep.IdSetMembers | Project3/singleThreadedPageRankComputer.hpp:20-24 | An id is a key exactly when some page has it. |
| PageRankPrep.IdSetSize | Project3/singleThreadedPageRankComputer.hpp:20-24 | There are never more keys than pages, and there are exactly as many exactly when page ids are distinct. |
| PageRankPrep.ResultSizeMatchesIffDistinct | Project3/singleThreadedPageRankComputer.hpp:74-81 | The result, one entry per key, has the network's size exactly when page ids are distinct, which is when the size assertion holds. |
| PageRankPrep.CountLinks | Project3/singleThreadedPageRankComputer.hpp:26-29 | The loop builds `NumLinks(pages)`. |
| PageRankPrep.NumLinksKeys | Project3/singleThreadedPageRankComputer.hpp:26-29 | `numLinks` has an entry for exactly the pages' ids. |
| PageRankPrep.NumLinksOfPage | Project3/singleThreadedPageRankComputer.hpp:26-29 | With distinct ids, each page's entry is its number of links modulo 2^32, the `uint32_t` store. |
| PageRankPrep.CollectDangling | Project3/singleThreadedPageRankComputer.hpp:31-36 | The loop builds `Dangling(pages)`. |
| PageRankPrep.DanglingMembers | Project3/singleThreadedPageRankComputer.hpp:31-36 | An id is listed exactly when some page with it has no links. |
| PageRankPrep.DanglingOfConcat | Project3/singleThreadedPageRankComputer.hpp:31-36 | The list keeps page order: the list for `a + b` is `a`'s list followed by `b`'s. |
| PageRankPrep.BuildEdges | Project3/singleThreadedPageRankComputer.hpp:39-44 | The nested loops build `EdgesOf(pages)`. |
| PageRankPrep.AddLinksEntry | Project3/singleThreadedPageRankComputer.hpp:40-43 | One page's links append its id to the entry of `x` once per occurrence of `x`, creating the entry if it is missing. |
| PageRankPrep.EdgesAreReferrers | Project3/singleThreadedPageRankComputer.hpp:39-44 | `edges[x]` equals the independently defined referrer list of `x`: each page's id once per link to `x`, in page order. `x` has an entry exactly when that list is non-empty. |
| PageRankPrep.ReferrersMembers | Project3/singleThreadedPageRankComputer.hpp:39-44 | Some page refers to `x` exactly when some page's links contain `x`. So a page nobody links to has no `edges` entry, and the update at lines 63-68 skips its sum. |
| Cacti.BusyCountUpdate | Project2/cacti.c:142-150 | Replacing one actor changes the number of live actors by that actor's contribution alone. |
| Cacti.NoneBusy | Project2/cacti.c:215-217 | When no actor is live, every actor is dead and free, and its queue is empty. |
| Cacti.Dispatch | Project2/cacti.c:99-110 | SPAWN goes to spawning with the role in the message, GODIE (when it is not also SPAWN) to dying, and every other type to the prompt of that index in the actor's role. |
| Cacti.ActorSystem.constructor | Project2/cacti.c:26-32 | A fresh system has no actors, zero counters and no tasks. |
| Cacti.ActorSystem.CreateNewActor | Project2/cacti.c:38-68 | The new actor gets the next id, is alive and free, has a NULL state and an empty queue, and is pushed at the end. The total grows by one, and the process fails fatally when it passes CAST_LIMIT; otherwise the live count grows by one too. |
| Cacti.ActorSystem.SendMessage | Project2/cacti.c:235-276 | Returns -2 for an id outside the array, then -1 for a dead actor, then -3 for a full queue. A rejected send leaves every queue and task unchanged. Otherwise exactly one message is appended to that actor's queue, one task is scheduled, and 0 is returned. |
| Cacti.ActorSystem.TaskBegin | Project2/cacti.c:112-134 | A task whose actor is busy waits and changes nothing. Otherwise it takes the actor and dequeues exactly the oldest message, consuming its own task. |
| Cacti.ActorSystem.ProcessGoDie | Project2/cacti.c:85-97 | Only the calling actor is marked dead; nothing else changes. |
| Cacti.ActorSystem.ProcessSpawn | Project2/cacti.c:70-83 | A new actor of the given role is created and greeted with HELLO carrying the spawner's id. This fails fatally exactly when the cast limit is passed or no queue can hold a message. |
| Cacti.ActorSystem.ProcessMessage | Project2/cacti.c:70-110 | The action taken is the one `Dispatch` chooses. Spawning fails fatally exactly when the cast limit is passed or no queue can hold a message; otherwise it appends the new actor, greeted with HELLO, and schedules one task for it. Dying changes only the caller's `alive` flag and no task. A prompt changes nothing in the system. |
| Cacti.ActorSystem.TaskEnd | Project2/cacti.c:138-161 | The live count drops by one exactly when the actor is dead with an empty queue, and the actor is free again. |
| Cacti.ActorSystem.SystemCreate | Project2/cacti.c:163-191 | Returns -1 when CAST_LIMIT is below 1. Otherwise actor 0 exists and is sent HELLO with NULL data, and it is the only live actor. |
| Cacti.ActorSystem.Join | Project2/cacti.c:206-233 | An id at or above the total returns at once. The join waits while an actor is live. Once it finishes, no message is queued and no task is pending; the actors are freed and the total is reset. |
| Silnia.Initial | Project2/silnia.c:98-110 | The chain starts with `k = 0`, `k_factorial = 1` and the input `n`, which satisfies the invariant. |
| Silnia.StepPreserves | Project2/silnia.c:181-182 | A step taken while `k < n` keeps `k_factorial = k! mod 2^64`, increments `k` by one and keeps `n`. |
| Silnia.StepsFromInitial | Project2/silnia.c:163-192 | After `j <= n` steps from the initial triple, `k = j` and the product is `j! mod 2^64`. |
| Silnia.PrintsFactorial | Project2/silnia.c:173-175 | After `n` steps the chain stops (`k == n`), and the printed value is `n! mod 2^64`. |
| Silnia.Program.constructor | Project2/silnia.c:236-248 | The state array starts empty and `n` is the parsed input. |
| Silnia.Program.FirstProcessHello | Project2/silnia.c:98-121 | A new slot with no father and the initial triple is pushed, its index becomes the state, and the actor spawns a son. |
| Silnia.Program.ProcessHello | Project2/silnia.c:123-142 | A new slot recording the father is pushed, with no triple yet, and the father is answered with this actor's id. |
| Silnia.Program.ProcessHelloAnswer | Project2/silnia.c:144-161 | The son is recorded in this actor's slot only, and it is sent a copy of this actor's triple, which is accurate and about the input `n`. |
| Silnia.Program.ProcessFactorial | Project2/silnia.c:163-195 | When `k == n`, the product `n! mod 2^64` is printed and the chain is told to die, with no slot changed. Otherwise the stepped triple is stored in this actor's slot only, with `n` carried over, and a son is spawned. |
| Silnia.Program.ProcessRecursiveGoDie | Project2/silnia.c:197-218 | The order to die is passed to the father if there is one, and then the actor sends itself GODIE. |

## Left out

- Threads, `synchronized`, `Semaphore` and `Thread.interrupt` are not modelled as such. Each synchronized block is one atomic step with an explicit caller, the semaphore is a permit count, and the interrupt status is a set of threads.
- `TransactionInfo` is a value record in the registry map, not a heap object; the manager replaces a record instead of mutating it in place.
- Which waiter a release picks from the `HashSet` iterator is a nondeterministic choice (`:|`).
- The resources, the `ResourceOperation` implementations and `LocalTimeProvider` are external. A resource is its integer value, an operation is a pair of functions (an `execute` that may fail and a total `undo`), and the time is a parameter.
- `TxManager.TransactionManager.FindDeadlock`: terminates only under the explicit `ChainExits` bound, because the source loop does not terminate in every reachable state. Two such states are known. One is the window after a handoff, where the new owner still waits on the lock it was given (`Locking.HandoffWindowHangs`, `Deadlock.SelfWaitNeverExits`). The other is the window after an abort, where the victim's cycle stays in the tables until the victim leaves its queue (`Locking.AbortedCycleHangs`, `Deadlock.TwoCycleNeverExits`). No corrected walk is given for the second. Ending it would mean stopping at a transaction whose abort flag is set, and the model's wait graph does not carry that flag.
- `TxManager.TransactionManager.ExecuteOperation`: does not require the caller to own `rid`. In the code as written an interrupted waiter keeps the permit it was handed, and a later wait for a lock another transaction owns returns at once (`Permits.StalePermitReachable`, see Findings). Ownership at `execute` is proved only under the permit invariant, which `AwaitWakeDrained` keeps.
- The granularity of `operateOnResourceInCurrentTransaction`: the four synchronized blocks of `BeginOperate` run as one step, and so do the `acquire`, `catch` and `finally` of `AwaitWake` and the `execute`, interrupt test and append of `ExecuteOperation`. Interleavings inside these steps are not modelled. Examples are a second abort between the throw and the `catch`, and an `execute` racing with another thread, since `execute` runs outside the lock.
- `TxManager.TransactionManager.AwaitWake`: removes the wait edge itself, with the same table update as `RemoveFromWaiting`, instead of calling it.
- The PageRank iteration, the convergence test, floating-point ranks and `std::thread` code are left out. So is the id generator (`sha256IdGenerator.hpp`, `generateId`). The initial rank is a parameter.
- The thread pool (`threadpool.c`), condition variables, `free_actors`, and the `queue.h`/`dynarray.h` internals are left out. Queues are sequences with FIFO enqueue and dequeue.
- `cacti.h` is not part of this model. CAST_LIMIT, ACTOR_QUEUE_LIMIT and the SPAWN, GODIE and HELLO message types are the class's constants, and a message carries only its type and one data word (no `nbytes`).
- `Cacti.ActorSystem.ProcessSpawn`: runs the creation and the greeting as one step. In the source another thread could fill the new actor's queue between them.
- `Cacti.ActorSystem.SystemCreate`: requires an empty actor array (a system that is not already running).
- A prompt's own effect on an actor's state is external. The silnia handlers are modelled separately, returning the sends and prints they would perform.
- `Silnia.Program.ProcessHelloAnswer`: requires the actor's triple to be set. The source reads the field regardless, and for an unset one that is undefined.
- `Silnia.Program.ProcessFactorial`: requires the received triple to be accurate and about the input `n`. `ProcessHelloAnswer` and `FirstProcessHello` guarantee this of every triple they send or store.
- `parse_unsigned_long`, `fgets`, `printf`, message construction with `malloc`/`memcpy`, and `err.c` are left out.

## Findings

| source | as written | input that shows it | evidently intended | confidence | as-written member | corrected member |
|---|---|---|---|---|---|---|
| Project1/TransactionManagerImpl.java:104-131 | `removeDeadlock` starts the walk at the owner of `rid` without checking whether that owner is already the caller, and it treats reaching the caller as a cycle | T1 queues for `rid` held by T0; T0 commits and hands `rid` to T1 before T1 runs `removeDeadlock`; the walk stops at once at T1, which aborts itself | a lock already handed to the caller is no deadlock | medium, not executed | Deadlock.HandedLockLooksLikeDeadlock | Deadlock.DetectReportsCycles |
| Project1/TransactionManagerImpl.java:186-198 | when `acquire` is interrupted, the `catch` clears the interrupt but never takes back a permit already handed over, so the permit outlives the wait | T10 commits and hands resource 1 to its waiter T11 with one permit; T11 is then interrupted, its `acquire` throws, and it leaves the queue with the permit; T12 takes resource 2 and T11 queues for it; T11's `acquire` returns at once and it operates on resource 2, which T12 holds | a failed wait drops its permits, so that a wait ends with a permit only when the lock was handed over | medium, not executed | Permits.StalePermitReachable | TxManager.TransactionManager.AwaitWakeDrained |
| Project1/TransactionManagerImpl.java:111-123 | the walk stops only at the caller or at a transaction that waits on nothing; a waiter that was just handed the lock it queued for still waits on it and owns it | T10 commits and hands resource 1 to its waiter T11, before T11 leaves the queue; T12 queues for resource 1 and runs `removeDeadlock`; the walk goes from T11 to T11 forever while holding the global lock | stop the walk at a transaction that owns the resource it waits on, which is no deadlock; this stop alone does not end the walk in the window after an abort (`Locking.AbortedCycleHangs`) | medium, not executed | Locking.HandoffWindowHangs | Deadlock.AcyclicButHandoffsChainExits |
| Project3/multiThreadedPageRankComputer.hpp:103 | the node count is cast to `uint32_t` before `std::min`, so a count of 2^32 or more is truncated | 2^32 nodes with 4 threads give 0 threads used, so no index is processed | `min(numberOfNodes, numThreads)` without truncation | low, not executed | Partition.TruncatedCountUsesNoThread | Partition.AllIndicesVisitedOnce |
