/**
 * `TransactionManagerImpl`: strict two-phase locking over a fixed set of
 * resources. Every synchronized block runs under one global lock, so each
 * method here is one atomic step of the calling thread, named explicitly
 * by `caller`. `operateOnResourceInCurrentTransaction` is four steps:
 * `BeginOperate` (the three checks and the lock acquisition, four
 * synchronized blocks in the source), `RemoveDeadlock`, `AwaitWake` (the
 * semaphore wait, its `catch` and its `finally`) and `ExecuteOperation`
 * (the unsynchronized `execute`, the interrupt test and the synchronized
 * history append).
 */
module TxManager {
  import opened Wrappers
  import opened Base
  import opened History
  import opened Deadlock
  import opened Locking
  import opened Permits

  /** The exceptions the public surface throws. */
  datatype TxError =
    | AnotherTransactionActive
    | NoActiveTransaction
    | UnknownResourceId
    | ActiveTransactionAborted
    | ResourceOperationFailed
    | Interrupted

  datatype Status = Done | Failed(error: TxError)

  /** How the lock acquisition part of `operate` ends. */
  datatype Acquisition = Acquired | MustWait | Rejected(error: TxError)

  /** How `delay.acquire()` with its `catch`/`finally` ends; `StillBlocked`: no permit and no interrupt yet. */
  datatype Wake = StillBlocked | Woken | WaitFailed(error: TxError)

  class TransactionManager {
    /** The keys of `resources`; fixed at construction. */
    const resourceIds: set<ResourceId>
    /** The resources' state. */
    var values: Values
    /** `transactions`: the registry, keyed by thread. */
    var transactions: Registry
    /** `whatThreadHasLockOnResource`. */
    var owner: map<ResourceId, ThreadId>
    /** `whatThreadsWaitForResources`. */
    var waiters: Waiters
    /** The interrupt status of the threads (`Thread.interrupt()` sets it). */
    var interrupted: set<ThreadId>

    ghost predicate Valid()
      reads this
    {
      Consistent(resourceIds, values, transactions, owner, waiters)
    }

    /** The permit invariant of the `delay` semaphores (module `Permits`). */
    ghost predicate PermitsSound()
      reads this
    {
      PermitsMatchLocks(transactions, owner, interrupted)
    }

    /** What the deadlock walk reads. */
    ghost function Graph(): (g: WaitGraph)
      requires Valid()
      reads this
      ensures WellFormed(g)
    {
      ConsistentGraphWellFormed(resourceIds, values, transactions, owner, waiters);
      GraphOf(transactions, owner)
    }

    constructor (resources: Values)
      ensures Valid()
      ensures resourceIds == resources.Keys && values == resources
      ensures transactions == map[] && owner == map[] && waiters == map[] && interrupted == {}
      ensures PermitsSound()
    {
      resourceIds := resources.Keys;
      values := resources;
      transactions := map[];
      owner := map[];
      waiters := map[];
      interrupted := {};
      new;
      EmptyConsistent(resources);
      EmptyPermits();
    }

    /** `isTransactionActive`: the thread has a registered transaction. */
    predicate IsTransactionActive(caller: ThreadId): (active: bool)
      reads this
      ensures active <==> caller in transactions
    {
      caller in transactions
    }

    /** `isTransactionAborted`: the abort flag of the thread's transaction; like the source it needs one. */
    predicate IsTransactionAborted(caller: ThreadId): (aborted: bool)
      requires caller in transactions
      reads this
      ensures aborted <==> transactions[caller].aborted
    {
      transactions[caller].aborted
    }

    /**
     * `startTransaction`: refused if the thread already has a transaction;
     * otherwise registers a fresh record stamped with the clock's value.
     */
    method StartTransaction(caller: ThreadId, time: Time) returns (s: Status)
      requires Valid()
      modifies this`transactions
      ensures Valid()
      ensures old(caller in transactions) ==>
        s == Failed(AnotherTransactionActive) && transactions == old(transactions)
      ensures old(caller !in transactions) ==>
        s == Done && transactions == old(transactions)[caller := NewTransactionInfo(time)]
      ensures old(PermitsSound()) ==> PermitsSound()
    {
      if IsTransactionActive(caller) {
        return Failed(AnotherTransactionActive);
      }
      if PermitsSound() {
        RegisterKeepsPermits(transactions, owner, interrupted, caller, time);
      }
      RegisterPreserves(resourceIds, values, transactions, owner, waiters, caller, NewTransactionInfo(time));
      transactions := transactions[caller := NewTransactionInfo(time)];
      s := Done;
    }

    /** `addToWaiting`: records the wait edge in the record and in the wait table. */
    method AddToWaiting(caller: ThreadId, rid: ResourceId)
      requires Valid()
      requires caller in transactions && transactions[caller].waitsOn == None
      requires rid in owner
      modifies this`transactions, this`waiters
      ensures Valid()
      ensures transactions == old(transactions)[caller := old(transactions)[caller].(waitsOn := Some(rid))]
      ensures waiters == AddWaiter(old(waiters), rid, caller)
    {
      EnqueuePreserves(resourceIds, values, transactions, owner, waiters, caller, rid);
      transactions := transactions[caller := transactions[caller].(waitsOn := Some(rid))];
      waiters := AddWaiter(waiters, rid, caller);
    }

    /** `removeFromWaiting`: removes the wait edge from the record and from the wait table. */
    method RemoveFromWaiting(caller: ThreadId, rid: ResourceId)
      requires Valid()
      requires caller in transactions && transactions[caller].waitsOn == Some(rid)
      modifies this`transactions, this`waiters
      ensures Valid()
      ensures transactions == old(transactions)[caller := old(transactions)[caller].(waitsOn := None)]
      ensures waiters == RemoveWaiter(old(waiters), rid, caller)
    {
      DequeuePreserves(resourceIds, values, transactions, owner, waiters, caller, rid);
      transactions := transactions[caller := transactions[caller].(waitsOn := None)];
      waiters := RemoveWaiter(waiters, rid, caller);
    }

    /**
     * The first part of `operate`: the three checks, in the source's order,
     * then the three-way lock acquisition. A rejection changes nothing.
     */
    method BeginOperate(caller: ThreadId, rid: ResourceId) returns (a: Acquisition)
      requires Valid()
      requires caller in transactions ==> transactions[caller].waitsOn == None
      modifies this`transactions, this`owner, this`waiters
      ensures Valid()
      ensures caller !in old(transactions) ==> a == Rejected(NoActiveTransaction)
      ensures caller in old(transactions) && old(transactions[caller].aborted) ==>
        a == Rejected(ActiveTransactionAborted)
      ensures caller in old(transactions) && !old(transactions[caller].aborted) && rid !in resourceIds ==>
        a == Rejected(UnknownResourceId)
      ensures !a.Rejected? <==> caller in old(transactions) && !old(transactions[caller].aborted) && rid in resourceIds
      ensures a == Acquired <==> !a.Rejected? && (rid !in old(owner) || old(owner)[rid] == caller)
      ensures a.Rejected? || (a == Acquired && rid in old(owner)) ==>
        owner == old(owner) && waiters == old(waiters) && transactions == old(transactions)
      ensures a == Acquired && rid !in old(owner) ==>
        && owner == old(owner)[rid := caller] && waiters == old(waiters)
        && transactions == old(transactions)[caller := old(transactions[caller]).(held := old(transactions[caller].held) + [rid])]
      ensures a == MustWait ==>
        && owner == old(owner) && waiters == AddWaiter(old(waiters), rid, caller)
        && transactions == old(transactions)[caller := old(transactions[caller]).(waitsOn := Some(rid))]
      ensures old(PermitsSound()) ==> PermitsSound()
    {
      if !IsTransactionActive(caller) {
        return Rejected(NoActiveTransaction);
      }
      if IsTransactionAborted(caller) {
        return Rejected(ActiveTransactionAborted);
      }
      if rid !in resourceIds {
        return Rejected(UnknownResourceId);
      }
      if rid in owner && owner[rid] == caller {
        a := Acquired;
      } else if rid !in owner {
        AcquirePreserves(resourceIds, values, transactions, owner, waiters, caller, rid);
        if PermitsSound() {
          AcquireKeepsPermits(transactions, owner, interrupted, caller, rid);
        }
        owner := owner[rid := caller];
        transactions := transactions[caller := transactions[caller].(held := transactions[caller].held + [rid])];
        a := Acquired;
      } else {
        if PermitsSound() {
          EnqueueKeepsPermits(transactions, owner, interrupted, caller, rid);
        }
        AddToWaiting(caller, rid);
        a := MustWait;
      }
    }

    /**
     * The walk of `removeDeadlock` (owner -> waits-on -> owner, from the
     * owner of `rid`, whoever that is); it reads the tables and changes
     * nothing. The walk stops only if the chain does not revisit a
     * transaction other than the caller; `bound` is that assumption made
     * explicit.
     */
    method FindDeadlock(caller: ThreadId, rid: ResourceId, ghost bound: nat) returns (deadlock: bool, youngest: ThreadId)
      requires Valid()
      requires caller in transactions
      requires rid in owner ==> ChainExits(Graph(), caller, owner[rid], bound)
      ensures Detection(deadlock, youngest) == DetectAsWritten(Graph(), caller, rid, bound)
      ensures youngest in transactions
    {
      ghost var g := Graph();
      youngest := caller;
      deadlock := false;
      if rid in owner {
        var current := owner[rid];
        var waitsOn := transactions[current].waitsOn;
        ghost var fuel := bound;
        while current != caller && waitsOn.Some?
          invariant current in transactions && waitsOn == transactions[current].waitsOn
          invariant youngest in transactions
          invariant ChainExits(g, caller, current, fuel)
          invariant Walk(g, caller, current, youngest, fuel) == DetectAsWritten(g, caller, rid, bound)
          decreases fuel
        {
          if Younger(transactions[current].startTime, current, transactions[youngest].startTime, youngest) {
            youngest := current;
          }
          current := owner[waitsOn.value];
          waitsOn := transactions[current].waitsOn;
          fuel := fuel - 1;
        }
        deadlock := current == caller;
      }
    }

    /**
     * `removeDeadlock`, run after the caller has queued for `rid`: when the
     * walk ends at the caller it aborts the youngest transaction seen
     * (interrupt, abort flag, one permit); otherwise it changes nothing. A
     * lock handed to the caller in between makes the caller its own victim.
     */
    method RemoveDeadlock(caller: ThreadId, rid: ResourceId, ghost bound: nat)
      requires Valid()
      requires caller in transactions && transactions[caller].waitsOn == Some(rid)
      requires rid in owner ==> ChainExits(Graph(), caller, owner[rid], bound)
      modifies this`transactions, this`interrupted
      ensures Valid()
      ensures var d := DetectAsWritten(old(Graph()), caller, rid, bound);
        && (d.deadlock ==>
              && d.victim in old(transactions)
              && interrupted == old(interrupted) + {d.victim}
              && transactions == AbortVictim(old(transactions), d.victim))
        && (!d.deadlock ==> interrupted == old(interrupted) && transactions == old(transactions))
      ensures rid in old(owner) && old(owner)[rid] == caller ==>
        interrupted == old(interrupted) + {caller} && transactions == AbortVictim(old(transactions), caller)
      ensures old(PermitsSound()) ==> PermitsSound()
    {
      ghost var g := Graph();
      if rid in owner && owner[rid] == caller {
        HandedLockLooksLikeDeadlock(g, caller, rid, bound);
      }
      var deadlock, youngest := FindDeadlock(caller, rid, bound);
      if deadlock {
        AsWrittenVictimWaits(g, caller, rid, bound);
        if PermitsSound() {
          AbortKeepsPermits(transactions, owner, interrupted, youngest);
        }
        AbortPreserves(resourceIds, values, transactions, owner, waiters, youngest);
        transactions := AbortVictim(transactions, youngest);
        interrupted := interrupted + {youngest};
      }
    }

    /**
     * `delay.acquire()` with its `catch` and `finally`: an interrupted thread
     * fails with `ActiveTransactionAborted` if its abort flag is set and with
     * `Interrupted` otherwise, and keeps whatever permits it had, as
     * `Semaphore.acquire` does when it throws; a permit lets it proceed.
     * Either way `removeFromWaiting` follows. With neither, the thread stays
     * blocked. A kept permit breaks the permit invariant, and nothing else
     * here does; while the invariant holds, a thread that proceeds owns `rid`.
     */
    method AwaitWake(caller: ThreadId, rid: ResourceId) returns (w: Wake)
      requires Valid()
      requires caller in transactions && transactions[caller].waitsOn == Some(rid)
      modifies this`transactions, this`waiters, this`interrupted
      ensures Valid()
      ensures var info := old(transactions[caller]);
        caller in old(interrupted) ==>
          && w == WaitFailed(if info.aborted then ActiveTransactionAborted else Interrupted)
          && interrupted == old(interrupted) - {caller}
          && waiters == RemoveWaiter(old(waiters), rid, caller)
          && transactions == old(transactions)[caller := info.(waitsOn := None)]
      ensures var info := old(transactions[caller]);
        caller !in old(interrupted) && info.permits > 0 ==>
          && w == Woken && interrupted == old(interrupted)
          && waiters == RemoveWaiter(old(waiters), rid, caller)
          && transactions == old(transactions)[caller := info.(waitsOn := None, permits := info.permits - 1)]
      ensures var info := old(transactions[caller]);
        caller !in old(interrupted) && info.permits == 0 ==>
          && w == StillBlocked && interrupted == old(interrupted)
          && waiters == old(waiters) && transactions == old(transactions)
      ensures old(PermitsSound()) && w == Woken ==> rid in owner && owner[rid] == caller
      ensures w.WaitFailed? && old(transactions[caller].permits) > 0 ==> !PermitsSound()
      ensures old(PermitsSound()) && !(w.WaitFailed? && old(transactions[caller].permits) > 0) ==> PermitsSound()
    {
      var info := transactions[caller];
      WaitEndPermits(transactions, owner, interrupted, caller, rid);
      var permits := info.permits;
      if caller in interrupted {
        // `acquire` throws and clears the mark, keeping the permits
        interrupted := interrupted - {caller};
        w := WaitFailed(if info.aborted then ActiveTransactionAborted else Interrupted);
      } else if permits > 0 {
        // `acquire` takes a permit
        permits := permits - 1;
        w := Woken;
      } else {
        return StillBlocked;
      }
      // the `finally` block: `removeFromWaiting(rid)`
      WakePreserves(resourceIds, values, transactions, owner, waiters, caller, rid, permits);
      transactions := transactions[caller := info.(waitsOn := None, permits := permits)];
      waiters := RemoveWaiter(waiters, rid, caller);
    }

    /**
     * The wait as evidently intended: like `AwaitWake`, except that an
     * interrupted thread also drops its permits (`delay.drainPermits()` in
     * the `catch`). This keeps the permit invariant in every case, so a
     * thread that proceeds always owns `rid`.
     */
    method AwaitWakeDrained(caller: ThreadId, rid: ResourceId) returns (w: Wake)
      requires Valid()
      requires caller in transactions && transactions[caller].waitsOn == Some(rid)
      modifies this`transactions, this`waiters, this`interrupted
      ensures Valid()
      ensures var info := old(transactions[caller]);
        caller in old(interrupted) ==>
          && w == WaitFailed(if info.aborted then ActiveTransactionAborted else Interrupted)
          && interrupted == old(interrupted) - {caller}
          && waiters == RemoveWaiter(old(waiters), rid, caller)
          && transactions == old(transactions)[caller := info.(waitsOn := None, permits := 0)]
      ensures var info := old(transactions[caller]);
        caller !in old(interrupted) && info.permits > 0 ==>
          && w == Woken && interrupted == old(interrupted)
          && waiters == RemoveWaiter(old(waiters), rid, caller)
          && transactions == old(transactions)[caller := info.(waitsOn := None, permits := info.permits - 1)]
      ensures var info := old(transactions[caller]);
        caller !in old(interrupted) && info.permits == 0 ==>
          && w == StillBlocked && interrupted == old(interrupted)
          && waiters == old(waiters) && transactions == old(transactions)
      ensures old(PermitsSound()) ==> PermitsSound()
      ensures old(PermitsSound()) && w == Woken ==> rid in owner && owner[rid] == caller
    {
      var info := transactions[caller];
      WaitEndPermits(transactions, owner, interrupted, caller, rid);
      var permits := info.permits;
      if caller in interrupted {
        interrupted := interrupted - {caller};
        permits := 0;
        w := WaitFailed(if info.aborted then ActiveTransactionAborted else Interrupted);
      } else if permits > 0 {
        permits := permits - 1;
        w := Woken;
      } else {
        return StillBlocked;
      }
      WakePreserves(resourceIds, values, transactions, owner, waiters, caller, rid, permits);
      transactions := transactions[caller := info.(waitsOn := None, permits := permits)];
      waiters := RemoveWaiter(waiters, rid, caller);
    }

    /**
     * The end of `operate`: `operation.execute(resource)`; a failure
     * propagates with no history entry and the lock kept; a pending
     * interrupt is consumed and reported after the effect, again without an
     * entry; otherwise `(rid, operation)` is appended to the history.
     */
    method ExecuteOperation(caller: ThreadId, rid: ResourceId, op: ResourceOperation) returns (s: Status)
      requires Valid()
      requires caller in transactions && transactions[caller].waitsOn == None && rid in resourceIds
      modifies this`values, this`transactions, this`interrupted
      ensures Valid()
      ensures var e := op.execute(old(values)[rid]);
        e.None? ==>
          && s == Failed(ResourceOperationFailed) && values == old(values)
          && interrupted == old(interrupted) && transactions == old(transactions)
      ensures var e := op.execute(old(values)[rid]);
        e.Some? ==> values == old(values)[rid := e.value]
      ensures var e := op.execute(old(values)[rid]);
        e.Some? && caller in old(interrupted) ==>
          && s == Failed(Interrupted) && interrupted == old(interrupted) - {caller}
          && transactions == old(transactions)
      ensures var e := op.execute(old(values)[rid]);
        var info := old(transactions[caller]);
        e.Some? && caller !in old(interrupted) ==>
          && s == Done && interrupted == old(interrupted)
          && transactions == old(transactions)[caller := info.(history := info.history + [TransactionHistoryElement(rid, op)])]
      ensures old(PermitsSound()) ==> PermitsSound()
    {
      if PermitsSound() {
        ExecuteKeepsPermits(transactions, owner, interrupted, caller, TransactionHistoryElement(rid, op));
      }
      var r := op.execute(values[rid]);
      if r.None? {
        return Failed(ResourceOperationFailed);
      }
      WritePreserves(resourceIds, values, transactions, owner, waiters, rid, r.value);
      values := values[rid := r.value];
      if caller in interrupted {
        interrupted := interrupted - {caller};
        return Failed(Interrupted);
      }
      var info := transactions[caller];
      var info' := info.(history := info.history + [TransactionHistoryElement(rid, op)]);
      AppendPreserves(resourceIds, values, transactions, owner, waiters, caller, TransactionHistoryElement(rid, op));
      transactions := transactions[caller := info'];
      s := Done;
    }

    /**
     * `finishCurrentTransaction`: releases every held lock, handing each to
     * one of its waiters (which gets it in its held list and one permit),
     * and drops the caller's record. The woken waiter still waits on the
     * resource until its own `removeFromWaiting`.
     */
    method FinishCurrentTransaction(caller: ThreadId)
      requires Valid()
      requires caller in transactions && transactions[caller].waitsOn == None
      modifies this`transactions, this`owner
      ensures Valid()
      ensures ReleasedLocks(old(transactions[caller].held), old(owner), waiters, owner)
      ensures HandedOff(old(transactions[caller].held), old(transactions) - {caller}, transactions, owner)
      ensures old(PermitsSound()) ==> PermitsSound()
    {
      var recs, locks := ReleaseAll(resourceIds, values, transactions, owner, waiters, caller);
      if PermitsSound() {
        ReleaseKeepsPermits(resourceIds, values, transactions, owner, waiters, interrupted, caller, recs, locks);
      }
      transactions, owner := recs, locks;
    }

    /** `commitCurrentTransaction`: needs an active, non-aborted transaction; never undoes. */
    method Commit(caller: ThreadId) returns (s: Status)
      requires Valid()
      requires caller in transactions ==> transactions[caller].waitsOn == None
      modifies this`transactions, this`owner
      ensures Valid()
      ensures caller !in old(transactions) ==> s == Failed(NoActiveTransaction)
      ensures caller in old(transactions) && old(transactions[caller].aborted) ==> s == Failed(ActiveTransactionAborted)
      ensures s == Done <==> caller in old(transactions) && !old(transactions[caller].aborted)
      ensures s.Failed? ==> transactions == old(transactions) && owner == old(owner)
      ensures s == Done ==>
        && ReleasedLocks(old(transactions[caller].held), old(owner), waiters, owner)
        && HandedOff(old(transactions[caller].held), old(transactions) - {caller}, transactions, owner)
      ensures old(PermitsSound()) ==> PermitsSound()
    {
      if !IsTransactionActive(caller) {
        return Failed(NoActiveTransaction);
      }
      if IsTransactionAborted(caller) {
        return Failed(ActiveTransactionAborted);
      }
      FinishCurrentTransaction(caller);
      s := Done;
    }

    /**
     * `rollbackCurrentTransaction`: a no-op without a transaction; otherwise
     * undoes the history newest first, then releases like a commit.
     */
    method Rollback(caller: ThreadId)
      requires Valid()
      requires caller in transactions ==> transactions[caller].waitsOn == None
      modifies this`values, this`transactions, this`owner
      ensures Valid()
      ensures caller !in old(transactions) ==>
        values == old(values) && transactions == old(transactions) && owner == old(owner)
      ensures caller in old(transactions) ==>
        && values == UndoAll(old(values), old(transactions[caller].history))
        && ReleasedLocks(old(transactions[caller].held), old(owner), waiters, owner)
        && HandedOff(old(transactions[caller].held), old(transactions) - {caller}, transactions, owner)
      ensures old(PermitsSound()) ==> PermitsSound()
    {
      if !IsTransactionActive(caller) {
        return;
      }
      var history := transactions[caller].history;
      var i := |history|;
      while i > 0
        invariant 0 <= i <= |history|
        invariant values == UndoAll(old(values), history[i..])
        invariant Valid()
        invariant transactions == old(transactions) && owner == old(owner)
      {
        i := i - 1;
        var e := history[i];
        assert history[i..][1..] == history[i + 1..];
        UndoPreserves(resourceIds, values, transactions, owner, waiters, caller, i);
        values := values[e.rid := e.operation.undo(values[e.rid])];
      }
      assert history[0..] == history;
      FinishCurrentTransaction(caller);
    }

    /** An external `Thread.interrupt()` of thread `t`. */
    method Interrupt(t: ThreadId)
      modifies this`interrupted
      ensures interrupted == old(interrupted) + {t}
      ensures old(PermitsSound()) ==> PermitsSound()
    {
      if PermitsSound() {
        InterruptKeepsPermits(transactions, owner, interrupted, t);
      }
      interrupted := interrupted + {t};
    }
  }
}
