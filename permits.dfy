/**
 * What the `delay` semaphores of the manager should mean: a transaction
 * holds a permit only while it waits, and then either because it was
 * interrupted (an abort always interrupts its victim) or because it was
 * handed the very lock it waits for, in which case it holds exactly one.
 * Under this invariant a wait that ends by taking a permit ends with the
 * lock, which is the mutual exclusion strict two-phase locking promises.
 */
module Permits {
  import opened Wrappers
  import opened Base
  import opened History
  import opened Locking

  ghost predicate PermitsMatchLocks(recs: Registry, owner: map<ResourceId, ThreadId>, interrupted: set<ThreadId>)
  {
    forall t :: t in recs && recs[t].permits > 0 ==>
      && recs[t].waitsOn.Some?
      && (t in interrupted
          || (recs[t].permits == 1 && recs[t].waitsOn.value in owner && owner[recs[t].waitsOn.value] == t))
  }

  /** The empty tables of a new manager. */
  lemma EmptyPermits()
    ensures PermitsMatchLocks(map[], map[], {})
  {
  }

  /** A fresh record has no permit. */
  lemma RegisterKeepsPermits(recs: Registry, owner: map<ResourceId, ThreadId>, interrupted: set<ThreadId>,
                             t: ThreadId, time: Time)
    requires PermitsMatchLocks(recs, owner, interrupted)
    ensures PermitsMatchLocks(recs[t := NewTransactionInfo(time)], owner, interrupted)
  {
  }

  /** A more interrupted set never hurts. */
  lemma InterruptKeepsPermits(recs: Registry, owner: map<ResourceId, ThreadId>, interrupted: set<ThreadId>, t: ThreadId)
    requires PermitsMatchLocks(recs, owner, interrupted)
    ensures PermitsMatchLocks(recs, owner, interrupted + {t})
  {
  }

  /** A transaction that waits on nothing holds no permit. */
  lemma IdleHasNoPermit(recs: Registry, owner: map<ResourceId, ThreadId>, interrupted: set<ThreadId>, t: ThreadId)
    requires PermitsMatchLocks(recs, owner, interrupted)
    requires t in recs && recs[t].waitsOn == None
    ensures recs[t].permits == 0
  {
  }

  /** Taking a free lock: the caller waits on nothing and nobody else was handed that lock. */
  lemma AcquireKeepsPermits(recs: Registry, owner: map<ResourceId, ThreadId>, interrupted: set<ThreadId>,
                            t: ThreadId, rid: ResourceId)
    requires PermitsMatchLocks(recs, owner, interrupted)
    requires t in recs && recs[t].waitsOn == None && rid !in owner
    ensures PermitsMatchLocks(recs[t := recs[t].(held := recs[t].held + [rid])], owner[rid := t], interrupted)
  {
    IdleHasNoPermit(recs, owner, interrupted, t);
  }

  /** Queuing for a lock: the caller had no permit, and has none now. */
  lemma EnqueueKeepsPermits(recs: Registry, owner: map<ResourceId, ThreadId>, interrupted: set<ThreadId>,
                            t: ThreadId, rid: ResourceId)
    requires PermitsMatchLocks(recs, owner, interrupted)
    requires t in recs && recs[t].waitsOn == None
    ensures PermitsMatchLocks(recs[t := recs[t].(waitsOn := Some(rid))], owner, interrupted)
  {
    IdleHasNoPermit(recs, owner, interrupted, t);
  }

  /** An abort of a waiting victim: its permit comes with an interrupt. */
  lemma AbortKeepsPermits(recs: Registry, owner: map<ResourceId, ThreadId>, interrupted: set<ThreadId>, v: ThreadId)
    requires PermitsMatchLocks(recs, owner, interrupted)
    requires v in recs && recs[v].waitsOn.Some?
    ensures PermitsMatchLocks(AbortVictim(recs, v), owner, interrupted + {v})
  {
  }

  /** Clearing the interrupt mark together with every permit (`drainPermits`). */
  lemma DrainKeepsPermits(recs: Registry, owner: map<ResourceId, ThreadId>, interrupted: set<ThreadId>,
                          t: ThreadId)
    requires PermitsMatchLocks(recs, owner, interrupted)
    requires t in recs
    ensures PermitsMatchLocks(recs[t := recs[t].(permits := 0)], owner, interrupted - {t})
  {
  }

  /** Leaving the queue (`removeFromWaiting`) without a permit. */
  lemma LeaveQueueKeepsPermits(recs: Registry, owner: map<ResourceId, ThreadId>, interrupted: set<ThreadId>,
                               t: ThreadId)
    requires PermitsMatchLocks(recs, owner, interrupted)
    requires t in recs && recs[t].permits == 0
    ensures PermitsMatchLocks(recs[t := recs[t].(waitsOn := None)], owner, interrupted)
  {
  }

  /**
   * Leaving the queue with a permit and no interrupt mark, as after
   * `Semaphore.acquire` threw and cleared the mark without taking the
   * permit: a transaction that waits on nothing is left with a permit,
   * which the invariant forbids.
   */
  lemma StalePermitBreaks(recs: Registry, owner: map<ResourceId, ThreadId>, interrupted: set<ThreadId>,
                          t: ThreadId)
    requires t in recs && recs[t].permits > 0 && t !in interrupted
    ensures !PermitsMatchLocks(recs[t := recs[t].(waitsOn := None)], owner, interrupted)
  {
    var recs' := recs[t := recs[t].(waitsOn := None)];
    assert t in recs' && recs'[t].permits > 0 && recs'[t].waitsOn == None;
  }

  /**
   * The ways a wait can end, for the transaction `t` waiting on `rid`: with
   * a permit and no interrupt mark it owns `rid`; with a mark, dropping the
   * permits keeps the invariant, and so does keeping them when there are
   * none; keeping a permit breaks it.
   */
  lemma WaitEndPermits(recs: Registry, owner: map<ResourceId, ThreadId>, interrupted: set<ThreadId>,
                       t: ThreadId, rid: ResourceId)
    requires t in recs && recs[t].waitsOn == Some(rid)
    ensures var rec := recs[t];
      PermitsMatchLocks(recs, owner, interrupted) && t !in interrupted && rec.permits > 0 ==>
        && rid in owner && owner[rid] == t
        && PermitsMatchLocks(recs[t := rec.(waitsOn := None, permits := rec.permits - 1)], owner, interrupted)
    ensures var rec := recs[t];
      PermitsMatchLocks(recs, owner, interrupted) && t in interrupted ==>
        PermitsMatchLocks(recs[t := rec.(waitsOn := None, permits := 0)], owner, interrupted - {t})
    ensures var rec := recs[t];
      rec.permits > 0 ==> !PermitsMatchLocks(recs[t := rec.(waitsOn := None)], owner, interrupted - {t})
  {
    var rec := recs[t];
    if rec.permits > 0 {
      StalePermitBreaks(recs, owner, interrupted - {t}, t);
    }
    assert rec.(waitsOn := None, permits := 0) == rec.(permits := 0).(waitsOn := None);
    if PermitsMatchLocks(recs, owner, interrupted) && t in interrupted {
      DrainKeepsPermits(recs, owner, interrupted, t);
      LeaveQueueKeepsPermits(recs[t := rec.(permits := 0)], owner, interrupted - {t}, t);
      assert recs[t := rec.(permits := 0)][t := rec.(waitsOn := None, permits := 0)] == recs[t := rec.(waitsOn := None, permits := 0)];
    }
  }

  /** The end of `operate`: the caller waits on nothing, so its interrupt mark guards no permit. */
  lemma ExecuteKeepsPermits(recs: Registry, owner: map<ResourceId, ThreadId>, interrupted: set<ThreadId>,
                            t: ThreadId, e: TransactionHistoryElement)
    requires PermitsMatchLocks(recs, owner, interrupted)
    requires t in recs && recs[t].waitsOn == None
    ensures PermitsMatchLocks(recs, owner, interrupted - {t})
    ensures PermitsMatchLocks(recs[t := recs[t].(history := recs[t].history + [e])], owner, interrupted)
  {
    IdleHasNoPermit(recs, owner, interrupted, t);
  }

  /** After a release, the permit of one transaction: unchanged, or one more for a lock handed to it. */
  lemma ReleaseKeepsPermitsOf(ids: set<ResourceId>, values: Values, recs0: Registry,
                              owner0: map<ResourceId, ThreadId>, waiters: Waiters, interrupted: set<ThreadId>,
                              caller: ThreadId, recs: Registry, owner: map<ResourceId, ThreadId>, t: ThreadId)
    requires Consistent(ids, values, recs0, owner0, waiters) && PermitsMatchLocks(recs0, owner0, interrupted)
    requires caller in recs0 && recs0[caller].waitsOn == None
    requires ReleasedLocks(recs0[caller].held, owner0, waiters, owner)
    requires HandedOff(recs0[caller].held, recs0 - {caller}, recs, owner)
    requires t in recs && recs[t].permits > 0
    ensures recs[t].waitsOn.Some?
    ensures t in interrupted
            || (recs[t].permits == 1 && recs[t].waitsOn.value in owner && owner[recs[t].waitsOn.value] == t)
  {
    var held := recs0[caller].held;
    var rec0 := recs0[t];
    var h := HandedTo(rec0, held, owner, t);
    assert t != caller && t in recs0;
    assert recs[t] == rec0.(held := rec0.held + h, permits := rec0.permits + |h|);
    assert forall r :: r in held ==> r in owner0 && owner0[r] == caller;
    if h == [] {
      assert rec0.permits > 0;
      var r := rec0.waitsOn.value;
      assert t !in interrupted ==> r in owner0 && owner0[r] == t && r !in held;
    } else {
      var r := rec0.waitsOn.value;
      assert r in held && owner0[r] != t;
      assert t in interrupted || rec0.permits == 0;
    }
  }

  /**
   * The release of `finishCurrentTransaction`: a lock handed to a waiter
   * comes with its one permit, and no lock a permit stands for is let go.
   */
  lemma ReleaseKeepsPermits(ids: set<ResourceId>, values: Values, recs0: Registry,
                            owner0: map<ResourceId, ThreadId>, waiters: Waiters, interrupted: set<ThreadId>,
                            caller: ThreadId, recs: Registry, owner: map<ResourceId, ThreadId>)
    requires Consistent(ids, values, recs0, owner0, waiters) && PermitsMatchLocks(recs0, owner0, interrupted)
    requires caller in recs0 && recs0[caller].waitsOn == None
    requires ReleasedLocks(recs0[caller].held, owner0, waiters, owner)
    requires HandedOff(recs0[caller].held, recs0 - {caller}, recs, owner)
    ensures PermitsMatchLocks(recs, owner, interrupted)
  {
    forall t | t in recs && recs[t].permits > 0
      ensures recs[t].waitsOn.Some?
      ensures t in interrupted
              || (recs[t].permits == 1 && recs[t].waitsOn.value in owner && owner[recs[t].waitsOn.value] == t)
    {
      ReleaseKeepsPermitsOf(ids, values, recs0, owner0, waiters, interrupted, caller, recs, owner, t);
    }
  }

  /**
   * How the code as written lets a thread past a lock it does not hold.
   * `s0`: T10 has committed and handed resource 1 to its waiter T11 (one
   * permit), and T11 has been interrupted. `s1`: T11's `acquire` throws and
   * its wait ends with the permit kept. `s3`: T12 takes resource 2, and T11,
   * whose transaction is still active and not aborted, queues for it. There
   * T11 has a permit and no interrupt mark, so its next `acquire` returns at
   * once (`AwaitWake` says `Woken`) although T12 owns resource 2.
   */
  lemma StalePermitReachable()
    ensures var ids := {1, 2};
      var values := map[1 := 0, 2 := 0];
      var recs0 := map[11 := TransactionInfo([], [1], 1, 1, false, Some(1)), 12 := NewTransactionInfo(2)];
      var owner0 := map[1 := 11];
      var waiters0 := map[1 := {11}];
      var recs1 := recs0[11 := recs0[11].(waitsOn := None)];
      var waiters1 := RemoveWaiter(waiters0, 1, 11);
      var recs2 := recs1[12 := recs1[12].(held := recs1[12].held + [2])];
      var owner2 := owner0[2 := 12];
      var recs3 := recs2[11 := recs2[11].(waitsOn := Some(2))];
      var waiters3 := AddWaiter(waiters1, 2, 11);
      && Consistent(ids, values, recs0, owner0, waiters0) && PermitsMatchLocks(recs0, owner0, {11})
      && Consistent(ids, values, recs1, owner0, waiters1) && !PermitsMatchLocks(recs1, owner0, {})
      && Consistent(ids, values, recs3, owner2, waiters3)
      && recs3[11].waitsOn == Some(2) && recs3[11].permits == 1 && !recs3[11].aborted
      && owner2[2] == 12
  {
    var ids := {1, 2};
    var values := map[1 := 0, 2 := 0];
    var recs0 := map[11 := TransactionInfo([], [1], 1, 1, false, Some(1)), 12 := NewTransactionInfo(2)];
    var owner0 := map[1 := 11];
    var waiters0 := map[1 := {11}];
    assert Consistent(ids, values, recs0, owner0, waiters0);
    var recs1 := recs0[11 := recs0[11].(waitsOn := None)];
    var waiters1 := RemoveWaiter(waiters0, 1, 11);
    DequeuePreserves(ids, values, recs0, owner0, waiters0, 11, 1);
    StalePermitBreaks(recs0, owner0, {}, 11);
    AcquirePreserves(ids, values, recs1, owner0, waiters1, 12, 2);
    var recs2 := recs1[12 := recs1[12].(held := recs1[12].held + [2])];
    EnqueuePreserves(ids, values, recs2, owner0[2 := 12], waiters1, 11, 2);
  }
}
