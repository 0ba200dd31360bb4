/**
 * The registry, lock and wait tables of the transaction manager as values,
 * the invariant that ties them together, and what each kind of update does
 * to it.
 */
module Locking {
  import opened Wrappers
  import opened Base
  import opened History
  import opened Deadlock

  /**
   * `TransactionInfo`: the executed operations oldest first
   * (`transactionHistory`), the locked resources in the order they were
   * obtained (`whatResourcesThreadHasLockOn`), the clock value at the start,
   * the permits of the `delay` semaphore, the abort flag and the resource
   * waited on (`whatResourceItWaitsOn`, `None` for null).
   */
  datatype TransactionInfo = TransactionInfo(
    history: seq<TransactionHistoryElement>,
    held: seq<ResourceId>,
    startTime: Time,
    permits: nat,
    aborted: bool,
    waitsOn: Option<ResourceId>)

  /** `new TransactionInfo(time)`. */
  function NewTransactionInfo(time: Time): (info: TransactionInfo)
    ensures info.startTime == time && info.history == [] && info.held == []
    ensures info.permits == 0 && !info.aborted && info.waitsOn == None
  {
    TransactionInfo([], [], time, 0, false, None)
  }

  type Registry = map<ThreadId, TransactionInfo>
  type Waiters = map<ResourceId, set<ThreadId>>

  /** The waiter sets after `t` joins the waiters of `rid` (`addToWaiting`). */
  function AddWaiter(ws: Waiters, rid: ResourceId, t: ThreadId): Waiters
  {
    ws[rid := (if rid in ws then ws[rid] else {}) + {t}]
  }

  /** The waiter sets after `t` leaves the waiters of `rid`; an emptied set is dropped (`removeFromWaiting`). */
  function RemoveWaiter(ws: Waiters, rid: ResourceId, t: ThreadId): Waiters
  {
    if rid !in ws then ws
    else if ws[rid] - {t} == {} then ws - {rid}
    else ws[rid := ws[rid] - {t}]
  }

  /** `AddWaiter` adds exactly the pair (`rid`, `t`). */
  lemma AddWaiterMembers(ws: Waiters, rid: ResourceId, t: ThreadId)
    ensures var r := AddWaiter(ws, rid, t);
      && (forall q :: q in r <==> q in ws || q == rid)
      && (forall q, u :: q in r && u in r[q] <==> (q in ws && u in ws[q]) || (q == rid && u == t))
  {
  }

  /** `RemoveWaiter` removes exactly the pair (`rid`, `t`) and leaves no set empty that was not. */
  lemma RemoveWaiterMembers(ws: Waiters, rid: ResourceId, t: ThreadId)
    ensures var r := RemoveWaiter(ws, rid, t);
      && (forall q :: q in r ==> q in ws)
      && (forall q, u :: q in r && u in r[q] <==> q in ws && u in ws[q] && (q != rid || u != t))
      && (forall q :: q in ws && ws[q] != {} && q in r ==> r[q] != {})
      && (rid in r ==> r[rid] != {})
  {
    if rid in ws && ws[rid] - {t} == {} {
      assert ws[rid] <= {t};
    }
  }

  /** Only known resources appear anywhere, and every stored value belongs to one. */
  ghost predicate Registered(ids: set<ResourceId>, values: Values, recs: Registry,
                             owner: map<ResourceId, ThreadId>, waiters: Waiters)
  {
    && values.Keys == ids
    && owner.Keys <= ids
    && waiters.Keys <= ids
    && (forall t, i :: t in recs && 0 <= i < |recs[t].history| ==> recs[t].history[i].rid in ids)
  }

  /** `owner[rid] == T` iff `rid` is among `T`'s held resources, which repeat nothing. */
  ghost predicate LocksAgree(recs: Registry, owner: map<ResourceId, ThreadId>)
  {
    && (forall r :: r in owner ==> owner[r] in recs && r in recs[owner[r]].held)
    && (forall t, r :: t in recs && r in recs[t].held ==> r in owner && owner[r] == t)
    && (forall t, i, j :: t in recs && 0 <= i < j < |recs[t].held| ==> recs[t].held[i] != recs[t].held[j])
  }

  /**
   * `T` is among the waiters of `rid` iff `T` waits on `rid`; waiter sets are
   * never empty and are kept only for owned resources.
   */
  ghost predicate WaitsAgree(recs: Registry, owner: map<ResourceId, ThreadId>, waiters: Waiters)
  {
    && (forall r :: r in waiters ==> waiters[r] != {} && r in owner)
    && (forall r, t :: r in waiters && t in waiters[r] ==> t in recs && recs[t].waitsOn == Some(r))
    && (forall t :: t in recs && recs[t].waitsOn.Some? ==>
          recs[t].waitsOn.value in waiters && t in waiters[recs[t].waitsOn.value])
  }

  ghost predicate Consistent(ids: set<ResourceId>, values: Values, recs: Registry,
                             owner: map<ResourceId, ThreadId>, waiters: Waiters)
  {
    Registered(ids, values, recs, owner, waiters) && LocksAgree(recs, owner) && WaitsAgree(recs, owner, waiters)
  }

  /** What the deadlock walk reads. */
  function GraphOf(recs: Registry, owner: map<ResourceId, ThreadId>): (g: WaitGraph)
    ensures g.owner == owner
    ensures forall t :: t in g.waitsOn <==> t in recs && recs[t].waitsOn.Some?
    ensures forall t :: t in g.waitsOn ==> g.waitsOn[t] == recs[t].waitsOn.value
    ensures forall t :: t in g.startTime <==> t in recs
    ensures forall t :: t in g.startTime ==> g.startTime[t] == recs[t].startTime
  {
    WaitGraph(owner,
      map t | t in recs && recs[t].waitsOn.Some? :: recs[t].waitsOn.value,
      map t | t in recs :: recs[t].startTime)
  }

  /** Consistent tables give a graph on which no lookup of the walk fails. */
  lemma ConsistentGraphWellFormed(ids: set<ResourceId>, values: Values, recs: Registry,
                                  owner: map<ResourceId, ThreadId>, waiters: Waiters)
    requires Consistent(ids, values, recs, owner, waiters)
    ensures WellFormed(GraphOf(recs, owner))
  {
  }

  /**
   * The window a handoff opens: T10 committed and handed resource 1 to T11,
   * which still waits on it, and T12 has queued for it since. The tables are
   * consistent, yet the walk T12's `removeDeadlock` starts at T11 never
   * stops, and it runs while holding the global lock that T11 needs to
   * leave its queue.
   */
  lemma HandoffWindowHangs(k: nat)
    ensures var recs := map[11 := TransactionInfo([], [1], 1, 1, false, Some(1)),
                            12 := TransactionInfo([], [], 2, 0, false, Some(1))];
      var owner := map[1 := 11];
      && Consistent({1}, map[1 := 0], recs, owner, map[1 := {11, 12}])
      && WellFormed(GraphOf(recs, owner))
      && !ChainExits(GraphOf(recs, owner), 12, owner[1], k)
  {
    var recs := map[11 := TransactionInfo([], [1], 1, 1, false, Some(1)),
                    12 := TransactionInfo([], [], 2, 0, false, Some(1))];
    var owner := map[1 := 11];
    assert Consistent({1}, map[1 := 0], recs, owner, map[1 := {11, 12}]);
    var g := GraphOf(recs, owner);
    assert 11 in g.waitsOn && Next(g, 11) == 11;
    SelfWaitNeverExits(g, 12, 11, k);
  }

  /**
   * The window an abort opens: T1 holds resource 1 and waits on 2, T2 holds
   * 2 and waits on 1, and T2's `removeDeadlock` has aborted T2 itself and
   * given it a permit. Until T2 leaves its queue the cycle stays in the
   * tables. T3 queues for resource 1 meanwhile, and the walk its
   * `removeDeadlock` starts at T1 goes T1, T2, T1, ... without end, while
   * holding the global lock T2 needs to leave. Stopping at a handoff does
   * not help here.
   */
  lemma AbortedCycleHangs(k: nat)
    ensures var recs := map[1 := TransactionInfo([], [1], 1, 0, false, Some(2)),
                            2 := TransactionInfo([], [2], 2, 1, true, Some(1)),
                            3 := TransactionInfo([], [], 3, 0, false, Some(1))];
      var owner := map[1 := 1, 2 := 2];
      && Consistent({1, 2}, map[1 := 0, 2 := 0], recs, owner, map[1 := {2, 3}, 2 := {1}])
      && WellFormed(GraphOf(recs, owner))
      && !ChainExits(GraphOf(recs, owner), 3, owner[1], k)
      && !ChainExitsAtHandoff(GraphOf(recs, owner), 3, owner[1], k)
  {
    var recs := map[1 := TransactionInfo([], [1], 1, 0, false, Some(2)),
                    2 := TransactionInfo([], [2], 2, 1, true, Some(1)),
                    3 := TransactionInfo([], [], 3, 0, false, Some(1))];
    var owner := map[1 := 1, 2 := 2];
    assert Consistent({1, 2}, map[1 := 0, 2 := 0], recs, owner, map[1 := {2, 3}, 2 := {1}]);
    var g := GraphOf(recs, owner);
    assert 1 in g.waitsOn && 2 in g.waitsOn && Next(g, 1) == 2 && Next(g, 2) == 1;
    TwoCycleNeverExits(g, 3, 1, 2, k);
  }

  /** The tables of a new manager. */
  lemma EmptyConsistent(values: Values)
    ensures Consistent(values.Keys, values, map[], map[], map[])
  {
  }

  /** Registering a record that holds and waits on nothing keeps the tables consistent. */
  lemma RegisterPreserves(ids: set<ResourceId>, values: Values, recs: Registry,
                          owner: map<ResourceId, ThreadId>, waiters: Waiters, t: ThreadId, rec: TransactionInfo)
    requires Consistent(ids, values, recs, owner, waiters)
    requires t !in recs && rec.history == [] && rec.held == [] && rec.waitsOn == None
    ensures Consistent(ids, values, recs[t := rec], owner, waiters)
  {
  }

  /** Taking a free resource: it becomes owned by `t` and the last of `t`'s held resources. */
  lemma AcquirePreserves(ids: set<ResourceId>, values: Values, recs: Registry,
                         owner: map<ResourceId, ThreadId>, waiters: Waiters, t: ThreadId, rid: ResourceId)
    requires Consistent(ids, values, recs, owner, waiters)
    requires t in recs && rid in ids && rid !in owner
    ensures Consistent(ids, values, recs[t := recs[t].(held := recs[t].held + [rid])], owner[rid := t], waiters)
  {
    var recs' := recs[t := recs[t].(held := recs[t].held + [rid])];
    forall u, i, j | u in recs' && 0 <= i < j < |recs'[u].held|
      ensures recs'[u].held[i] != recs'[u].held[j]
    {
      if u == t && j == |recs[t].held| {
        assert recs[t].held[i] in recs[t].held;
      }
    }
  }

  /** The lock table is about held lists only. */
  lemma LocksFrame(recs: Registry, owner: map<ResourceId, ThreadId>, recs': Registry)
    requires LocksAgree(recs, owner)
    requires recs'.Keys == recs.Keys && forall t :: t in recs ==> recs'[t].held == recs[t].held
    ensures LocksAgree(recs', owner)
  {
  }

  /** The waiter table is about wait edges only. */
  lemma WaitsFrame(recs: Registry, owner: map<ResourceId, ThreadId>, waiters: Waiters, recs': Registry)
    requires WaitsAgree(recs, owner, waiters)
    requires recs'.Keys == recs.Keys && forall t :: t in recs ==> recs'[t].waitsOn == recs[t].waitsOn
    ensures WaitsAgree(recs', owner, waiters)
  {
  }

  /** Registration is about the keys of the tables and the histories only. */
  lemma RegisteredFrame(ids: set<ResourceId>, values: Values, recs: Registry, owner: map<ResourceId, ThreadId>,
                        waiters: Waiters, recs': Registry, waiters': Waiters)
    requires Registered(ids, values, recs, owner, waiters)
    requires recs'.Keys == recs.Keys && forall t :: t in recs ==> recs'[t].history == recs[t].history
    requires waiters'.Keys <= ids
    ensures Registered(ids, values, recs', owner, waiters')
  {
    forall t, i | t in recs' && 0 <= i < |recs'[t].history| ensures recs'[t].history[i].rid in ids
    {
      assert recs'[t].history == recs[t].history;
    }
  }

  /** The wait tables after `t`, waiting on nothing, queues for an owned `rid`. */
  lemma EnqueueWaits(recs: Registry, owner: map<ResourceId, ThreadId>, waiters: Waiters, t: ThreadId, rid: ResourceId)
    requires WaitsAgree(recs, owner, waiters)
    requires t in recs && recs[t].waitsOn == None && rid in owner
    ensures WaitsAgree(recs[t := recs[t].(waitsOn := Some(rid))], owner, AddWaiter(waiters, rid, t))
  {
    var recs' := recs[t := recs[t].(waitsOn := Some(rid))];
    var ws' := AddWaiter(waiters, rid, t);
    forall r | r in ws' ensures ws'[r] != {} && r in owner
    {
      if r == rid {
        assert t in ws'[r];
      } else {
        assert r in waiters && ws'[r] == waiters[r];
      }
    }
    forall r, u | r in ws' && u in ws'[r] ensures u in recs' && recs'[u].waitsOn == Some(r)
    {
      if r != rid {
        assert ws'[r] == waiters[r];
      } else if u != t {
        assert rid in waiters && u in waiters[rid];
      }
    }
    forall u | u in recs' && recs'[u].waitsOn.Some?
      ensures recs'[u].waitsOn.value in ws' && u in ws'[recs'[u].waitsOn.value]
    {
      if u != t {
        var q := recs[u].waitsOn.value;
        assert q in waiters && u in waiters[q];
        assert waiters[q] <= ws'[q];
      }
    }
  }

  /** The wait tables after `t` leaves the queue of the `rid` it waits on. */
  lemma DequeueWaits(recs: Registry, owner: map<ResourceId, ThreadId>, waiters: Waiters, t: ThreadId, rid: ResourceId)
    requires WaitsAgree(recs, owner, waiters)
    requires t in recs && recs[t].waitsOn == Some(rid)
    ensures WaitsAgree(recs[t := recs[t].(waitsOn := None)], owner, RemoveWaiter(waiters, rid, t))
  {
    var recs' := recs[t := recs[t].(waitsOn := None)];
    var ws' := RemoveWaiter(waiters, rid, t);
    assert rid in waiters && t in waiters[rid];
    forall r | r in ws' ensures ws'[r] != {} && r in owner
    {
      if r != rid {
        assert ws'[r] == waiters[r];
      }
    }
    forall r, u | r in ws' && u in ws'[r] ensures u in recs' && recs'[u].waitsOn == Some(r)
    {
      if r != rid {
        assert ws'[r] == waiters[r];
      } else {
        assert ws'[r] == waiters[r] - {t};
      }
    }
    forall u | u in recs' && recs'[u].waitsOn.Some?
      ensures recs'[u].waitsOn.value in ws' && u in ws'[recs'[u].waitsOn.value]
    {
      var q := recs[u].waitsOn.value;
      assert u != t && q in waiters && u in waiters[q];
      if q == rid {
        assert u in waiters[rid] - {t};
      } else {
        assert ws'[q] == waiters[q];
      }
    }
  }

  /** Queueing an idle `t` for an owned resource. */
  lemma EnqueuePreserves(ids: set<ResourceId>, values: Values, recs: Registry,
                         owner: map<ResourceId, ThreadId>, waiters: Waiters, t: ThreadId, rid: ResourceId)
    requires Consistent(ids, values, recs, owner, waiters)
    requires t in recs && recs[t].waitsOn == None && rid in owner
    ensures Consistent(ids, values, recs[t := recs[t].(waitsOn := Some(rid))], owner, AddWaiter(waiters, rid, t))
  {
    var recs' := recs[t := recs[t].(waitsOn := Some(rid))];
    RegisteredFrame(ids, values, recs, owner, waiters, recs', AddWaiter(waiters, rid, t));
    LocksFrame(recs, owner, recs');
    EnqueueWaits(recs, owner, waiters, t, rid);
  }

  /** Taking `t` off the queue of the resource it waits on. */
  lemma DequeuePreserves(ids: set<ResourceId>, values: Values, recs: Registry,
                         owner: map<ResourceId, ThreadId>, waiters: Waiters, t: ThreadId, rid: ResourceId)
    requires Consistent(ids, values, recs, owner, waiters)
    requires t in recs && recs[t].waitsOn == Some(rid)
    ensures Consistent(ids, values, recs[t := recs[t].(waitsOn := None)], owner, RemoveWaiter(waiters, rid, t))
  {
    var recs' := recs[t := recs[t].(waitsOn := None)];
    RegisteredFrame(ids, values, recs, owner, waiters, recs', RemoveWaiter(waiters, rid, t));
    LocksFrame(recs, owner, recs');
    DequeueWaits(recs, owner, waiters, t, rid);
  }

  /** Replacing the record of `t` by one with the same held list, wait edge and known history. */
  lemma RecordPreserves(ids: set<ResourceId>, values: Values, recs: Registry,
                        owner: map<ResourceId, ThreadId>, waiters: Waiters, t: ThreadId, rec: TransactionInfo)
    requires Consistent(ids, values, recs, owner, waiters)
    requires t in recs && rec.held == recs[t].held && rec.waitsOn == recs[t].waitsOn
    requires forall i :: 0 <= i < |rec.history| ==> rec.history[i].rid in ids
    ensures Consistent(ids, values, recs[t := rec], owner, waiters)
  {
    var recs' := recs[t := rec];
    LocksFrame(recs, owner, recs');
    WaitsFrame(recs, owner, waiters, recs');
  }

  /** `v`'s record marked aborted, with the permit that wakes it. */
  function AbortVictim(recs: Registry, v: ThreadId): Registry
    requires v in recs
  {
    recs[v := recs[v].(aborted := true, permits := recs[v].permits + 1)]
  }

  /** Marking `v` aborted and giving it the permit that wakes it. */
  lemma AbortPreserves(ids: set<ResourceId>, values: Values, recs: Registry,
                       owner: map<ResourceId, ThreadId>, waiters: Waiters, v: ThreadId)
    requires Consistent(ids, values, recs, owner, waiters)
    requires v in recs
    ensures Consistent(ids, values, AbortVictim(recs, v), owner, waiters)
  {
    RecordPreserves(ids, values, recs, owner, waiters, v, recs[v].(aborted := true, permits := recs[v].permits + 1));
  }

  /** Changing only the permit count of `t` (a semaphore `release` or `acquire`). */
  lemma PermitPreserves(ids: set<ResourceId>, values: Values, recs: Registry,
                        owner: map<ResourceId, ThreadId>, waiters: Waiters, t: ThreadId, p: nat)
    requires Consistent(ids, values, recs, owner, waiters)
    requires t in recs
    ensures Consistent(ids, values, recs[t := recs[t].(permits := p)], owner, waiters)
  {
    RecordPreserves(ids, values, recs, owner, waiters, t, recs[t].(permits := p));
  }

  /** Two updates of the same record are the second one. */
  lemma UpdateTwice(recs: Registry, t: ThreadId, a: TransactionInfo, b: TransactionInfo)
    ensures recs[t := a][t := b] == recs[t := b]
  {
  }

  /** The end of a wait: `t` is taken off the queue of `rid` and left with `p` permits. */
  lemma WakePreserves(ids: set<ResourceId>, values: Values, recs: Registry,
                      owner: map<ResourceId, ThreadId>, waiters: Waiters, t: ThreadId, rid: ResourceId, p: nat)
    requires Consistent(ids, values, recs, owner, waiters)
    requires t in recs && recs[t].waitsOn == Some(rid)
    ensures Consistent(ids, values, recs[t := recs[t].(waitsOn := None, permits := p)], owner, RemoveWaiter(waiters, rid, t))
  {
    var recs1 := recs[t := recs[t].(waitsOn := None)];
    DequeuePreserves(ids, values, recs, owner, waiters, t, rid);
    PermitPreserves(ids, values, recs1, owner, RemoveWaiter(waiters, rid, t), t, p);
    UpdateTwice(recs, t, recs[t].(waitsOn := None), recs[t].(waitsOn := None, permits := p));
  }

  /** Writing a known resource's value. */
  lemma WritePreserves(ids: set<ResourceId>, values: Values, recs: Registry,
                       owner: map<ResourceId, ThreadId>, waiters: Waiters, rid: ResourceId, x: int)
    requires Consistent(ids, values, recs, owner, waiters)
    requires rid in ids
    ensures Consistent(ids, values[rid := x], recs, owner, waiters)
  {
  }

  /** Appending an operation on a known resource to a history. */
  lemma AppendPreserves(ids: set<ResourceId>, values: Values, recs: Registry,
                        owner: map<ResourceId, ThreadId>, waiters: Waiters, t: ThreadId, e: TransactionHistoryElement)
    requires Consistent(ids, values, recs, owner, waiters)
    requires t in recs && e.rid in ids
    ensures Consistent(ids, values, recs[t := recs[t].(history := recs[t].history + [e])], owner, waiters)
  {
    var rec := recs[t].(history := recs[t].history + [e]);
    forall i | 0 <= i < |rec.history| ensures rec.history[i].rid in ids
    {
      if i < |recs[t].history| {
        assert rec.history[i] == recs[t].history[i];
      }
    }
    RecordPreserves(ids, values, recs, owner, waiters, t, rec);
  }

  /** Undoing one history entry of `t` writes a known resource and leaves the tables consistent. */
  lemma UndoPreserves(ids: set<ResourceId>, values: Values, recs: Registry,
                      owner: map<ResourceId, ThreadId>, waiters: Waiters, t: ThreadId, i: nat)
    requires Consistent(ids, values, recs, owner, waiters)
    requires t in recs && i < |recs[t].history|
    ensures recs[t].history[i].rid in values
    ensures var e := recs[t].history[i];
      Consistent(ids, values[e.rid := e.operation.undo(values[e.rid])], recs, owner, waiters)
  {
    var e := recs[t].history[i];
    WritePreserves(ids, values, recs, owner, waiters, e.rid, e.operation.undo(values[e.rid]));
  }

  /** The resource handed to the transaction of `rec` by a release: the one it waits on, if it now owns it. */
  function HandedTo(rec: TransactionInfo, released: seq<ResourceId>, owner: map<ResourceId, ThreadId>, t: ThreadId): seq<ResourceId>
  {
    if rec.waitsOn.Some? && rec.waitsOn.value in released
       && rec.waitsOn.value in owner && owner[rec.waitsOn.value] == t
    then [rec.waitsOn.value] else []
  }

  /**
   * The locks after the resources in `released` were let go: each is free
   * when nobody waits for it and otherwise owned by one of its waiters; no
   * other lock changed and none was created.
   */
  ghost predicate ReleasedLocks(released: seq<ResourceId>, owner0: map<ResourceId, ThreadId>,
                                waiters: Waiters, owner: map<ResourceId, ThreadId>)
  {
    && (forall r :: r in owner ==> r in owner0)
    && (forall r :: r in owner0 && r !in released ==> r in owner && owner[r] == owner0[r])
    && (forall r :: r in released ==> if r in waiters then r in owner && owner[r] in waiters[r] else r !in owner)
  }

  /** Each transaction got the resource handed to it appended to its held list, and one permit for it. */
  ghost predicate HandedOff(released: seq<ResourceId>, recs0: Registry, recs: Registry, owner: map<ResourceId, ThreadId>)
  {
    && recs.Keys == recs0.Keys
    && forall t :: t in recs ==>
         recs[t] == recs0[t].(held := recs0[t].held + HandedTo(recs0[t], released, owner, t),
                              permits := recs0[t].permits + |HandedTo(recs0[t], released, owner, t)|)
  }

  /** A sequence of resources that repeats none. */
  ghost predicate NoRepeats(s: seq<ResourceId>)
  {
    forall a, b :: 0 <= a < b < |s| ==> s[a] != s[b]
  }

  /**
   * The release loop of `finishCurrentTransaction` has let go of the first
   * `i` resources of `held`, starting from tables `recs0`/`owner0`, and
   * reached `recs`/`owner`.
   */
  ghost predicate ReleaseProgress(held: seq<ResourceId>, recs0: Registry, owner0: map<ResourceId, ThreadId>,
                                  waiters: Waiters, i: nat, recs: Registry, owner: map<ResourceId, ThreadId>)
  {
    && i <= |held|
    && ReleasedLocks(held[..i], owner0, waiters, owner)
    && HandedOff(held[..i], recs0, recs, owner)
  }

  /** Nothing released yet: the tables are as they were. */
  lemma ReleaseStart(held: seq<ResourceId>, recs0: Registry, owner0: map<ResourceId, ThreadId>, waiters: Waiters)
    ensures ReleaseProgress(held, recs0, owner0, waiters, 0, recs0, owner0)
  {
    assert held[..0] == [];
    forall t | t in recs0
      ensures recs0[t] == recs0[t].(held := recs0[t].held + HandedTo(recs0[t], [], owner0, t),
                                    permits := recs0[t].permits + |HandedTo(recs0[t], [], owner0, t)|)
    {
      assert recs0[t].held + [] == recs0[t].held;
    }
  }

  /** A resource not yet reached by the release loop: the held list repeats nothing. */
  lemma NotYetReleased(held: seq<ResourceId>, i: nat)
    requires i < |held| && NoRepeats(held)
    ensures held[i] !in held[..i]
    ensures held[..i + 1] == held[..i] + [held[i]]
  {
    forall k | 0 <= k < i ensures held[k] != held[i] { }
  }

  /**
   * One step of the release loop for a resource nobody waits for: it is
   * freed.
   */
  lemma {:induction false} ReleaseFree(held: seq<ResourceId>, recs0: Registry, owner0: map<ResourceId, ThreadId>,
                                       waiters: Waiters, i: nat, recs: Registry, owner: map<ResourceId, ThreadId>)
    requires ReleaseProgress(held, recs0, owner0, waiters, i, recs, owner)
    requires i < |held| && NoRepeats(held) && held[i] !in waiters
    ensures ReleaseProgress(held, recs0, owner0, waiters, i + 1, recs, owner - {held[i]})
  {
    var rid := held[i];
    NotYetReleased(held, i);
    var owner' := owner - {rid};
    forall r | r in owner0 && r !in held[..i + 1]
      ensures r in owner' && owner'[r] == owner0[r]
    {
      assert r !in held[..i];
    }
    forall r | r in held[..i + 1]
      ensures if r in waiters then r in owner' && owner'[r] in waiters[r] else r !in owner'
    {
      if r != rid {
        assert r in held[..i];
      }
    }
    forall t | t in recs0
      ensures HandedTo(recs0[t], held[..i + 1], owner', t) == HandedTo(recs0[t], held[..i], owner, t)
    {
    }
  }

  /** The lock part of a handoff step: `held[i]` goes to the waiter `w`. */
  lemma HandoffReleased(held: seq<ResourceId>, owner0: map<ResourceId, ThreadId>, waiters: Waiters,
                        i: nat, owner: map<ResourceId, ThreadId>, w: ThreadId)
    requires i < |held| && NoRepeats(held) && held[i] in owner0
    requires ReleasedLocks(held[..i], owner0, waiters, owner)
    requires held[i] in waiters && w in waiters[held[i]]
    ensures ReleasedLocks(held[..i + 1], owner0, waiters, owner[held[i] := w])
  {
    var rid := held[i];
    NotYetReleased(held, i);
    var owner' := owner[rid := w];
    forall r | r in owner0 && r !in held[..i + 1]
      ensures r in owner' && owner'[r] == owner0[r]
    {
      assert r !in held[..i];
    }
    forall r | r in held[..i + 1]
      ensures if r in waiters then r in owner' && owner'[r] in waiters[r] else r !in owner'
    {
      if r != rid {
        assert r in held[..i];
      }
    }
  }

  /** The record part of a handoff step: `w`, waiting on `held[i]`, gets it and one permit. */
  lemma HandoffRecords(held: seq<ResourceId>, recs0: Registry, i: nat, recs: Registry,
                       owner: map<ResourceId, ThreadId>, w: ThreadId)
    requires i < |held| && NoRepeats(held)
    requires HandedOff(held[..i], recs0, recs, owner)
    requires w in recs0 && recs0[w].waitsOn == Some(held[i])
    ensures w in recs
    ensures HandedOff(held[..i + 1], recs0,
                      recs[w := recs[w].(held := recs[w].held + [held[i]], permits := recs[w].permits + 1)],
                      owner[held[i] := w])
  {
    var rid := held[i];
    NotYetReleased(held, i);
    var owner' := owner[rid := w];
    var recs' := recs[w := recs[w].(held := recs[w].held + [rid], permits := recs[w].permits + 1)];
    assert HandedTo(recs0[w], held[..i], owner, w) == [];
    assert HandedTo(recs0[w], held[..i + 1], owner', w) == [rid];
    assert recs[w] == recs0[w];
    forall t | t in recs0 && t != w
      ensures HandedTo(recs0[t], held[..i + 1], owner', t) == HandedTo(recs0[t], held[..i], owner, t)
    {
      var q := recs0[t].waitsOn;
      if q.Some? && q.value == rid {
        assert HandedTo(recs0[t], held[..i], owner, t) == [];
      }
    }
  }

  /**
   * One step of the release loop for a resource with waiters: it is
   * handed to the waiter `w`, which gets it appended to its held list and
   * one permit.
   */
  lemma ReleaseHandoff(held: seq<ResourceId>, recs0: Registry, owner0: map<ResourceId, ThreadId>,
                       waiters: Waiters, i: nat, recs: Registry, owner: map<ResourceId, ThreadId>, w: ThreadId)
    requires ReleaseProgress(held, recs0, owner0, waiters, i, recs, owner)
    requires i < |held| && NoRepeats(held) && held[i] in owner0
    requires held[i] in waiters && w in waiters[held[i]]
    requires w in recs0 && recs0[w].waitsOn == Some(held[i])
    ensures w in recs
    ensures ReleaseProgress(held, recs0, owner0, waiters, i + 1,
                            recs[w := recs[w].(held := recs[w].held + [held[i]], permits := recs[w].permits + 1)],
                            owner[held[i] := w])
  {
    HandoffReleased(held, owner0, waiters, i, owner, w);
    HandoffRecords(held, recs0, i, recs, owner, w);
  }

  /** What the waiter tables say about a member `w` of the queue of `r`. */
  lemma WaiterOf(recs: Registry, owner: map<ResourceId, ThreadId>, waiters: Waiters, r: ResourceId, w: ThreadId)
    requires WaitsAgree(recs, owner, waiters)
    requires r in waiters && w in waiters[r]
    ensures r in owner && w in recs && recs[w].waitsOn == Some(r)
  {
  }

  /** A resource locked by `caller` before the release is among the released ones. */
  lemma OwnedByCallerReleased(recs0: Registry, owner0: map<ResourceId, ThreadId>, caller: ThreadId, r: ResourceId)
    requires caller in recs0 && LocksAgree(recs0, owner0)
    ensures r in owner0 && owner0[r] == caller <==> r in recs0[caller].held
  {
    if r in owner0 && owner0[r] == caller {
      assert r in recs0[owner0[r]].held;
    }
  }

  lemma {:induction false} ReleaseKeepsRegistered(ids: set<ResourceId>, values: Values, recs0: Registry,
                                                  owner0: map<ResourceId, ThreadId>, waiters: Waiters, caller: ThreadId,
                                                  recs: Registry, owner: map<ResourceId, ThreadId>)
    requires Registered(ids, values, recs0, owner0, waiters)
    requires caller in recs0
    requires ReleasedLocks(recs0[caller].held, owner0, waiters, owner)
    requires HandedOff(recs0[caller].held, recs0, recs, owner)
    ensures Registered(ids, values, recs - {caller}, owner, waiters)
  {
    var recs' := recs - {caller};
    forall t, i | t in recs' && 0 <= i < |recs'[t].history|
      ensures recs'[t].history[i].rid in ids
    {
      assert recs'[t].history == recs0[t].history;
    }
    forall r | r in owner ensures r in ids
    {
      assert r in owner0;
    }
  }

  /** After the release, a resource still held by another transaction `t` is owned by `t`. */
  lemma HeldAfterRelease(recs0: Registry, owner0: map<ResourceId, ThreadId>, waiters: Waiters, caller: ThreadId,
                         recs: Registry, owner: map<ResourceId, ThreadId>, t: ThreadId, r: ResourceId)
    requires LocksAgree(recs0, owner0) && caller in recs0
    requires ReleasedLocks(recs0[caller].held, owner0, waiters, owner)
    requires HandedOff(recs0[caller].held, recs0, recs, owner)
    requires t in recs && t != caller && r in recs[t].held
    ensures r in owner && owner[r] == t
  {
    var released := recs0[caller].held;
    var h := HandedTo(recs0[t], released, owner, t);
    assert recs[t].held == recs0[t].held + h;
    if r in recs0[t].held {
      assert owner0[r] == t;
      if r in released {
        assert false;
      }
    } else {
      assert r in h;
    }
  }

  /** After the release, every owned resource is in the held list of its owner, which is not `caller`. */
  lemma OwnerAfterRelease(recs0: Registry, owner0: map<ResourceId, ThreadId>, waiters: Waiters, caller: ThreadId,
                          recs: Registry, owner: map<ResourceId, ThreadId>, r: ResourceId)
    requires LocksAgree(recs0, owner0) && WaitsAgree(recs0, owner0, waiters)
    requires caller in recs0 && recs0[caller].waitsOn == None
    requires ReleasedLocks(recs0[caller].held, owner0, waiters, owner)
    requires HandedOff(recs0[caller].held, recs0, recs, owner)
    requires r in owner
    ensures owner[r] in recs && owner[r] != caller && r in recs[owner[r]].held
  {
    var released := recs0[caller].held;
    var u := owner[r];
    if r in released {
      assert r in waiters && u in waiters[r];
      WaiterOf(recs0, owner0, waiters, r, u);
      assert HandedTo(recs0[u], released, owner, u) == [r];
      assert recs[u].held == recs0[u].held + [r];
    } else {
      assert r in owner0 && u == owner0[r];
      assert r in recs0[u].held;
      assert recs[u].held == recs0[u].held + HandedTo(recs0[u], released, owner, u);
    }
  }

  /** After the release, no held list repeats a resource. */
  lemma NoRepeatsAfterRelease(recs0: Registry, owner0: map<ResourceId, ThreadId>, waiters: Waiters, caller: ThreadId,
                              recs: Registry, owner: map<ResourceId, ThreadId>, t: ThreadId)
    requires LocksAgree(recs0, owner0) && caller in recs0
    requires HandedOff(recs0[caller].held, recs0, recs, owner)
    requires t in recs && t != caller
    ensures NoRepeats(recs[t].held)
  {
    var released := recs0[caller].held;
    var before := recs0[t].held;
    var h := HandedTo(recs0[t], released, owner, t);
    assert recs[t].held == before + h;
    forall i, j | 0 <= i < j < |recs[t].held| ensures recs[t].held[i] != recs[t].held[j]
    {
      if j >= |before| {
        assert recs[t].held[j] == h[0] && h[0] in released;
        assert owner0[h[0]] == caller;
        assert recs[t].held[i] == before[i];
        assert owner0[before[i]] == t;
      }
    }
  }

  lemma {:induction false} ReleaseKeepsOwners(recs0: Registry, owner0: map<ResourceId, ThreadId>, waiters: Waiters,
                                              caller: ThreadId, recs: Registry, owner: map<ResourceId, ThreadId>)
    requires LocksAgree(recs0, owner0) && WaitsAgree(recs0, owner0, waiters)
    requires caller in recs0 && recs0[caller].waitsOn == None
    requires ReleasedLocks(recs0[caller].held, owner0, waiters, owner)
    requires HandedOff(recs0[caller].held, recs0, recs, owner)
    ensures forall r :: r in owner ==> owner[r] in recs - {caller} && r in (recs - {caller})[owner[r]].held
  {
    forall r | r in owner
      ensures owner[r] in recs && owner[r] != caller && r in recs[owner[r]].held
    {
      OwnerAfterRelease(recs0, owner0, waiters, caller, recs, owner, r);
    }
  }

  lemma {:induction false} ReleaseKeepsHeld(recs0: Registry, owner0: map<ResourceId, ThreadId>, waiters: Waiters,
                                            caller: ThreadId, recs: Registry, owner: map<ResourceId, ThreadId>)
    requires LocksAgree(recs0, owner0) && caller in recs0
    requires ReleasedLocks(recs0[caller].held, owner0, waiters, owner)
    requires HandedOff(recs0[caller].held, recs0, recs, owner)
    ensures forall t, r :: t in recs - {caller} && r in (recs - {caller})[t].held ==> r in owner && owner[r] == t
  {
    forall t, r | t in recs && t != caller && r in recs[t].held
      ensures r in owner && owner[r] == t
    {
      HeldAfterRelease(recs0, owner0, waiters, caller, recs, owner, t, r);
    }
  }

  lemma {:induction false} ReleaseKeepsLocks(recs0: Registry, owner0: map<ResourceId, ThreadId>, waiters: Waiters,
                                             caller: ThreadId, recs: Registry, owner: map<ResourceId, ThreadId>)
    requires LocksAgree(recs0, owner0) && WaitsAgree(recs0, owner0, waiters)
    requires caller in recs0 && recs0[caller].waitsOn == None
    requires ReleasedLocks(recs0[caller].held, owner0, waiters, owner)
    requires HandedOff(recs0[caller].held, recs0, recs, owner)
    ensures LocksAgree(recs - {caller}, owner)
  {
    ReleaseKeepsOwners(recs0, owner0, waiters, caller, recs, owner);
    ReleaseKeepsHeld(recs0, owner0, waiters, caller, recs, owner);
    var recs' := recs - {caller};
    forall t | t in recs' ensures NoRepeats(recs'[t].held)
    {
      NoRepeatsAfterRelease(recs0, owner0, waiters, caller, recs, owner, t);
    }
  }

  /** A release changes no wait edge. */
  lemma HandedOffEdges(released: seq<ResourceId>, recs0: Registry, recs: Registry, owner: map<ResourceId, ThreadId>)
    requires HandedOff(released, recs0, recs, owner)
    ensures recs.Keys == recs0.Keys && forall t :: t in recs0 ==> recs[t].waitsOn == recs0[t].waitsOn
  {
    forall t | t in recs0 ensures recs[t].waitsOn == recs0[t].waitsOn
    {
      assert recs[t] == recs0[t].(held := recs0[t].held + HandedTo(recs0[t], released, owner, t),
                                  permits := recs0[t].permits + |HandedTo(recs0[t], released, owner, t)|);
    }
  }

  /** Dropping the record of a transaction that waits on nothing, with every queued resource still owned. */
  lemma DropIdle(recs: Registry, owner: map<ResourceId, ThreadId>, waiters: Waiters, caller: ThreadId,
                 owner': map<ResourceId, ThreadId>)
    requires WaitsAgree(recs, owner, waiters)
    requires caller in recs && recs[caller].waitsOn == None
    requires forall r :: r in waiters ==> r in owner'
    ensures WaitsAgree(recs - {caller}, owner', waiters)
  {
    forall r, t | r in waiters && t in waiters[r] ensures t in recs - {caller}
    {
      assert recs[t].waitsOn == Some(r);
    }
  }

  lemma {:induction false} ReleaseKeepsWaits(recs0: Registry, owner0: map<ResourceId, ThreadId>, waiters: Waiters,
                                             caller: ThreadId, recs: Registry, owner: map<ResourceId, ThreadId>)
    requires LocksAgree(recs0, owner0) && WaitsAgree(recs0, owner0, waiters)
    requires caller in recs0 && recs0[caller].waitsOn == None
    requires ReleasedLocks(recs0[caller].held, owner0, waiters, owner)
    requires HandedOff(recs0[caller].held, recs0, recs, owner)
    ensures WaitsAgree(recs - {caller}, owner, waiters)
  {
    forall r | r in waiters ensures r in owner
    {
      if r !in recs0[caller].held {
        OwnedByCallerReleased(recs0, owner0, caller, r);
      }
    }
    HandedOffEdges(recs0[caller].held, recs0, recs, owner);
    WaitsFrame(recs0, owner0, waiters, recs);
    DropIdle(recs, owner0, waiters, caller, owner);
  }

  /**
   * After every held resource of `caller` was let go and `caller`'s record
   * dropped, the tables are consistent again.
   */
  lemma {:induction false} ReleasePreserves(ids: set<ResourceId>, values: Values, recs0: Registry,
                                            owner0: map<ResourceId, ThreadId>, waiters: Waiters, caller: ThreadId,
                                            recs: Registry, owner: map<ResourceId, ThreadId>)
    requires Consistent(ids, values, recs0, owner0, waiters)
    requires caller in recs0 && recs0[caller].waitsOn == None
    requires ReleasedLocks(recs0[caller].held, owner0, waiters, owner)
    requires HandedOff(recs0[caller].held, recs0, recs, owner)
    ensures Consistent(ids, values, recs - {caller}, owner, waiters)
    ensures HandedOff(recs0[caller].held, recs0 - {caller}, recs - {caller}, owner)
  {
    ReleaseKeepsRegistered(ids, values, recs0, owner0, waiters, caller, recs, owner);
    ReleaseKeepsLocks(recs0, owner0, waiters, caller, recs, owner);
    ReleaseKeepsWaits(recs0, owner0, waiters, caller, recs, owner);
  }

  /**
   * The loop of `finishCurrentTransaction` over the caller's held locks:
   * a lock with waiters goes to one of them (chosen arbitrarily, as the
   * first element of a hash set is), which gets it in its held list and one
   * permit; a lock without waiters becomes free. The caller's record is
   * dropped at the end.
   */
  method ReleaseAll(ids: set<ResourceId>, values: Values, recs0: Registry,
                    owner0: map<ResourceId, ThreadId>, waiters: Waiters, caller: ThreadId)
    returns (recs: Registry, owner: map<ResourceId, ThreadId>)
    requires Consistent(ids, values, recs0, owner0, waiters)
    requires caller in recs0 && recs0[caller].waitsOn == None
    ensures Consistent(ids, values, recs, owner, waiters)
    ensures ReleasedLocks(recs0[caller].held, owner0, waiters, owner)
    ensures HandedOff(recs0[caller].held, recs0 - {caller}, recs, owner)
  {
    var table: Registry, locks: map<ResourceId, ThreadId> := recs0, owner0;
    var held := recs0[caller].held;
    assert NoRepeats(held);
    var i := 0;
    ReleaseStart(held, recs0, owner0, waiters);
    while i < |held|
      invariant ReleaseProgress(held, recs0, owner0, waiters, i, table, locks)
    {
      var rid := held[i];
      if rid in waiters {
        assert waiters[rid] != {};
        var w :| w in waiters[rid];
        WaiterOf(recs0, owner0, waiters, rid, w);
        ReleaseHandoff(held, recs0, owner0, waiters, i, table, locks, w);
        locks := locks[rid := w];
        table := table[w := table[w].(held := table[w].held + [rid], permits := table[w].permits + 1)];
      } else {
        ReleaseFree(held, recs0, owner0, waiters, i, table, locks);
        locks := locks - {rid};
      }
      i := i + 1;
    }
    assert held[..i] == held;
    ReleasePreserves(ids, values, recs0, owner0, waiters, caller, table, locks);
    recs, owner := table - {caller}, locks;
  }
}
