/**
 * The chain walk of `removeDeadlock` as a function of the state it reads,
 * the "younger" order it uses to pick a victim, and what it takes for the
 * walk to stop.
 */
module Deadlock {
  import opened Base

  /** The part of the manager's state that the walk reads. */
  datatype WaitGraph = WaitGraph(
    owner: map<ResourceId, ThreadId>,    // whatThreadHasLockOnResource
    waitsOn: map<ThreadId, ResourceId>,  // the transactions whose waits-on field is not null
    startTime: map<ThreadId, Time>)      // the registered transactions' start times

  /** The walk's verdict: a cycle back to the caller, and the transaction to abort. */
  datatype Detection = Detection(deadlock: bool, victim: ThreadId)

  /** `checkIfFirstThreadYounger`: a later start wins; equal starts go to the larger thread id. */
  predicate Younger(time1: Time, id1: ThreadId, time2: Time, id2: ThreadId)
  {
    time1 > time2 || (time1 == time2 && id1 > id2)
  }

  /** "Younger" is a strict total order on distinct transactions. */
  lemma YoungerIsStrictTotalOrder(s1: Time, i1: ThreadId, s2: Time, i2: ThreadId, s3: Time, i3: ThreadId)
    ensures !Younger(s1, i1, s1, i1)
    ensures Younger(s1, i1, s2, i2) ==> !Younger(s2, i2, s1, i1)
    ensures Younger(s1, i1, s2, i2) && Younger(s2, i2, s3, i3) ==> Younger(s1, i1, s3, i3)
    ensures i1 != i2 ==> Younger(s1, i1, s2, i2) || Younger(s2, i2, s1, i1)
  {
  }

  /**
   * What the walk needs so that no lookup fails: every waited-on resource is
   * owned, and every waiter and owner is registered.
   */
  ghost predicate WellFormed(g: WaitGraph)
  {
    && (forall t :: t in g.waitsOn ==> t in g.startTime && g.waitsOn[t] in g.owner)
    && (forall r :: r in g.owner ==> g.owner[r] in g.startTime)
  }

  predicate YoungerIn(g: WaitGraph, t1: ThreadId, t2: ThreadId)
    requires t1 in g.startTime && t2 in g.startTime
  {
    Younger(g.startTime[t1], t1, g.startTime[t2], t2)
  }

  /** One step of the walk: the owner of the resource `t` waits on. */
  function Next(g: WaitGraph, t: ThreadId): (u: ThreadId)
    requires WellFormed(g) && t in g.waitsOn
    ensures u in g.startTime
  {
    var r := g.waitsOn[t];
    assert r in g.owner;
    g.owner[r]
  }

  /** The loop condition fails: back at the caller, or at a transaction that waits on nothing. */
  predicate Stops(g: WaitGraph, caller: ThreadId, t: ThreadId)
  {
    t == caller || t !in g.waitsOn
  }

  /** The walk from `t` stops within `k` steps. */
  ghost predicate ChainExits(g: WaitGraph, caller: ThreadId, t: ThreadId, k: nat)
    requires WellFormed(g)
    decreases k
  {
    Stops(g, caller, t) || (k > 0 && ChainExits(g, caller, Next(g, t), k - 1))
  }

  /** A longer bound is as good as a shorter one. */
  lemma {:induction false} ChainExitsMonotonic(g: WaitGraph, caller: ThreadId, t: ThreadId, k: nat, k': nat)
    requires WellFormed(g) && ChainExits(g, caller, t, k) && k <= k'
    ensures ChainExits(g, caller, t, k')
    decreases k
  {
    if !Stops(g, caller, t) {
      ChainExitsMonotonic(g, caller, Next(g, t), k - 1, k' - 1);
    }
  }

  /**
   * The acyclicity the walk relies on: every waiting transaction other than
   * the caller has a rank, and a step that does not stop lowers the rank.
   */
  ghost predicate Acyclic(g: WaitGraph, caller: ThreadId, rank: map<ThreadId, nat>)
    requires WellFormed(g)
  {
    forall t :: t in g.waitsOn && t != caller ==>
      && t in rank
      && (Stops(g, caller, Next(g, t)) || (Next(g, t) in rank && rank[Next(g, t)] < rank[t]))
  }

  function Bound(rank: map<ThreadId, nat>, t: ThreadId): nat
  {
    if t in rank then rank[t] + 1 else 0
  }

  /** Under the acyclicity invariant the walk stops, within the start's rank plus one steps. */
  lemma {:induction false} AcyclicChainExits(g: WaitGraph, caller: ThreadId, rank: map<ThreadId, nat>, t: ThreadId)
    requires WellFormed(g) && Acyclic(g, caller, rank)
    ensures ChainExits(g, caller, t, Bound(rank, t))
    decreases Bound(rank, t)
  {
    if !Stops(g, caller, t) {
      var u := Next(g, t);
      if !Stops(g, caller, u) {
        AcyclicChainExits(g, caller, rank, u);
        ChainExitsMonotonic(g, caller, u, Bound(rank, u), Bound(rank, t) - 1);
      }
    }
  }

  /**
   * A transaction other than the caller that owns the very resource it waits
   * on (the state a lock handoff leaves until the woken thread cleans up)
   * sends the walk round forever: no bound suffices.
   */
  lemma {:induction false} SelfWaitNeverExits(g: WaitGraph, caller: ThreadId, w: ThreadId, k: nat)
    requires WellFormed(g) && w != caller && w in g.waitsOn && Next(g, w) == w
    ensures !ChainExits(g, caller, w, k)
    decreases k
  {
    if k > 0 {
      SelfWaitNeverExits(g, caller, w, k - 1);
    }
  }

  /**
   * The stop the walk evidently needs as well: at a transaction that owns
   * the resource it waits on. Such a transaction was handed that lock and
   * only has not yet left its queue; it waits for nobody.
   */
  predicate StopsAtHandoff(g: WaitGraph, caller: ThreadId, t: ThreadId)
    requires WellFormed(g)
  {
    Stops(g, caller, t) || Next(g, t) == t
  }

  /** The corrected walk from `t` stops within `k` steps. */
  ghost predicate ChainExitsAtHandoff(g: WaitGraph, caller: ThreadId, t: ThreadId, k: nat)
    requires WellFormed(g)
    decreases k
  {
    StopsAtHandoff(g, caller, t) || (k > 0 && ChainExitsAtHandoff(g, caller, Next(g, t), k - 1))
  }

  /** The corrected walk stops no later than the walk as written. */
  lemma {:induction false} ChainExitsAtHandoffSooner(g: WaitGraph, caller: ThreadId, t: ThreadId, k: nat)
    requires WellFormed(g) && ChainExits(g, caller, t, k)
    ensures ChainExitsAtHandoff(g, caller, t, k)
    decreases k
  {
    if !StopsAtHandoff(g, caller, t) {
      ChainExitsAtHandoffSooner(g, caller, Next(g, t), k - 1);
    }
  }

  lemma {:induction false} ChainExitsAtHandoffMonotonic(g: WaitGraph, caller: ThreadId, t: ThreadId, k: nat, k': nat)
    requires WellFormed(g) && ChainExitsAtHandoff(g, caller, t, k) && k <= k'
    ensures ChainExitsAtHandoff(g, caller, t, k')
    decreases k
  {
    if !StopsAtHandoff(g, caller, t) {
      ChainExitsAtHandoffMonotonic(g, caller, Next(g, t), k - 1, k' - 1);
    }
  }

  /**
   * Acyclicity apart from handed-over locks: every step that does not stop
   * at a handoff lowers the rank. A transaction owning the resource it
   * waits on is allowed.
   */
  ghost predicate AcyclicButHandoffs(g: WaitGraph, caller: ThreadId, rank: map<ThreadId, nat>)
    requires WellFormed(g)
  {
    forall t :: t in g.waitsOn && t != caller && Next(g, t) != t ==>
      && t in rank
      && (StopsAtHandoff(g, caller, Next(g, t)) || (Next(g, t) in rank && rank[Next(g, t)] < rank[t]))
  }

  /**
   * The corrected walk stops in every state that is acyclic apart from
   * handoffs, the state `SelfWaitNeverExits` is about included, where it
   * stops at once.
   */
  lemma {:induction false} AcyclicButHandoffsChainExits(g: WaitGraph, caller: ThreadId, rank: map<ThreadId, nat>, t: ThreadId)
    requires WellFormed(g) && AcyclicButHandoffs(g, caller, rank)
    ensures ChainExitsAtHandoff(g, caller, t, Bound(rank, t))
    ensures t != caller && t in g.waitsOn && Next(g, t) == t ==> ChainExitsAtHandoff(g, caller, t, 0)
    decreases Bound(rank, t)
  {
    if !StopsAtHandoff(g, caller, t) {
      var u := Next(g, t);
      if !StopsAtHandoff(g, caller, u) {
        AcyclicButHandoffsChainExits(g, caller, rank, u);
        ChainExitsAtHandoffMonotonic(g, caller, u, Bound(rank, u), Bound(rank, t) - 1);
      }
    }
  }

  /**
   * Two transactions other than the caller that wait for each other (the
   * state an abort leaves until its victim leaves its queue) send both
   * walks round forever, the corrected one included.
   */
  lemma {:induction false} TwoCycleNeverExits(g: WaitGraph, caller: ThreadId, a: ThreadId, b: ThreadId, k: nat)
    requires WellFormed(g) && a != caller && b != caller && a != b
    requires a in g.waitsOn && b in g.waitsOn && Next(g, a) == b && Next(g, b) == a
    ensures !ChainExits(g, caller, a, k) && !ChainExits(g, caller, b, k)
    ensures !ChainExitsAtHandoff(g, caller, a, k) && !ChainExitsAtHandoff(g, caller, b, k)
    decreases k
  {
    if k > 0 {
      TwoCycleNeverExits(g, caller, a, b, k - 1);
    }
  }

  /**
   * The `while` loop: from `t`, remember the youngest transaction passed,
   * step to the next owner until the walk stops.
   */
  function Walk(g: WaitGraph, caller: ThreadId, t: ThreadId, youngest: ThreadId, k: nat): Detection
    requires WellFormed(g) && t in g.startTime && youngest in g.startTime
    requires ChainExits(g, caller, t, k)
    decreases k
  {
    if Stops(g, caller, t) then Detection(t == caller, youngest)
    else Walk(g, caller, Next(g, t), if YoungerIn(g, t, youngest) then t else youngest, k - 1)
  }

  /**
   * The corrected loop: as `Walk`, but it also stops, reporting no
   * deadlock, at a transaction that was handed the lock it waits on.
   */
  function WalkAtHandoff(g: WaitGraph, caller: ThreadId, t: ThreadId, youngest: ThreadId, k: nat): Detection
    requires WellFormed(g) && t in g.startTime && youngest in g.startTime
    requires ChainExitsAtHandoff(g, caller, t, k)
    decreases k
  {
    if StopsAtHandoff(g, caller, t) then Detection(t == caller, youngest)
    else WalkAtHandoff(g, caller, Next(g, t), if YoungerIn(g, t, youngest) then t else youngest, k - 1)
  }

  /** At a handed-over lock the corrected walk stops at once and reports no deadlock. */
  lemma HandoffIsNoDeadlock(g: WaitGraph, caller: ThreadId, w: ThreadId, youngest: ThreadId)
    requires WellFormed(g) && w != caller && w in g.waitsOn && Next(g, w) == w && youngest in g.startTime
    ensures ChainExitsAtHandoff(g, caller, w, 0)
    ensures WalkAtHandoff(g, caller, w, youngest, 0) == Detection(false, youngest)
  {
  }

  /**
   * Wherever the walk as written stops, the corrected one stops too and
   * gives the same verdict: a handoff can only be met on a walk that never
   * ends.
   */
  lemma {:induction false} WalkAtHandoffAgrees(g: WaitGraph, caller: ThreadId, t: ThreadId, youngest: ThreadId, k: nat)
    requires WellFormed(g) && t in g.startTime && youngest in g.startTime
    requires ChainExits(g, caller, t, k)
    ensures ChainExitsAtHandoff(g, caller, t, k)
    ensures WalkAtHandoff(g, caller, t, youngest, k) == Walk(g, caller, t, youngest, k)
    decreases k
  {
    ChainExitsAtHandoffSooner(g, caller, t, k);
    if !Stops(g, caller, t) {
      if Next(g, t) == t {
        SelfWaitNeverExits(g, caller, t, k);
        assert false;
      }
      WalkAtHandoffAgrees(g, caller, Next(g, t), if YoungerIn(g, t, youngest) then t else youngest, k - 1);
    }
  }

  /** The transactions the loop body looks at, in walk order. */
  function Chain(g: WaitGraph, caller: ThreadId, t: ThreadId, k: nat): (c: seq<ThreadId>)
    requires WellFormed(g) && ChainExits(g, caller, t, k)
    ensures forall i :: 0 <= i < |c| ==> c[i] in g.waitsOn && c[i] in g.startTime
    decreases k
  {
    if Stops(g, caller, t) then [] else [t] + Chain(g, caller, Next(g, t), k - 1)
  }

  /** Where the walk stops. */
  function End(g: WaitGraph, caller: ThreadId, t: ThreadId, k: nat): ThreadId
    requires WellFormed(g) && ChainExits(g, caller, t, k)
    decreases k
  {
    if Stops(g, caller, t) then t else End(g, caller, Next(g, t), k - 1)
  }

  /**
   * The chain is a path of wait edges: it starts at `t`, each member waits
   * for a resource owned by the next, the last one for a resource owned by
   * the transaction where the walk stops, and no member is the caller.
   */
  lemma {:induction false} ChainIsWaitPath(g: WaitGraph, caller: ThreadId, t: ThreadId, k: nat)
    requires WellFormed(g) && ChainExits(g, caller, t, k)
    ensures var c := Chain(g, caller, t, k);
      && (c == [] <==> Stops(g, caller, t))
      && (c != [] ==> c[0] == t)
      && (forall i :: 0 <= i < |c| ==> c[i] in g.waitsOn && c[i] != caller)
      && (forall i :: 0 <= i < |c| - 1 ==> Next(g, c[i]) == c[i + 1])
      && (c != [] ==> Next(g, c[|c| - 1]) == End(g, caller, t, k))
      && Stops(g, caller, End(g, caller, t, k))
    decreases k
  {
    if !Stops(g, caller, t) {
      var u := Next(g, t);
      ChainIsWaitPath(g, caller, u, k - 1);
      var c' := Chain(g, caller, u, k - 1);
      assert Chain(g, caller, t, k) == [t] + c';
    }
  }

  /**
   * The verdict: a deadlock exactly when the walk returns to the caller; the
   * victim is the youngest among the starting candidate and the chain.
   */
  lemma {:induction false} WalkPicksYoungest(g: WaitGraph, caller: ThreadId, t: ThreadId, youngest: ThreadId, k: nat)
    requires WellFormed(g) && t in g.startTime && youngest in g.startTime
    requires ChainExits(g, caller, t, k)
    ensures var d := Walk(g, caller, t, youngest, k);
      var c := Chain(g, caller, t, k);
      && (d.deadlock <==> End(g, caller, t, k) == caller)
      && (d.victim == youngest || d.victim in c)
      && d.victim in g.startTime
      && (forall m :: (m == youngest || m in c) && m != d.victim ==> YoungerIn(g, d.victim, m))
    decreases k
  {
    if !Stops(g, caller, t) {
      var y := if YoungerIn(g, t, youngest) then t else youngest;
      var u := Next(g, t);
      WalkPicksYoungest(g, caller, u, y, k - 1);
      var d := Walk(g, caller, u, y, k - 1);
      var c := Chain(g, caller, u, k - 1);
      assert Chain(g, caller, t, k) == [t] + c;
      forall m | (m == youngest || m == t || m in c) && m != d.victim
        ensures YoungerIn(g, d.victim, m)
      {
        if m == y || m in c {
          assert (m == y || m in c) && m != d.victim;
          assert YoungerIn(g, d.victim, m);
        } else {
          // m is the one of t and youngest that was not kept, so y is younger than m
          YoungerIsStrictTotalOrder(g.startTime[t], t, g.startTime[youngest], youngest,
                                    g.startTime[t], t);
          assert YoungerIn(g, y, m);
          if d.victim != y {
            assert YoungerIn(g, d.victim, y);
            YoungerIsStrictTotalOrder(g.startTime[d.victim], d.victim, g.startTime[y], y,
                                      g.startTime[m], m);
          }
          assert YoungerIn(g, d.victim, m);
        }
      }
    }
  }

  /**
   * `removeDeadlock` as written: the walk starts at the owner of `rid`
   * whoever that is, so an owner that is already the caller counts as a
   * cycle.
   */
  function DetectAsWritten(g: WaitGraph, caller: ThreadId, rid: ResourceId, bound: nat): Detection
    requires WellFormed(g) && caller in g.startTime
    requires rid in g.owner ==> ChainExits(g, caller, g.owner[rid], bound)
  {
    if rid in g.owner then Walk(g, caller, g.owner[rid], caller, bound)
    else Detection(false, caller)
  }

  /** The victim the walk picks is the caller or a transaction that waits. */
  lemma AsWrittenVictimWaits(g: WaitGraph, caller: ThreadId, rid: ResourceId, bound: nat)
    requires WellFormed(g) && caller in g.startTime
    requires rid in g.owner ==> ChainExits(g, caller, g.owner[rid], bound)
    ensures var d := DetectAsWritten(g, caller, rid, bound);
      d.victim == caller || d.victim in g.waitsOn
  {
    if rid in g.owner {
      WalkPicksYoungest(g, caller, g.owner[rid], caller, bound);
    }
  }

  /**
   * If the lock on `rid` has been handed to the caller before it runs the
   * walk, the code as written reports a deadlock and makes the caller its
   * own victim, although no transaction waits for another.
   */
  lemma HandedLockLooksLikeDeadlock(g: WaitGraph, caller: ThreadId, rid: ResourceId, bound: nat)
    requires WellFormed(g) && caller in g.startTime
    requires rid in g.owner && g.owner[rid] == caller
    ensures DetectAsWritten(g, caller, rid, bound) == Detection(true, caller)
    ensures Detect(g, caller, rid, bound) == Detection(false, caller)
  {
  }

  /**
   * The detection the model uses: as written, except that a lock already
   * owned by the caller (handed over while it was queuing) is no deadlock.
   */
  function Detect(g: WaitGraph, caller: ThreadId, rid: ResourceId, bound: nat): Detection
    requires WellFormed(g) && caller in g.startTime
    requires rid in g.owner && g.owner[rid] != caller ==> ChainExits(g, caller, g.owner[rid], bound)
  {
    if rid in g.owner && g.owner[rid] != caller then Walk(g, caller, g.owner[rid], caller, bound)
    else Detection(false, caller)
  }

  /**
   * A deadlock that `Detect` reports is a real cycle: the chain from the owner
   * of `rid` is not empty, runs along wait edges and ends in a resource
   * owned by the caller; the victim is the youngest of the caller and the
   * chain. Otherwise the walk ended at a transaction that waits on nothing,
   * or no other transaction holds `rid`.
   */
  lemma DetectReportsCycles(g: WaitGraph, caller: ThreadId, rid: ResourceId, bound: nat)
    requires WellFormed(g) && caller in g.startTime
    requires rid in g.owner && g.owner[rid] != caller ==> ChainExits(g, caller, g.owner[rid], bound)
    ensures var d := Detect(g, caller, rid, bound);
      if rid in g.owner && g.owner[rid] != caller then
        var c := Chain(g, caller, g.owner[rid], bound);
        && (d.deadlock <==> End(g, caller, g.owner[rid], bound) == caller)
        && (d.deadlock ==> |c| > 0 && c[0] == g.owner[rid] && Next(g, c[|c| - 1]) == caller)
        && (forall i :: 0 <= i < |c| - 1 ==> Next(g, c[i]) == c[i + 1])
        && (!d.deadlock ==> End(g, caller, g.owner[rid], bound) !in g.waitsOn)
        && (d.victim == caller || d.victim in c)
        && (forall m :: (m == caller || m in c) && m != d.victim ==> YoungerIn(g, d.victim, m))
      else d == Detection(false, caller)
  {
    if rid in g.owner && g.owner[rid] != caller {
      WalkPicksYoungest(g, caller, g.owner[rid], caller, bound);
      ChainIsWaitPath(g, caller, g.owner[rid], bound);
    }
  }
}
