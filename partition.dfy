/**
 * `ThreadsInfo` of the multi-threaded PageRank computer: `n` indices are
 * split into contiguous ranges, one per thread. The first `n % numThreads`
 * threads take `n / numThreads + 1` indices each, the others
 * `n / numThreads`; only `min(n, numThreads)` threads are used.
 *
 * Machine widths are written out: `size_t` arithmetic is modulo 2^64,
 * `uint32_t` arithmetic and casts modulo 2^32.
 */
module Partition {

  const SizeModulus: int := 0x1_0000_0000_0000_0000
  const Uint32Modulus: int := 0x1_0000_0000

  function Min(a: int, b: int): int
  {
    if a <= b then a else b
  }

  /** The four fields the constructor sets. */
  datatype ThreadsInfo = ThreadsInfo(threadsUsed: nat, perThreadInFirstGroup: nat,
                                     perThreadInSecondGroup: nat, threadsInFirstGroup: nat)

  /** What the constructor's arguments must be: a `size_t` count and a non-zero `uint32_t` thread count. */
  predicate Arguments(n: int, numThreads: int)
  {
    0 <= n < SizeModulus && 0 < numThreads < Uint32Modulus
  }

  /**
   * The constructor as written: the node count is cast to `uint32_t`
   * before it is compared with the thread count.
   */
  function NewThreadsInfoAsWritten(n: nat, numThreads: nat): ThreadsInfo
    requires Arguments(n, numThreads)
  {
    ThreadsInfo(Min(n % Uint32Modulus, numThreads), n / numThreads + 1, n / numThreads, n % numThreads)
  }

  /** The constructor as intended: no more threads than nodes, compared without truncation. */
  function NewThreadsInfo(n: nat, numThreads: nat): ThreadsInfo
    requires Arguments(n, numThreads)
  {
    ThreadsInfo(Min(n, numThreads), n / numThreads + 1, n / numThreads, n % numThreads)
  }

  /** `getThreadFirstIndex`, in `size_t` arithmetic. */
  function FirstIndex(info: ThreadsInfo, t: nat): nat
  {
    if t < info.threadsInFirstGroup then
      (t * info.perThreadInFirstGroup) % SizeModulus
    else
      (info.threadsInFirstGroup * info.perThreadInFirstGroup
        + (t - info.threadsInFirstGroup) * info.perThreadInSecondGroup) % SizeModulus
  }

  /** `getThreadLastIndex`, in `size_t` arithmetic (`threadNumber + 1` is a `uint32_t` sum). */
  function LastIndex(info: ThreadsInfo, t: nat): nat
  {
    if t < info.threadsInFirstGroup then
      (((t + 1) % Uint32Modulus) * info.perThreadInFirstGroup - 1) % SizeModulus
    else
      (info.threadsInFirstGroup * info.perThreadInFirstGroup
        + (t - info.threadsInFirstGroup + 1) * info.perThreadInSecondGroup - 1) % SizeModulus
  }

  /**
   * Reference definition of where thread `t`'s range starts: every thread
   * before it took `n / numThreads` indices, and the first `n % numThreads`
   * of them one more.
   */
  function Start(n: nat, numThreads: nat, t: nat): nat
    requires numThreads > 0
  {
    t * (n / numThreads) + Min(t, n % numThreads)
  }

  lemma StartMonotonic(n: nat, numThreads: nat, s: nat, t: nat)
    requires numThreads > 0 && s <= t
    ensures Start(n, numThreads, s) <= Start(n, numThreads, t)
  {
    var q := n / numThreads;
    assert s * q <= t * q by {
      assert t * q == s * q + (t - s) * q;
    }
  }

  /** The used threads end exactly at `n`. */
  lemma StartOfUnused(n: nat, numThreads: nat)
    requires Arguments(n, numThreads)
    ensures Start(n, numThreads, Min(n, numThreads)) == n
  {
    var q, r := n / numThreads, n % numThreads;
    if n < numThreads {
      assert q == 0 && r == n;
    } else {
      assert n == numThreads * q + r;
    }
  }

  /** Every used thread gets at least one index, and the used ranges stay below `n`. */
  lemma StartGrows(n: nat, numThreads: nat, t: nat)
    requires Arguments(n, numThreads)
    requires t < Min(n, numThreads)
    ensures Start(n, numThreads, t) < Start(n, numThreads, t + 1) <= n
  {
    var q, r := n / numThreads, n % numThreads;
    StartMonotonic(n, numThreads, t + 1, Min(n, numThreads));
    StartOfUnused(n, numThreads);
    assert (t + 1) * q == t * q + q;
    if q == 0 {
      assert n < numThreads && r == n;
    }
  }

  lemma MulSuccessor(a: int, b: int)
    ensures a * (b + 1) == a * b + a
  {
  }

  lemma MulDifference(a: int, b: int, c: int)
    ensures (a - b) * c == a * c - b * c
  {
  }

  /** A value already in `size_t` range is unchanged by the wrap. */
  lemma NoWrap(x: int)
    requires 0 <= x < SizeModulus
    ensures x % SizeModulus == x
  {
  }

  /** A value already in `uint32_t` range is unchanged by the wrap. */
  lemma NoWrap32(x: int)
    requires 0 <= x < Uint32Modulus
    ensures x % Uint32Modulus == x
  {
  }

  lemma FirstIndexMatchesStart(n: nat, numThreads: nat, t: nat)
    requires Arguments(n, numThreads)
    requires t < Min(n, numThreads)
    ensures FirstIndex(NewThreadsInfo(n, numThreads), t) == Start(n, numThreads, t)
  {
    var info := NewThreadsInfo(n, numThreads);
    var q, r := n / numThreads, n % numThreads;
    var start := Start(n, numThreads, t);
    StartGrows(n, numThreads, t);
    if t < r {
      MulSuccessor(t, q);
      NoWrap(start);
    } else {
      MulSuccessor(r, q);
      MulDifference(t, r, q);
      NoWrap(start);
    }
  }

  lemma LastIndexMatchesStart(n: nat, numThreads: nat, t: nat)
    requires Arguments(n, numThreads)
    requires t < Min(n, numThreads)
    ensures LastIndex(NewThreadsInfo(n, numThreads), t) == Start(n, numThreads, t + 1) - 1
  {
    var info := NewThreadsInfo(n, numThreads);
    var q, r := n / numThreads, n % numThreads;
    var last := Start(n, numThreads, t + 1) - 1;
    StartGrows(n, numThreads, t);
    NoWrap32(t + 1);
    if t < r {
      assert LastIndex(info, t) == ((t + 1) * (q + 1) - 1) % SizeModulus;
      MulSuccessor(t + 1, q);
      NoWrap(last);
    } else {
      assert LastIndex(info, t) == (r * (q + 1) + (t - r + 1) * q - 1) % SizeModulus;
      MulSuccessor(r, q);
      MulDifference(t + 1, r, q);
      NoWrap(last);
    }
  }

  /** Both getters agree with the reference start for every used thread, and nothing wraps. */
  lemma IndicesMatchStart(n: nat, numThreads: nat, t: nat)
    requires Arguments(n, numThreads)
    requires t < Min(n, numThreads)
    ensures FirstIndex(NewThreadsInfo(n, numThreads), t) == Start(n, numThreads, t)
    ensures LastIndex(NewThreadsInfo(n, numThreads), t) == Start(n, numThreads, t + 1) - 1
    ensures Start(n, numThreads, t) < Start(n, numThreads, t + 1) <= n
  {
    StartGrows(n, numThreads, t);
    FirstIndexMatchesStart(n, numThreads, t);
    LastIndexMatchesStart(n, numThreads, t);
  }

  /** Thread 0 starts at index 0. */
  lemma FirstThreadStartsAtZero(n: nat, numThreads: nat)
    requires Arguments(n, numThreads) && n > 0
    ensures NewThreadsInfo(n, numThreads).threadsUsed > 0
    ensures FirstIndex(NewThreadsInfo(n, numThreads), 0) == 0
  {
    IndicesMatchStart(n, numThreads, 0);
  }

  /** Consecutive used ranges touch: each one starts right after the previous one ends. */
  lemma RangesAreContiguous(n: nat, numThreads: nat, t: nat)
    requires Arguments(n, numThreads)
    requires t + 1 < NewThreadsInfo(n, numThreads).threadsUsed
    ensures FirstIndex(NewThreadsInfo(n, numThreads), t + 1) == LastIndex(NewThreadsInfo(n, numThreads), t) + 1
  {
    IndicesMatchStart(n, numThreads, t);
    IndicesMatchStart(n, numThreads, t + 1);
  }

  /** The last used thread ends at index `n - 1`. */
  lemma LastThreadEndsAtEnd(n: nat, numThreads: nat)
    requires Arguments(n, numThreads) && n > 0
    ensures LastIndex(NewThreadsInfo(n, numThreads), NewThreadsInfo(n, numThreads).threadsUsed - 1) == n - 1
  {
    var used := Min(n, numThreads);
    IndicesMatchStart(n, numThreads, used - 1);
    StartOfUnused(n, numThreads);
  }

  /**
   * Range lengths: `n / numThreads + 1` in the first group and
   * `n / numThreads` after it, so no two differ by more than one and no
   * used range is empty.
   */
  lemma RangeLengths(n: nat, numThreads: nat, t: nat)
    requires Arguments(n, numThreads)
    requires t < NewThreadsInfo(n, numThreads).threadsUsed
    ensures var len := LastIndex(NewThreadsInfo(n, numThreads), t) - FirstIndex(NewThreadsInfo(n, numThreads), t) + 1;
      && len == (if t < n % numThreads then n / numThreads + 1 else n / numThreads)
      && len >= 1
  {
    IndicesMatchStart(n, numThreads, t);
  }

  lemma RangeLengthsBalanced(n: nat, numThreads: nat, s: nat, t: nat)
    requires Arguments(n, numThreads)
    requires s < NewThreadsInfo(n, numThreads).threadsUsed && t < NewThreadsInfo(n, numThreads).threadsUsed
    ensures var info := NewThreadsInfo(n, numThreads);
      var ls := LastIndex(info, s) - FirstIndex(info, s);
      var lt := LastIndex(info, t) - FirstIndex(info, t);
      -1 <= ls - lt <= 1
  {
    RangeLengths(n, numThreads, s);
    RangeLengths(n, numThreads, t);
  }

  /** The indices from `a` up to, but not including, `b`. */
  function Interval(a: nat, b: nat): (s: seq<nat>)
    requires a <= b
    ensures |s| == b - a && forall k :: 0 <= k < |s| ==> s[k] == a + k
  {
    seq(b - a, k requires 0 <= k < b - a => a + k)
  }

  /** The indices visited by the loops of threads `0 .. t - 1`, each from its first to its last index. */
  function Visited(info: ThreadsInfo, t: nat): seq<int>
  {
    if t == 0 then []
    else
      var a, b := FirstIndex(info, t - 1), LastIndex(info, t - 1);
      Visited(info, t - 1) + (if a <= b + 1 then Interval(a, b + 1) else [])
  }

  /**
   * The per-thread loops over `[first, last]` visit, together and in
   * thread order, every index in `[0, n)` exactly once.
   */
  lemma {:induction false} VisitedCoversAll(n: nat, numThreads: nat, t: nat)
    requires Arguments(n, numThreads)
    requires t <= NewThreadsInfo(n, numThreads).threadsUsed
    ensures Visited(NewThreadsInfo(n, numThreads), t) == Interval(0, Start(n, numThreads, t))
  {
    if t > 0 {
      VisitedCoversAll(n, numThreads, t - 1);
      IndicesMatchStart(n, numThreads, t - 1);
      var info := NewThreadsInfo(n, numThreads);
      var a, b := Start(n, numThreads, t - 1), Start(n, numThreads, t);
      assert Interval(0, a) + Interval(a, b) == Interval(0, b);
    }
  }

  lemma AllIndicesVisitedOnce(n: nat, numThreads: nat)
    requires Arguments(n, numThreads)
    ensures Visited(NewThreadsInfo(n, numThreads), NewThreadsInfo(n, numThreads).threadsUsed) == Interval(0, n)
  {
    VisitedCoversAll(n, numThreads, Min(n, numThreads));
    StartOfUnused(n, numThreads);
  }

  /**
   * Below 2^32 nodes the cast changes nothing: the constructor as written
   * is the intended one, so its ranges, too, are exactly `0, 1, ..., n - 1`;
   * with 2^32 nodes or more they differ as soon as `n mod 2^32` is below the
   * thread count.
   */
  lemma AsWrittenPartitionsBelow32Bits(n: nat, numThreads: nat)
    requires Arguments(n, numThreads)
    ensures n < Uint32Modulus ==> NewThreadsInfoAsWritten(n, numThreads) == NewThreadsInfo(n, numThreads)
    ensures n < Uint32Modulus ==>
      Visited(NewThreadsInfoAsWritten(n, numThreads), NewThreadsInfoAsWritten(n, numThreads).threadsUsed) == Interval(0, n)
    ensures n >= Uint32Modulus && n % Uint32Modulus < numThreads ==>
      NewThreadsInfoAsWritten(n, numThreads).threadsUsed < NewThreadsInfo(n, numThreads).threadsUsed
  {
    if n < Uint32Modulus {
      AllIndicesVisitedOnce(n, numThreads);
    }
  }

  /** Each index below `n` lies in the range of exactly one used thread. */
  lemma {:induction false} OwningThread(n: nat, numThreads: nat, i: nat) returns (t: nat)
    requires Arguments(n, numThreads) && i < n
    ensures t < NewThreadsInfo(n, numThreads).threadsUsed
    ensures FirstIndex(NewThreadsInfo(n, numThreads), t) <= i <= LastIndex(NewThreadsInfo(n, numThreads), t)
    ensures forall u :: 0 <= u < NewThreadsInfo(n, numThreads).threadsUsed && u != t ==>
              !(FirstIndex(NewThreadsInfo(n, numThreads), u) <= i <= LastIndex(NewThreadsInfo(n, numThreads), u))
  {
    var used := Min(n, numThreads);
    StartOfUnused(n, numThreads);
    t := 0;
    while Start(n, numThreads, t + 1) <= i
      invariant t < used && Start(n, numThreads, t) <= i
      decreases used - t
    {
      if t + 1 == used {
        assert false;
      }
      IndicesMatchStart(n, numThreads, t);
      t := t + 1;
    }
    IndicesMatchStart(n, numThreads, t);
    forall u | 0 <= u < used && u != t
      ensures !(FirstIndex(NewThreadsInfo(n, numThreads), u) <= i <= LastIndex(NewThreadsInfo(n, numThreads), u))
    {
      IndicesMatchStart(n, numThreads, u);
      if u < t {
        StartMonotonic(n, numThreads, u + 1, t);
      } else {
        StartMonotonic(n, numThreads, t + 1, u);
      }
    }
  }

  /**
   * The cast in the constructor as written: with 2^32 nodes no thread is
   * used at all, so no index would be visited.
   */
  lemma TruncatedCountUsesNoThread()
    ensures Arguments(Uint32Modulus, 4)
    ensures NewThreadsInfoAsWritten(Uint32Modulus, 4).threadsUsed == 0
    ensures Visited(NewThreadsInfoAsWritten(Uint32Modulus, 4), 0) == []
    ensures NewThreadsInfo(Uint32Modulus, 4).threadsUsed == 4
  {
  }
}
