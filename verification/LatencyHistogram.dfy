/** The eight-bucket latency histogram and its percentiles. */
module LatencyHistogram {
  import opened MachineInts

  const BUCKETS: nat := 8

  /** The upper bound of each bucket, in nanoseconds. */
  const BOUNDS: seq<uint64> :=
    [1_000, 5_000, 10_000, 50_000, 100_000, 500_000, 1_000_000, 0xFFFF_FFFF_FFFF_FFFF]

  lemma BoundsAscend()
    ensures |BOUNDS| == BUCKETS
    ensures forall i, j | 0 <= i <= j < BUCKETS :: BOUNDS[i] <= BOUNDS[j]
  {
  }

  /** The first bucket from `i` on whose bound exceeds the sample, or the last. */
  function BucketFrom(ns: uint64, i: nat): (b: nat)
    requires i < BUCKETS
    ensures i <= b < BUCKETS
    decreases BUCKETS - i
  {
    if i == BUCKETS - 1 || ns < BOUNDS[i] then i else BucketFrom(ns, i + 1)
  }

  function BucketOf(ns: uint64): (b: nat)
    ensures b < BUCKETS
  {
    BucketFrom(ns, 0)
  }

  /** A sample lies below its bucket's bound and not below any earlier one. */
  lemma {:induction false} BucketBounds(ns: uint64, i: nat)
    requires i < BUCKETS
    ensures
      var b := BucketFrom(ns, i);
      (forall k | i <= k < b :: BOUNDS[k] <= ns) && (b == BUCKETS - 1 || ns < BOUNDS[b])
    decreases BUCKETS - i
  {
    if i < BUCKETS - 1 && ns >= BOUNDS[i] { BucketBounds(ns, i + 1); }
  }

  lemma BucketMonotone(a: uint64, b: uint64)
    requires a <= b
    ensures BucketOf(a) <= BucketOf(b)
  {
    BucketBounds(a, 0);
    BucketBounds(b, 0);
  }

  /** How many samples fall in bucket `i`, and in bucket `i` or below. */
  function InBucket(s: seq<uint64>, i: nat): nat {
    if s == [] then 0 else InBucket(s[..|s| - 1], i) + if BucketOf(s[|s| - 1]) == i then 1 else 0
  }

  function UpTo(s: seq<uint64>, i: nat): nat {
    if s == [] then 0 else UpTo(s[..|s| - 1], i) + if BucketOf(s[|s| - 1]) <= i then 1 else 0
  }

  lemma {:induction false} UpToStep(s: seq<uint64>, i: nat)
    ensures UpTo(s, i) == InBucket(s, i) + if i == 0 then 0 else UpTo(s, i - 1)
    ensures UpTo(s, i) <= |s| && (i >= BUCKETS - 1 ==> UpTo(s, i) == |s|)
  {
    if s != [] { UpToStep(s[..|s| - 1], i); }
  }

  /** The walk over the buckets: the bound of the first one at which more than
      `target` samples have been counted. */
  function Walk(s: seq<uint64>, target: nat, i: nat): uint64
    requires i <= BUCKETS
    decreases BUCKETS - i
  {
    if i == BUCKETS then BOUNDS[BUCKETS - 1]
    else if UpTo(s, i) > target then BOUNDS[i]
    else Walk(s, target, i + 1)
  }

  function Target(p: real, n: nat): int {
    (p * n as real).Floor
  }

  function PercentileOf(s: seq<uint64>, p: real): uint64
    requires p >= 0.0
  {
    if s == [] then 0 else TargetNonNegative(p, |s|); Walk(s, Target(p, |s|), 0)
  }

  lemma TargetNonNegative(p: real, n: nat)
    requires p >= 0.0
    ensures Target(p, n) >= 0
  {
    assert p * n as real >= 0.0;
  }

  // ------------------------------------------------------------ the sort-based quantile

  ghost predicate Ascending(s: seq<uint64>) {
    forall i, j | 0 <= i <= j < |s| :: s[i] <= s[j]
  }

  lemma {:induction false} UpToConcat(a: seq<uint64>, b: seq<uint64>, i: nat)
    ensures UpTo(a + b, i) == UpTo(a, i) + UpTo(b, i)
  {
    if b == [] {
      assert a + b == a;
    } else {
      assert (a + b)[..|a + b| - 1] == a + b[..|b| - 1];
      UpToConcat(a, b[..|b| - 1], i);
    }
  }

  function Without(t: seq<uint64>, j: nat): seq<uint64>
    requires j < |t|
  {
    t[..j] + t[j + 1..]
  }

  lemma WithoutIsRemoval(t: seq<uint64>, j: nat, i: nat)
    requires j < |t|
    ensures multiset(t) == multiset(Without(t, j)) + multiset{t[j]}
    ensures UpTo(t, i) == UpTo(Without(t, j), i) + if BucketOf(t[j]) <= i then 1 else 0
  {
    var a, x, b := t[..j], [t[j]], t[j + 1..];
    assert t == a + (x + b);
    UpToConcat(a, b, i);
    UpToConcat(a, x + b, i);
    UpToConcat(x, b, i);
    assert x[..0] == [];
  }

  lemma SameLength(s: seq<uint64>, t: seq<uint64>)
    requires multiset(s) == multiset(t)
    ensures |s| == |t|
  {
    assert |multiset(s)| == |s| && |multiset(t)| == |t|;
  }

  lemma IndexIn(s: seq<uint64>, t: seq<uint64>, k: nat) returns (j: nat)
    requires multiset(s) == multiset(t) && k < |s|
    ensures j < |t| && t[j] == s[k]
    ensures multiset(Without(s, k)) == multiset(Without(t, j))
  {
    assert s[k] in multiset(s);
    assert s[k] in t;
    j :| 0 <= j < |t| && t[j] == s[k];
    WithoutIsRemoval(s, k, 0);
    WithoutIsRemoval(t, j, 0);
    assert multiset(Without(s, k)) == multiset(s) - multiset{s[k]};
    assert multiset(Without(t, j)) == multiset(t) - multiset{t[j]};
  }

  /** Counting does not depend on the order of the samples. */
  lemma {:induction false} UpToPermutation(s: seq<uint64>, t: seq<uint64>, i: nat)
    requires multiset(s) == multiset(t)
    ensures UpTo(s, i) == UpTo(t, i) && |s| == |t|
    decreases |s|
  {
    SameLength(s, t);
    if s != [] {
      var j := IndexIn(s, t, 0);
      UpToPermutation(Without(s, 0), Without(t, j), i);
      WithoutIsRemoval(s, 0, i);
      WithoutIsRemoval(t, j, i);
    }
  }

  /** In a sorted list the samples of the first buckets come first. */
  lemma {:induction false} SortedPrefix(s: seq<uint64>, i: nat, k: nat)
    requires Ascending(s) && k < |s|
    ensures k < UpTo(s, i) <==> BucketOf(s[k]) <= i
  {
    var n := |s| - 1;
    if BucketOf(s[n]) <= i {
      BucketMonotone(s[k], s[n]);
      AllUpTo(s, i);
    } else {
      UpToStep(s[..n], i);
      assert UpTo(s, i) == UpTo(s[..n], i) <= n;
      if k < n { SortedPrefix(s[..n], i, k); }
    }
  }

  lemma {:induction false} AllUpTo(s: seq<uint64>, i: nat)
    requires Ascending(s) && s != [] && BucketOf(s[|s| - 1]) <= i
    ensures UpTo(s, i) == |s|
  {
    var init := s[..|s| - 1];
    if init != [] {
      BucketMonotone(init[|init| - 1], s[|s| - 1]);
      AllUpTo(init, i);
    }
  }

  lemma {:induction false} WalkFinds(s: seq<uint64>, sorted: seq<uint64>, target: nat, i: nat)
    requires multiset(s) == multiset(sorted) && Ascending(sorted) && target < |sorted|
    requires i <= BucketOf(sorted[target])
    ensures Walk(s, target, i) == BOUNDS[BucketOf(sorted[target])]
    decreases BUCKETS - i
  {
    UpToPermutation(s, sorted, i);
    SortedPrefix(sorted, i, target);
    if i < BucketOf(sorted[target]) { WalkFinds(s, sorted, target, i + 1); }
  }

  /** The least of 1, 5, 10, 50, 100, 500 microseconds and one millisecond that a
      latency in nanoseconds lies below, or else the largest 64-bit number. */
  function LeastBoundAbove(ns: uint64): uint64 {
    if ns < 1_000 then 1_000
    else if ns < 5_000 then 5_000
    else if ns < 10_000 then 10_000
    else if ns < 50_000 then 50_000
    else if ns < 100_000 then 100_000
    else if ns < 500_000 then 500_000
    else if ns < 1_000_000 then 1_000_000
    else 0xFFFF_FFFF_FFFF_FFFF
  }

  lemma BucketBoundIsLeast(ns: uint64)
    ensures BOUNDS[BucketOf(ns)] == LeastBoundAbove(ns)
  {
    BucketBounds(ns, 0);
    BoundsAscend();
  }

  /** For 0 <= p < 1 the percentile is the least bound above element floor(p * n) of
      the sorted samples. */
  lemma PercentileIsQuantile(s: seq<uint64>, sorted: seq<uint64>, p: real)
    requires 0.0 <= p < 1.0 && s != []
    requires multiset(s) == multiset(sorted) && Ascending(sorted)
    ensures 0 <= (p * |s| as real).Floor < |sorted| == |s|
    ensures PercentileOf(s, p) == LeastBoundAbove(sorted[(p * |s| as real).Floor])
  {
    UpToPermutation(s, sorted, 0);
    TargetInRange(p, |s|);
    WalkFinds(s, sorted, Target(p, |s|), 0);
    BucketBoundIsLeast(sorted[Target(p, |s|)]);
  }

  lemma TargetInRange(p: real, n: nat)
    requires 0.0 <= p < 1.0 && n > 0
    ensures 0 <= Target(p, n) < n
  {
    TargetNonNegative(p, n);
    assert (1.0 - p) * n as real > 0.0;
    assert (1.0 - p) * n as real == n as real - p * n as real;
  }

  /** From p = 1 on, the target lies past every sample and the answer is the last
      bound, whatever the samples were. */
  lemma PercentileFromOne(s: seq<uint64>, p: real)
    requires p >= 1.0 && s != []
    ensures PercentileOf(s, p) == 0xFFFF_FFFF_FFFF_FFFF
  {
    var n := |s|;
    assert (p - 1.0) * n as real >= 0.0;
    assert (p - 1.0) * n as real == p * n as real - n as real;
    assert Target(p, n) >= n;
    WalkPastEnd(s, Target(p, n), 0);
  }

  /** So for p >= 1 it is the bound above the largest sample if and only if that sample
      is at least a millisecond. */
  lemma PercentileFromOneIff(s: seq<uint64>, sorted: seq<uint64>, p: real)
    requires p >= 1.0 && s != [] && multiset(s) == multiset(sorted) && Ascending(sorted)
    ensures |sorted| == |s|
    ensures PercentileOf(s, p) == LeastBoundAbove(sorted[|s| - 1]) <==> sorted[|s| - 1] >= 1_000_000
  {
    UpToPermutation(s, sorted, 0);
    PercentileFromOne(s, p);
  }

  lemma {:induction false} WalkPastEnd(s: seq<uint64>, target: nat, i: nat)
    requires i <= BUCKETS && target >= |s|
    ensures Walk(s, target, i) == BOUNDS[BUCKETS - 1]
    decreases BUCKETS - i
  {
    if i < BUCKETS {
      UpToStep(s, i);
      WalkPastEnd(s, target, i + 1);
    }
  }

  lemma {:induction false} WalkMonotone(s: seq<uint64>, a: nat, b: nat, i: nat)
    requires i <= BUCKETS && a <= b
    ensures Walk(s, a, i) <= Walk(s, b, i)
    ensures i < BUCKETS ==> BOUNDS[i] <= Walk(s, b, i)
    decreases BUCKETS - i
  {
    BoundsAscend();
    if i < BUCKETS { WalkMonotone(s, a, b, i + 1); }
  }

  lemma PercentileMonotone(s: seq<uint64>, p: real, q: real)
    requires 0.0 <= p <= q
    ensures PercentileOf(s, p) <= PercentileOf(s, q)
  {
    if s != [] {
      var n := |s| as real;
      assert (q - p) * n >= 0.0;
      assert (q - p) * n == q * n - p * n;
      TargetNonNegative(p, |s|);
      WalkMonotone(s, Target(p, |s|), Target(q, |s|), 0);
    }
  }

  // ------------------------------------------------------------ the object

  class LatencyHistogram {
    const buckets: array<nat>
    ghost var samples: seq<uint64>     // everything recorded since the last reset

    ghost predicate Valid()
      reads this, buckets
    {
      buckets.Length == BUCKETS && forall i | 0 <= i < BUCKETS :: buckets[i] == InBucket(samples, i)
    }

    constructor ()
      ensures Valid() && samples == [] && fresh(buckets)
    {
      buckets := new nat[BUCKETS](_ => 0);
      samples := [];
    }

    method Record(ns: uint64)
      requires Valid()
      modifies this, buckets
      ensures Valid() && samples == old(samples) + [ns]
    {
      ghost var after := samples + [ns];
      assert after[..|after| - 1] == samples;
      for i := 0 to BUCKETS
        invariant Valid() && samples == old(samples)
        invariant i < BUCKETS ==> BucketOf(ns) == BucketFrom(ns, i)
        invariant i == BUCKETS ==> BucketOf(ns) == BUCKETS - 1
      {
        if ns < BOUNDS[i] {
          buckets[i] := buckets[i] + 1;
          samples := after;
          return;
        }
      }
      buckets[BUCKETS - 1] := buckets[BUCKETS - 1] + 1;
      samples := after;
    }

    method Total() returns (n: nat)
      requires Valid()
      ensures n == |samples|
    {
      n := 0;
      for i := 0 to BUCKETS
        invariant n == if i == 0 then 0 else UpTo(samples, i - 1)
      {
        UpToStep(samples, i);
        n := n + buckets[i];
      }
      UpToStep(samples, BUCKETS - 1);
    }

    method Percentile(p: real) returns (bound: uint64)
      requires Valid() && p >= 0.0
      ensures bound == PercentileOf(samples, p)
      ensures samples == [] ==> bound == 0
    {
      var n := Total();
      if n == 0 { return 0; }
      TargetNonNegative(p, n);
      bound := BoundAt(Target(p, n));
    }

    /** The cumulative loop. */
    method BoundAt(target: nat) returns (bound: uint64)
      requires Valid()
      ensures bound == Walk(samples, target, 0)
    {
      var cumulative := 0;
      for i := 0 to BUCKETS
        invariant cumulative == if i == 0 then 0 else UpTo(samples, i - 1)
        invariant Walk(samples, target, i) == Walk(samples, target, 0)
      {
        UpToStep(samples, i);
        cumulative := cumulative + buckets[i];
        if cumulative > target { return BOUNDS[i]; }
      }
      bound := BOUNDS[BUCKETS - 1];
    }

    method Reset()
      requires Valid()
      modifies this, buckets
      ensures Valid() && samples == []
    {
      for i := 0 to BUCKETS
        invariant forall j | 0 <= j < i :: buckets[j] == 0
      {
        buckets[i] := 0;
      }
      samples := [];
    }
  }
}
