/** metrics/latency.go: the histogram, against the list of the values recorded in it. */
module Histograms {
  import opened Base
  import opened Buckets

  // ---------- The recorded values ----------

  function Count(data: seq<nat>, keep: nat -> bool): nat {
    if data == [] then 0 else (if keep(data[0]) then 1 else 0) + Count(data[1..], keep)
  }

  function InBucket(i: int): nat -> bool {
    (v: nat) => BucketIndex(v) == i
  }

  /** In a bucket before bucket `i`. */
  function Before(i: int): nat -> bool {
    (v: nat) => BucketIndex(v) < i
  }

  function Total(data: seq<nat>): nat {
    if data == [] then 0 else data[0] + Total(data[1..])
  }

  function Largest(data: seq<nat>): nat {
    if data == [] then 0 else Max(data[0], Largest(data[1..]))
  }

  /** Recorded values are durations, so they fit in 63 bits. */
  ghost predicate Durations(data: seq<nat>) {
    forall i :: 0 <= i < |data| ==> data[i] < TWO_TO_THE_63
  }

  // ---------- Order statistics ----------

  function Placed(sorted: seq<nat>, v: nat): seq<nat> {
    if sorted == [] || v <= sorted[0] then [v] + sorted
    else [sorted[0]] + Placed(sorted[1..], v)
  }

  function Sort(data: seq<nat>): seq<nat> {
    if data == [] then [] else Placed(Sort(data[1..]), data[0])
  }

  ghost predicate Ascending(s: seq<nat>) {
    forall i, j :: 0 <= i <= j < |s| ==> s[i] <= s[j]
  }

  lemma {:induction false} PlacedKeepsValues(sorted: seq<nat>, v: nat)
    ensures multiset(Placed(sorted, v)) == multiset(sorted) + multiset{v}
    ensures |Placed(sorted, v)| == |sorted| + 1
    ensures Placed(sorted, v)[0] == if sorted == [] then v else Min(v, sorted[0])
  {
    if sorted != [] && v > sorted[0] {
      PlacedKeepsValues(sorted[1..], v);
      assert sorted == [sorted[0]] + sorted[1..];
    }
  }

  lemma AscendingCons(v: nat, rest: seq<nat>)
    requires Ascending(rest) && (rest != [] ==> v <= rest[0])
    ensures Ascending([v] + rest)
  {
  }

  lemma {:induction false} PlacedKeepsOrder(sorted: seq<nat>, v: nat)
    requires Ascending(sorted)
    ensures Ascending(Placed(sorted, v))
  {
    if sorted != [] && v > sorted[0] {
      var rest := Placed(sorted[1..], v);
      PlacedKeepsOrder(sorted[1..], v);
      PlacedKeepsValues(sorted[1..], v);
      assert sorted[1..] == [] || sorted[1..][0] == sorted[1];
      hide Placed;
      AscendingCons(sorted[0], rest);
    }
  }

  /** Sort really sorts: the same values with the same multiplicities, in ascending order. */
  lemma {:induction false} SortSorts(data: seq<nat>)
    ensures Ascending(Sort(data)) && multiset(Sort(data)) == multiset(data) && |Sort(data)| == |data|
  {
    if data != [] {
      SortSorts(data[1..]);
      PlacedKeepsOrder(Sort(data[1..]), data[0]);
      PlacedKeepsValues(Sort(data[1..]), data[0]);
      assert data == [data[0]] + data[1..];
    }
  }

  lemma {:induction false} CountPlaced(sorted: seq<nat>, v: nat, keep: nat -> bool)
    ensures Count(Placed(sorted, v), keep) == Count([v] + sorted, keep)
  {
    if sorted != [] && v > sorted[0] {
      CountPlaced(sorted[1..], v, keep);
      assert ([v] + sorted)[1..] == sorted && ([v] + sorted[1..])[1..] == sorted[1..];
    }
  }

  lemma {:induction false} CountSorted(data: seq<nat>, keep: nat -> bool)
    ensures Count(Sort(data), keep) == Count(data, keep)
  {
    if data != [] {
      CountSorted(data[1..], keep);
      CountPlaced(Sort(data[1..]), data[0], keep);
      assert ([data[0]] + Sort(data[1..]))[1..] == Sort(data[1..]);
    }
  }

  /** The rank the quantile looks for: min(floor(q * n), n - 1), with q forced into [0, 1]. */
  function Rank(q: real, n: nat): nat
    requires n > 0
    ensures Rank(q, n) < n
  {
    RankNonNegative(Clamped(q), n);
    var target := Scaled(Clamped(q), n).Floor;
    if target >= n then n - 1 else target
  }

  function Clamped(q: real): real {
    if q < 0.0 then 0.0 else if q > 1.0 then 1.0 else q
  }

  function Scaled(q: real, n: nat): real {
    q * n as real
  }

  lemma RankNonNegative(q: real, n: nat)
    requires q >= 0.0
    ensures Scaled(q, n).Floor >= 0
  {
  }

  /** The order statistic that the `q`-quantile of the recorded values is. */
  function OrderStatistic(data: seq<nat>, q: real): nat
    requires data != []
  {
    SortSorts(data);
    Sort(data)[Rank(q, |data|)]
  }

  /** What QuantileMillis reports: the midpoint of the bucket of the order statistic, in milliseconds. */
  function Quantile(data: seq<nat>, q: real): real
    requires Durations(data)
  {
    if data == [] then 0.0
    else
      StatisticIsRecorded(data, q);
      ValueInItsBucket(OrderStatistic(data, q));
      BucketMidpoint(BucketIndex(OrderStatistic(data, q))) / 1000000.0
  }

  lemma StatisticIsRecorded(data: seq<nat>, q: real)
    requires data != [] && Durations(data)
    ensures OrderStatistic(data, q) in data && OrderStatistic(data, q) < TWO_TO_THE_63
  {
    SortSorts(data);
    assert Sort(data)[Rank(q, |data|)] in multiset(Sort(data));
    assert OrderStatistic(data, q) in multiset(data);
  }

  /** `ns` is `x` below 16 ns, and within 1/32 of it from there on. */
  predicate Near(ns: real, x: nat) {
    if x < 16 then ns == x as real else ns - x as real <= x as real / 32.0 && x as real - ns <= x as real / 32.0
  }

  lemma QuantileError(data: seq<nat>, q: real)
    requires data != [] && Durations(data)
    ensures Near(Quantile(data, q) * 1000000.0, OrderStatistic(data, q))
  {
    StatisticIsRecorded(data, q);
    var x := OrderStatistic(data, q);
    MidpointError(x);
    var m := BucketMidpoint(BucketIndex(x));
    assert Quantile(data, q) == m / 1000000.0;
    assert Near(m, x);
  }

  lemma RankMonotone(q: real, r: real, n: nat)
    requires n > 0 && q <= r
    ensures Rank(q, n) <= Rank(r, n)
  {
    ScaleMonotone(Clamped(q), Clamped(r), n);
    FloorMonotone(Scaled(Clamped(q), n), Scaled(Clamped(r), n));
  }

  lemma FloorMonotone(x: real, y: real)
    requires x <= y
    ensures x.Floor <= y.Floor
  {
  }

  lemma ScaleMonotone(q: real, r: real, n: nat)
    requires q <= r
    ensures Scaled(q, n) <= Scaled(r, n)
  {
    var d, x := r - q, n as real;
    assert d * x >= 0.0;
    assert r * x == q * x + d * x;
  }

  lemma QuantileMonotone(data: seq<nat>, q: real, r: real)
    requires Durations(data) && q <= r
    ensures Quantile(data, q) <= Quantile(data, r)
  {
    if data != [] {
      var x, y := OrderStatistic(data, q), OrderStatistic(data, r);
      RankMonotone(q, r, |data|);
      SortSorts(data);
      StatisticIsRecorded(data, q);
      StatisticIsRecorded(data, r);
      ValueInItsBucket(x);
      ValueInItsBucket(y);
      BucketIndexMonotone(x, y);
      MidpointMonotone(BucketIndex(x), BucketIndex(y));
    }
  }

  // ---------- What the order statistic is, without sorting ----------

  function Below(x: nat): nat -> bool {
    (v: nat) => v < x
  }

  function UpTo(x: nat): nat -> bool {
    (v: nat) => v <= x
  }

  /** The recorded value at the fraction `q`: at most `q` of all recorded values lie below it, and more than
      `q` of them do not lie above it, unless it is the largest. */
  ghost predicate IsQuantile(data: seq<nat>, q: real, x: nat) {
    && x in data
    && Count(data, Below(x)) as real <= q * |data| as real
    && (Count(data, UpTo(x)) as real > q * |data| as real || x == Largest(data))
  }

  lemma {:induction false} RankCounts(s: seq<nat>, t: nat, x: nat)
    requires Ascending(s) && t < |s|
    ensures x <= s[t] ==> Count(s, Below(x)) <= t
    ensures s[t] <= x ==> Count(s, UpTo(x)) > t
  {
    if t > 0 {
      RankCounts(s[1..], t - 1, x);
    } else if x <= s[0] {
      CountNone(s, Below(x));
    }
  }

  lemma {:induction false} CountMonotone(data: seq<nat>, a: nat -> bool, b: nat -> bool)
    requires forall v :: a(v) ==> b(v)
    ensures Count(data, a) <= Count(data, b)
  {
    if data != [] {
      CountMonotone(data[1..], a, b);
    }
  }

  lemma {:induction false} LargestIsRecorded(data: seq<nat>)
    requires data != []
    ensures Largest(data) in data && forall v :: v in data ==> v <= Largest(data)
  {
    if |data| > 1 {
      LargestIsRecorded(data[1..]);
    } else {
      assert data[1..] == [];
    }
    assert data == [data[0]] + data[1..];
  }

  lemma RankOfFraction(q: real, n: nat)
    requires n > 0 && 0.0 <= q <= 1.0
    ensures Rank(q, n) as real <= q * n as real
    ensures q * n as real < (Rank(q, n) + 1) as real || Rank(q, n) == n - 1
  {
  }

  lemma LastIsLargest(data: seq<nat>)
    requires data != []
    ensures Sort(data)[|Sort(data)| - 1] == Largest(data)
  {
    SortSorts(data);
    LargestIsRecorded(data);
    var s := Sort(data);
    var last := s[|s| - 1];
    assert last in multiset(s) && last in multiset(data) && last in data;
    assert Largest(data) in multiset(data) && Largest(data) in multiset(s);
    var i :| 0 <= i < |s| && s[i] == Largest(data);
  }

  lemma StatisticIsQuantile(data: seq<nat>, q: real)
    requires data != []
    ensures IsQuantile(data, Clamped(q), OrderStatistic(data, q))
  {
    var s, t, x := Sort(data), Rank(q, |data|), OrderStatistic(data, q);
    SortSorts(data);
    assert x in multiset(s) && x in multiset(data);
    RankCounts(s, t, x);
    CountSorted(data, Below(x));
    CountSorted(data, UpTo(x));
    LastIsLargest(data);
    RankOfFraction(Clamped(q), |data|);
  }

  lemma QuantilesDoNotDiffer(data: seq<nat>, q: real, x: nat, y: nat)
    requires IsQuantile(data, q, x) && IsQuantile(data, q, y)
    ensures x >= y
  {
    if x < y {
      CountMonotone(data, UpTo(x), Below(y));
      LargestIsRecorded(data);
      assert false;
    }
  }

  /** The order statistic is the one recorded value at the fraction `q` forced into [0, 1]. */
  lemma StatisticIffQuantile(data: seq<nat>, q: real, x: nat)
    requires data != []
    ensures x == OrderStatistic(data, q) <==> IsQuantile(data, Clamped(q), x)
  {
    StatisticIsQuantile(data, q);
    if IsQuantile(data, Clamped(q), x) {
      QuantilesDoNotDiffer(data, Clamped(q), x, OrderStatistic(data, q));
      QuantilesDoNotDiffer(data, Clamped(q), OrderStatistic(data, q), x);
    }
  }

  /** From 0 down it is the smallest value, and from 1 up the largest. */
  lemma ExtremeStatistics(data: seq<nat>, q: real)
    requires data != []
    ensures q <= 0.0 ==> OrderStatistic(data, q) in data && forall v :: v in data ==> OrderStatistic(data, q) <= v
    ensures q >= 1.0 ==> OrderStatistic(data, q) == Largest(data)
  {
    StatisticIsQuantile(data, q);
    var x := OrderStatistic(data, q);
    hide OrderStatistic;
    if q <= 0.0 {
      NoneBelow(data, Below(x));
    } else if q >= 1.0 {
      CountAtMostAll(data, UpTo(x));
    }
  }

  lemma {:induction false} NoneBelow(data: seq<nat>, keep: nat -> bool)
    requires Count(data, keep) == 0
    ensures forall v :: v in data ==> !keep(v)
  {
    if data != [] {
      NoneBelow(data[1..], keep);
      assert data == [data[0]] + data[1..];
    }
  }

  lemma {:induction false} CountAtMostAll(data: seq<nat>, keep: nat -> bool)
    ensures Count(data, keep) <= |data|
  {
    if data != [] {
      CountAtMostAll(data[1..], keep);
    }
  }

  // ---------- The scan agrees with the sorted data ----------

  lemma {:induction false} CountSplitsAtBucket(data: seq<nat>, i: int)
    ensures Count(data, Before(i + 1)) == Count(data, Before(i)) + Count(data, InBucket(i))
  {
    if data != [] {
      CountSplitsAtBucket(data[1..], i);
    }
  }

  lemma {:induction false} CountNone(data: seq<nat>, keep: nat -> bool)
    requires forall j :: 0 <= j < |data| ==> !keep(data[j])
    ensures Count(data, keep) == 0
  {
    if data != [] {
      CountNone(data[1..], keep);
    }
  }

  lemma {:induction false} CountAll(data: seq<nat>, keep: nat -> bool)
    requires forall j :: 0 <= j < |data| ==> keep(data[j])
    ensures Count(data, keep) == |data|
  {
    if data != [] {
      CountAll(data[1..], keep);
    }
  }

  /** In ascending data, more than `t` values lie before bucket `i` exactly when the value of rank `t` does. */
  lemma {:induction false} RankWithinBuckets(s: seq<nat>, t: nat, i: int)
    requires Ascending(s) && Durations(s) && t < |s|
    ensures Count(s, Before(i)) > t <==> BucketIndex(s[t]) < i
  {
    if !Before(i)(s[0]) {
      forall j | 0 <= j < |s|
        ensures !Before(i)(s[j])
      {
        BucketIndexMonotone(s[0], s[j]);
      }
      CountNone(s, Before(i));
    } else if t > 0 {
      RankWithinBuckets(s[1..], t - 1, i);
    }
  }

  /** The cumulative count passes `t` exactly at the bucket of the order statistic of rank `t`. */
  lemma ScanStopsAtStatistic(data: seq<nat>, q: real, i: int)
    requires data != [] && Durations(data)
    ensures Count(data, Before(i)) > Rank(q, |data|) <==> BucketIndex(OrderStatistic(data, q)) < i
  {
    SortSorts(data);
    SortKeepsDurations(data);
    CountSorted(data, Before(i));
    RankWithinBuckets(Sort(data), Rank(q, |data|), i);
  }

  lemma SortKeepsDurations(data: seq<nat>)
    requires Durations(data)
    ensures Durations(Sort(data))
  {
    SortSorts(data);
    forall i | 0 <= i < |Sort(data)|
      ensures Sort(data)[i] < TWO_TO_THE_63
    {
      assert Sort(data)[i] in multiset(Sort(data));
      assert Sort(data)[i] in multiset(data);
    }
  }

  lemma CountBeforeFirst(data: seq<nat>)
    requires Durations(data)
    ensures Count(data, Before(0)) == 0
  {
    forall j | 0 <= j < |data|
      ensures !Before(0)(data[j])
    {
      ValueInItsBucket(data[j]);
    }
    CountNone(data, Before(0));
  }

  /** The mean of `n` values of the given sum, in milliseconds. */
  function Mean(sum: nat, n: nat): real
    requires n > 0
  {
    sum as real / n as real / 1000000.0
  }

  lemma MeanGrows(a: nat, b: nat, n: nat)
    requires a < b && n > 0
    ensures Mean(a, n) < Mean(b, n)
  {
    assert a as real / n as real < b as real / n as real;
  }

  lemma SmallTotal(total: nat)
    requires total < TWO_TO_THE_64
    ensures total % TWO_TO_THE_64 == total
  {
  }

  lemma MeanTimesCount(sum: nat, n: nat)
    requires n > 0
    ensures Mean(sum, n) * 1000000.0 * n as real == sum as real
  {
    var x := n as real;
    assert (sum as real / x) * x == sum as real;
  }

  /** The running sum wraps at 2^64 nanoseconds, and the reported mean is exact until it does. */
  lemma MeanExactIff(sum: nat, n: nat)
    requires n > 0
    ensures Mean(sum % TWO_TO_THE_64, n) == Mean(sum, n) <==> sum < TWO_TO_THE_64
    ensures Mean(sum % TWO_TO_THE_64, n) * 1000000.0 * n as real == sum as real <==> sum < TWO_TO_THE_64
  {
    MeanTimesCount(sum % TWO_TO_THE_64, n);
    if sum < TWO_TO_THE_64 {
      SmallTotal(sum);
    } else {
      MeanGrows(sum % TWO_TO_THE_64, sum, n);
    }
  }

  lemma {:induction false} TotalBetween(data: seq<nat>, low: nat, high: nat)
    requires forall v :: v in data ==> low <= v <= high
    ensures |data| * low <= Total(data) <= |data| * high
  {
    if data != [] {
      var rest := data[1..];
      assert forall v :: v in rest ==> v in data;
      assert data[0] in data;
      TotalBetween(data[1..], low, high);
      OneMore(|data[1..]|, low);
      OneMore(|data[1..]|, high);
    }
  }

  lemma OneMore(n: nat, x: nat)
    ensures (n + 1) * x == x + n * x
  {
  }

  /** The mean, in nanoseconds, times the number of values is their sum, so it lies between any two bounds on
      the values. */
  lemma MeanBalances(data: seq<nat>, low: nat, high: nat)
    requires data != [] && forall v :: v in data ==> low <= v <= high
    ensures Mean(Total(data), |data|) * 1000000.0 * |data| as real == Total(data) as real
    ensures low as real <= Mean(Total(data), |data|) * 1000000.0 <= high as real
  {
    hide *;
    MeanTimesCount(Total(data), |data|);
    TotalBetween(data, low, high);
    BetweenBounds(Mean(Total(data), |data|) * 1000000.0, |data|, Total(data), low, high);
  }

  lemma ScalingKeepsOrder(x: real, y: real, n: real)
    requires x < y && n > 0.0
    ensures x * n < y * n
  {
  }

  lemma ProductAsReal(n: nat, x: nat)
    ensures (n * x) as real == x as real * n as real
  {
  }

  lemma BetweenBounds(x: real, n: nat, sum: nat, low: nat, high: nat)
    requires n > 0 && x * n as real == sum as real && n * low <= sum <= n * high
    ensures low as real <= x <= high as real
  {
    ProductAsReal(n, low);
    ProductAsReal(n, high);
    if x < low as real {
      ScalingKeepsOrder(x, low as real, n as real);
      assert false;
    }
    if x > high as real {
      ScalingKeepsOrder(high as real, x, n as real);
      assert false;
    }
  }

  class Histogram {
    var buckets: array<nat>
    var count: nat
    var sum: nat
    var max: nat
    ghost var data: seq<nat>

    ghost predicate Valid()
      reads this, buckets
    {
      && buckets.Length == NUM_BUCKETS && Durations(data)
      && (forall i :: 0 <= i < NUM_BUCKETS ==> buckets[i] == Count(data, InBucket(i)))
      && count == |data| && sum == Total(data) % TWO_TO_THE_64 && max == Largest(data)
    }

    constructor ()
      ensures Valid() && data == [] && fresh(buckets)
    {
      buckets := new nat[NUM_BUCKETS](_ => 0);
      count, sum, max := 0, 0, 0;
      data := [];
    }

    /** Adds one observation; negative durations are ignored. */
    method Record(d: int)
      requires Valid() && IsInt64(d)
      modifies this, buckets
      ensures Valid() && buckets == old(buckets)
      ensures data == if d < 0 then old(data) else [d] + old(data)
    {
      if d < 0 {
        return;
      }
      var ns: nat := d;
      ValueInItsBucket(ns);
      assert ([ns] + data)[1..] == data;
      var i := BucketIndex(ns);
      buckets[i] := buckets[i] + 1;
      count := count + 1;
      sum := (sum + ns) % TWO_TO_THE_64;
      SumWraps(Total(data), ns);
      RaiseMax(ns);
      data := [ns] + data;
    }

    /** The compare-and-swap loop that keeps the maximum. */
    method RaiseMax(ns: nat)
      modifies this`max
      ensures max == Max(old(max), ns)
    {
      var done := false;
      while !done
        invariant max == if done then Max(old(max), ns) else old(max)
        decreases !done
      {
        var cur := max;
        if ns <= cur {
          done := true;
        } else {
          done := CompareAndSwapMax(cur, ns);
        }
      }
    }

    static lemma SumWraps(total: nat, ns: nat)
      ensures (total % TWO_TO_THE_64 + ns) % TWO_TO_THE_64 == (ns + total) % TWO_TO_THE_64
    {
    }

    method CompareAndSwapMax(cur: nat, next: nat) returns (swapped: bool)
      modifies this`max
      ensures swapped == (old(max) == cur) && max == if swapped then next else old(max)
    {
      swapped := max == cur;
      if swapped {
        max := next;
      }
    }

    /** The mean is exact as long as the 64-bit sum has not wrapped. */
    method MeanMillis() returns (ms: real)
      requires Valid()
      ensures data == [] ==> ms == 0.0
      ensures data != [] ==> (ms * 1000000.0 * |data| as real == Total(data) as real <==> Total(data) < TWO_TO_THE_64)
    {
      var n := count;
      if n == 0 {
        return 0.0;
      }
      MeanExactIff(Total(data), n);
      return sum as real / n as real / 1000000.0;
    }

    method Reset()
      requires Valid()
      modifies this, buckets
      ensures Valid() && data == [] && buckets == old(buckets)
    {
      for i := 0 to buckets.Length
        modifies buckets
        invariant forall j :: 0 <= j < i ==> buckets[j] == 0
      {
        buckets[i] := 0;
      }
      count, sum, max := 0, 0, 0;
      data := [];
    }

    /** The bucket the scan picks is that of the order statistic; the fall-through after the scan is dead. */
    method QuantileMillis(q: real) returns (ms: real)
      requires Valid()
      ensures ms == Quantile(data, q)
      ensures data == [] ==> ms == 0.0
      ensures data != [] ==> exists x :: IsQuantile(data, Clamped(q), x) && Near(ms * 1000000.0, x)
    {
      var q' := q;
      if q' < 0.0 {
        q' := 0.0;
      }
      if q' > 1.0 {
        q' := 1.0;
      }
      var total := count;
      if total == 0 {
        return 0.0;
      }
      var target := Scaled(q', total).Floor;
      if target >= total {
        target := total - 1;
      }
      assert target == Rank(q, |data|);
      StatisticIsQuantile(data, q);
      QuantileError(data, q);
      var i := Scan(target, q);
      return BucketMidpoint(i) / 1000000.0;
    }

    /** Adds up the buckets until more than `target` observations are seen. */
    method Scan(target: nat, ghost q: real) returns (i: nat)
      requires Valid() && data != [] && target == Rank(q, |data|)
      ensures i == BucketIndex(OrderStatistic(data, q))
    {
      var seen := 0;
      CountBeforeFirst(data);
      StatisticIsRecorded(data, q);
      ghost var goal := BucketIndex(OrderStatistic(data, q));
      ValueInItsBucket(OrderStatistic(data, q));
      i := 0;
      while i < NUM_BUCKETS
        invariant 0 <= i <= NUM_BUCKETS && i <= goal
        invariant seen == Count(data, Before(i)) && seen <= target
      {
        CountSplitsAtBucket(data, i);
        ScanStopsAtStatistic(data, q, i + 1);
        var c := buckets[i];
        if c != 0 {
          seen := seen + c;
          if seen > target {
            return;
          }
        }
        i := i + 1;
      }
      assert false;
    }
  }
}
