// Latency summary of a list of samples (crates/akraz-ipc/src/lib.rs).
module Latency {
  import opened Wrappers
  import opened Ints

  const U128_MODULUS: nat := 0x1_0000_0000_0000_0000_0000_0000_0000_0000

  datatype Histogram = Histogram(sampleCount: nat, average: nat, p95: nat, p99: nat)

  function SaturateToU64(v: nat): u64 { if v <= U64_MAX then v else U64_MAX }

  predicate Sorted(s: seq<nat>) { forall i, j :: 0 <= i < j < |s| ==> s[i] <= s[j] }

  function Insert(x: nat, s: seq<nat>): seq<nat> {
    if s == [] || x <= s[0] then [x] + s else [s[0]] + Insert(x, s[1..])
  }

  // The sorted rearrangement of a list.
  function Sort(s: seq<nat>): seq<nat> { if s == [] then [] else Insert(s[0], Sort(s[1..])) }

  lemma {:induction false} InsertKeepsMultiset(x: nat, s: seq<nat>)
    ensures multiset(Insert(x, s)) == multiset(s) + multiset{x}
  {
    if s == [] || x <= s[0] {
    } else {
      InsertKeepsMultiset(x, s[1..]);
      assert s == [s[0]] + s[1..];
    }
  }

  lemma {:induction false} InsertKeepsLowerBound(x: nat, s: seq<nat>, lo: nat)
    requires lo <= x && forall i :: 0 <= i < |s| ==> lo <= s[i]
    ensures forall i :: 0 <= i < |Insert(x, s)| ==> lo <= Insert(x, s)[i]
  {
    if s == [] || x <= s[0] {
    } else {
      InsertKeepsLowerBound(x, s[1..], lo);
    }
  }

  lemma {:induction false} InsertSorts(x: nat, s: seq<nat>)
    requires Sorted(s)
    ensures Sorted(Insert(x, s))
  {
    if s == [] || x <= s[0] {
    } else {
      InsertSorts(x, s[1..]);
      InsertKeepsLowerBound(x, s[1..], s[0]);
    }
  }

  lemma {:induction false} SortSorts(s: seq<nat>)
    ensures Sorted(Sort(s)) && multiset(Sort(s)) == multiset(s) && |Sort(s)| == |s|
  {
    if s == [] {
    } else {
      SortSorts(s[1..]);
      InsertSorts(s[0], Sort(s[1..]));
      InsertKeepsMultiset(s[0], Sort(s[1..]));
      assert s == [s[0]] + s[1..];
      assert |multiset(Sort(s))| == |Sort(s)| && |multiset(s)| == |s|;
    }
  }

  // There is only one sorted rearrangement.
  lemma {:induction false} SortedIsUnique(a: seq<nat>, b: seq<nat>)
    requires Sorted(a) && Sorted(b) && multiset(a) == multiset(b)
    ensures a == b
  {
    SameLength(a, b);
    if a != [] {
      LeastIsFirst(a, b);
      LeastIsFirst(b, a);
      WithoutFirst(a);
      WithoutFirst(b);
      SortedIsUnique(a[1..], b[1..]);
    }
  }

  lemma {:induction false} SameLength(a: seq<nat>, b: seq<nat>)
    requires multiset(a) == multiset(b)
    ensures |a| == |b|
  {
    assert |multiset(a)| == |a| && |multiset(b)| == |b|;
  }

  lemma {:induction false} LeastIsFirst(a: seq<nat>, b: seq<nat>)
    requires Sorted(a) && a != [] && b != [] && multiset(a) == multiset(b)
    ensures a[0] <= b[0]
  {
    assert b[0] in multiset(b);
    assert b[0] in a;
  }

  lemma {:induction false} WithoutFirst(s: seq<nat>)
    requires s != []
    ensures multiset(s[1..]) == multiset(s) - multiset{s[0]}
  {
    assert s == [s[0]] + s[1..];
  }

  function Sum(s: seq<nat>): nat { if s == [] then 0 else s[0] + Sum(s[1..]) }

  function CeilDiv(a: nat, b: nat): nat
    requires b > 0
  {
    (a + b - 1) / b
  }

  // The value at 1-based rank ceil(n * p / 100) of a sorted list.
  function Percentile(sorted: seq<nat>, p: nat): nat
    requires sorted != []
  {
    var rank := CeilDiv(|sorted| * p, 100);
    var index := if rank == 0 then 0 else rank - 1;
    sorted[if index <= |sorted| - 1 then index else |sorted| - 1]
  }

  // The sum and the rounding term are u128 arithmetic that wraps.
  function WrappedAverage(sum: nat, n: nat): nat
    requires n > 0
  {
    RoundedQuotient(sum % U128_MODULUS, n)
  }

  function RoundedQuotient(wrapped: nat, n: nat): nat
    requires n > 0
  {
    (wrapped + n / 2) % U128_MODULUS / n
  }

  function RoundedAverage(s: seq<nat>): nat
    requires s != []
  {
    WrappedAverage(Sum(s), |s|)
  }

  // The running sum is u128 arithmetic that wraps.
  method WrappingSum(s: seq<nat>) returns (sum: nat)
    ensures sum == Sum(s) % U128_MODULUS
  {
    sum := 0;
    ghost var exact: nat := 0;
    assert s[0..] == s;
    for k := 0 to |s|
      invariant exact + Sum(s[k..]) == Sum(s)
      invariant sum == exact % U128_MODULUS
    {
      assert s[k..][1..] == s[k + 1..];
      WrapAdd(exact, s[k]);
      sum := (sum + s[k]) % U128_MODULUS;
      exact := exact + s[k];
    }
  }

  method RoundAverage(s: seq<nat>) returns (average: nat)
    requires s != []
    ensures average == RoundedAverage(s)
  {
    var sum := WrappingSum(s);
    average := RoundedQuotient(sum, |s|);
  }

  // The copy of the samples is sorted by the library, summed and indexed.
  method BuildHistogram(samples: seq<nat>) returns (histogram: Option<Histogram>)
    ensures histogram == Summary(samples)
  {
    if samples == [] {
      return None;
    }
    SortSorts(samples);
    var sorted := Sort(samples);
    var average := RoundAverage(sorted);
    histogram := Some(Histogram(
      |sorted|, SaturateToU64(average), SaturateToU64(Percentile(sorted, 95)), SaturateToU64(Percentile(sorted, 99))));
  }

  function Summary(samples: seq<nat>): Option<Histogram> {
    if samples == [] then None
    else
      SortSorts(samples);
      var sorted := Sort(samples);
      Some(Histogram(|samples|, SaturateToU64(RoundedAverage(sorted)),
                     SaturateToU64(Percentile(sorted, 95)), SaturateToU64(Percentile(sorted, 99))))
  }

  lemma {:induction false} MulOrder(n: int, a: int, b: int)
    requires n > 0
    ensures a <= b <==> n * a <= n * b
  {
  }

  lemma {:induction false} WrapAdd(a: nat, b: nat)
    ensures (a % U128_MODULUS + b) % U128_MODULUS == (a + b) % U128_MODULUS
  {
  }

  // The summary does not depend on the order in which the samples were taken.
  lemma {:induction false} OrderIsIrrelevant(samples: seq<nat>, other: seq<nat>)
    requires multiset(samples) == multiset(other)
    ensures Summary(samples) == Summary(other)
  {
    SortSorts(samples);
    SortSorts(other);
    SortedIsUnique(Sort(samples), Sort(other));
  }

  // ---- Nearest rank ----------------------------------------------------------------------------

  function CountAtMost(s: seq<nat>, v: nat): nat {
    if s == [] then 0 else (if s[0] <= v then 1 else 0) + CountAtMost(s[1..], v)
  }

  function CountBelow(s: seq<nat>, v: nat): nat {
    if s == [] then 0 else (if s[0] < v then 1 else 0) + CountBelow(s[1..], v)
  }

  lemma {:induction false} CountsOfInsert(x: nat, s: seq<nat>, v: nat)
    ensures CountAtMost(Insert(x, s), v) == (if x <= v then 1 else 0) + CountAtMost(s, v)
    ensures CountBelow(Insert(x, s), v) == (if x < v then 1 else 0) + CountBelow(s, v)
  {
    if s == [] || x <= s[0] {
      assert ([x] + s)[1..] == s;
    } else {
      CountsOfInsert(x, s[1..], v);
      assert Insert(x, s)[1..] == Insert(x, s[1..]);
    }
  }

  lemma {:induction false} CountsOfSort(s: seq<nat>, v: nat)
    ensures CountAtMost(Sort(s), v) == CountAtMost(s, v) && CountBelow(Sort(s), v) == CountBelow(s, v)
  {
    if s == [] {
    } else {
      CountsOfSort(s[1..], v);
      CountsOfInsert(s[0], Sort(s[1..]), v);
    }
  }

  lemma {:induction false} CountsAtIndex(s: seq<nat>, i: nat)
    requires Sorted(s) && i < |s|
    ensures CountAtMost(s, s[i]) >= i + 1 && CountBelow(s, s[i]) <= i
    decreases |s|
  {
    if i > 0 {
      CountsAtIndex(s[1..], i - 1);
    } else {
      NoneBelowTheFirst(s, s[0]);
    }
  }

  lemma {:induction false} NoneBelowTheFirst(s: seq<nat>, v: nat)
    requires forall i :: 0 <= i < |s| ==> v <= s[i]
    ensures CountBelow(s, v) == 0
  {
    if s == [] {
    } else {
      NoneBelowTheFirst(s[1..], v);
    }
  }

  // At least p% of the samples are at or below v, and fewer lie strictly below it.
  predicate IsNearestRank(v: nat, samples: seq<nat>, p: nat) {
    && v in samples
    && 100 * CountAtMost(samples, v) >= p * |samples|
    && 100 * CountBelow(samples, v) < p * |samples|
  }

  // The percentile is the nearest-rank value.
  lemma {:induction false} PercentileIsNearestRank(samples: seq<nat>, p: nat)
    requires samples != [] && 1 <= p <= 100
    ensures Sort(samples) != []
    ensures IsNearestRank(Percentile(Sort(samples), p), samples, p)
  {
    SortSorts(samples);
    var sorted := Sort(samples);
    var index := PercentileIndex(sorted, p);
    CountsAtIndex(sorted, index);
    CountsOfSort(samples, sorted[index]);
    assert sorted[index] in multiset(samples);
  }

  lemma {:induction false} PercentileIndex(sorted: seq<nat>, p: nat) returns (index: nat)
    requires sorted != [] && 1 <= p <= 100
    ensures index < |sorted| && Percentile(sorted, p) == sorted[index]
    ensures 100 * (index + 1) >= p * |sorted| && 100 * index < p * |sorted|
  {
    MulOrder(|sorted|, 1, p);
    MulOrder(|sorted|, p, 100);
    var rank := RankBounds(|sorted| * p, |sorted|);
    index := rank - 1;
  }

  lemma {:induction false} RankBounds(x: nat, n: nat) returns (rank: nat)
    requires 1 <= n <= x <= n * 100
    ensures rank == CeilDiv(x, 100) && 1 <= rank <= n
    ensures 100 * rank >= x && 100 * (rank - 1) < x
  {
    rank := CeilDiv(x, 100);
  }

  lemma {:induction false} PercentilesAreOrdered(samples: seq<nat>, p: nat, q: nat)
    requires samples != [] && p <= q
    ensures Sort(samples) != [] && Percentile(Sort(samples), p) <= Percentile(Sort(samples), q)
  {
    SortSorts(samples);
    MulOrder(|samples|, p, q);
    SortedPercentilesAreOrdered(Sort(samples), p, q);
  }

  lemma {:induction false} SortedPercentilesAreOrdered(sorted: seq<nat>, p: nat, q: nat)
    requires sorted != [] && Sorted(sorted) && |sorted| * p <= |sorted| * q
    ensures Percentile(sorted, p) <= Percentile(sorted, q)
  {
  }

  // A summary is made of the samples as they were taken: their number, their rounded mean as long as
  // nothing wraps, and the nearest ranks of 95 and 99 percent, capped at the u64 maximum.
  lemma {:induction false} SummaryExactly(samples: seq<nat>) returns (average: nat, p95: nat, p99: nat)
    requires |samples| <= U64_MAX
    ensures Summary(samples).None? <==> samples == []
    ensures samples != [] ==>
      && Summary(samples) == Some(Histogram(|samples|, Capped(average), Capped(p95), Capped(p99)))
      && (Sum(samples) + |samples| / 2 < U128_MODULUS <==> IsRoundedMean(average, Sum(samples), |samples|))
      && IsNearestRank(p95, samples, 95) && IsNearestRank(p99, samples, 99)
  {
    average, p95, p99 := 0, 0, 0;
    if samples != [] {
      PercentileIsNearestRank(samples, 95);
      PercentileIsNearestRank(samples, 99);
      var top := Largest(samples);
      AverageIsTheRoundedMeanExactly(samples, 0, top);
      var sorted := Sort(samples);
      average, p95, p99 := RoundedAverage(sorted), Percentile(sorted, 95), Percentile(sorted, 99);
    }
  }

  ghost function Capped(v: nat): nat { if v > U64_MAX then U64_MAX else v }

  lemma {:induction false} Largest(samples: seq<nat>) returns (top: nat)
    ensures forall i :: 0 <= i < |samples| ==> samples[i] <= top
  {
    top := 0;
    if samples != [] {
      var rest := Largest(samples[1..]);
      top := if rest > samples[0] then rest else samples[0];
      assert forall i :: 0 < i < |samples| ==> samples[i] == samples[1..][i - 1];
    }
  }

  lemma {:induction false} SummaryPercentilesAreOrdered(samples: seq<nat>)
    ensures Summary(samples).Some? ==> Summary(samples).value.p95 <= Summary(samples).value.p99
  {
    if samples != [] {
      PercentilesAreOrdered(samples, 95, 99);
    }
  }

  // ---- Average ---------------------------------------------------------------------------------

  lemma {:induction false} SumOfInsert(x: nat, s: seq<nat>)
    ensures Sum(Insert(x, s)) == x + Sum(s)
  {
    if s == [] || x <= s[0] {
      assert ([x] + s)[1..] == s;
    } else {
      SumOfInsert(x, s[1..]);
      assert Insert(x, s)[1..] == Insert(x, s[1..]);
    }
  }

  lemma {:induction false} SumOfSort(s: seq<nat>)
    ensures Sum(Sort(s)) == Sum(s)
  {
    if s == [] {
    } else {
      SumOfSort(s[1..]);
      SumOfInsert(s[0], Sort(s[1..]));
    }
  }

  lemma {:induction false} Distribute(k: nat, n: nat)
    ensures k * (n + 1) == k + k * n
  {
  }

  lemma {:induction false} SumIsBounded(s: seq<nat>, lo: nat, hi: nat)
    requires forall i :: 0 <= i < |s| ==> lo <= s[i] <= hi
    ensures lo * |s| <= Sum(s) <= hi * |s|
  {
    if s == [] {
    } else {
      SumIsBounded(s[1..], lo, hi);
      Distribute(lo, |s[1..]|);
      Distribute(hi, |s[1..]|);
    }
  }

  // The mean rounded half up: 2 * mean lies in [2 * average - 1, 2 * average + 1).
  predicate IsRoundedMean(average: int, sum: nat, n: nat) {
    n * (2 * average - 1) <= 2 * sum < n * (2 * average + 1)
  }

  lemma {:induction false} RoundedDivision(sum: nat, n: nat, average: nat)
    requires n > 0 && average == (sum + n / 2) / n
    ensures IsRoundedMean(average, sum, n)
  {
  }

  lemma {:induction false} RoundedMeanIsUnique(a: int, b: int, sum: nat, n: nat)
    requires n > 0 && IsRoundedMean(a, sum, n) && IsRoundedMean(b, sum, n)
    ensures a == b
  {
  }

  // The average is the mean rounded half up exactly when the u128 sum, rounding term included, does
  // not wrap; it then lies between the smallest and the largest sample.
  lemma {:induction false} AverageIsTheRoundedMeanExactly(samples: seq<nat>, lo: nat, hi: nat)
    requires samples != [] && |samples| <= U64_MAX
    requires forall i :: 0 <= i < |samples| ==> lo <= samples[i] <= hi
    ensures Sort(samples) != []
    ensures var average := RoundedAverage(Sort(samples));
      && (IsRoundedMean(average, Sum(samples), |samples|) <==> Sum(samples) + |samples| / 2 < U128_MODULUS)
      && (Sum(samples) + |samples| / 2 < U128_MODULUS ==> lo <= average <= hi)
  {
    SortSorts(samples);
    SumOfSort(samples);
    SumIsBounded(samples, lo, hi);
    AverageOf(Sort(samples), Sum(samples), |samples|, lo, hi);
  }

  lemma {:induction false} AverageOf(s: seq<nat>, sum: nat, n: nat, lo: nat, hi: nat)
    requires 0 < n <= U64_MAX && lo * n <= sum <= hi * n
    requires |s| == n && Sum(s) == sum
    ensures (IsRoundedMean(RoundedAverage(s), sum, n) <==> sum + n / 2 < U128_MODULUS)
    ensures sum + n / 2 < U128_MODULUS ==> lo <= RoundedAverage(s) <= hi
  {
    if sum + n / 2 < U128_MODULUS {
      AverageWithoutWrap(sum, n);
      MeanIsBetween(sum, n, lo, hi);
    } else {
      AverageWithWrap(sum, n);
    }
  }

  lemma {:induction false} AverageWithoutWrap(sum: nat, n: nat)
    requires n > 0 && sum + n / 2 < U128_MODULUS
    ensures WrappedAverage(sum, n) == (sum + n / 2) / n && IsRoundedMean(WrappedAverage(sum, n), sum, n)
  {
    UnwrappedAverage(sum, n);
    RoundedDivision(sum, n, WrappedAverage(sum, n));
  }

  lemma {:induction false} UnwrappedAverage(sum: nat, n: nat)
    requires n > 0 && sum + n / 2 < U128_MODULUS
    ensures WrappedAverage(sum, n) == (sum + n / 2) / n
  {
    NoWrap(sum);
    NoWrap(sum + n / 2);
  }

  lemma {:induction false} NoWrap(a: nat)
    requires a < U128_MODULUS
    ensures a % U128_MODULUS == a
  {
  }

  lemma {:induction false} AverageWithWrap(sum: nat, n: nat)
    requires 0 < n <= U64_MAX && sum + n / 2 >= U128_MODULUS
    ensures !IsRoundedMean(WrappedAverage(sum, n), sum, n)
  {
    var total := sum + n / 2;
    WrapAdd(sum, n / 2);
    WrappedIsSmaller(total, n);
    RoundedDivision(sum, n, total / n);
    if IsRoundedMean(WrappedAverage(sum, n), sum, n) {
      RoundedMeanIsUnique(WrappedAverage(sum, n), total / n, sum, n);
    }
  }

  lemma {:induction false} MeanIsBetween(sum: nat, n: nat, lo: nat, hi: nat)
    requires n > 0 && lo * n <= sum <= hi * n
    ensures lo <= (sum + n / 2) / n <= hi
  {
    var mean := (sum + n / 2) / n;
    MulOrder(n, mean + 1, lo);
    MulOrder(n, hi + 1, mean);
    assert n * mean <= sum + n / 2 < n * mean + n;
  }

  lemma {:induction false} WrappedIsSmaller(total: nat, n: nat)
    requires 0 < n <= U64_MAX && total >= U128_MODULUS
    ensures total % U128_MODULUS / n < total / n
  {
    var wrapped := total % U128_MODULUS;
    var q, r := wrapped / n, total / n;
    assert wrapped + n <= total;
    assert n * q <= wrapped && total < n * r + n;
    MulOrder(n, r, q);
  }
}
