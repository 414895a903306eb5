/** Order statistics of a load test: nearest-rank percentiles and the histogram. */
module LoadStats {
  import opened Wrappers

  predicate Sorted(a: seq<real>) { forall i, j :: 0 <= i <= j < |a| ==> a[i] <= a[j] }

  /** How many values lie below x, or at most at x. */
  function CountBelow(a: seq<real>, x: real): nat {
    if a == [] then 0 else (if a[0] < x then 1 else 0) + CountBelow(a[1..], x)
  }

  function CountUpTo(a: seq<real>, x: real): nat {
    if a == [] then 0 else (if a[0] <= x then 1 else 0) + CountUpTo(a[1..], x)
  }

  /** ceil(n * p / 100) - 1, clamped to the list. */
  function Rank(n: nat, p: int): int
    requires n > 0
  {
    var idx := (n * p + 99) / 100 - 1;
    if idx < 0 then 0 else if idx < n then idx else n - 1
  }

  /** The nearest integer, an even one when two are equally near. */
  function Nearest(x: real): int {
    var n := x.Floor;
    var rest := x - n as real;
    if rest < 0.5 || (rest == 0.5 && n % 2 == 0) then n else n + 1
  }

  /** `round(x, 2)` */
  function Round2(x: real): real { Nearest(x * 100.0) as real / 100.0 }

  lemma RoundGrows(x: real, y: real)
    requires x <= y
    ensures Round2(x) <= Round2(y)
  {
    var u, v := x * 100.0, y * 100.0;
    assert u.Floor <= v.Floor;
    assert Nearest(u) <= Nearest(v);
  }

  lemma RoundIsNear(x: real)
    ensures x - 0.005 <= Round2(x) <= x + 0.005
  {
    var u := x * 100.0;
    assert u - 0.5 <= Nearest(u) as real <= u + 0.5;
  }

  /** `_percentile` */
  function Percentile(a: seq<real>, p: int): real {
    if a == [] then 0.0 else Round2(a[Rank(|a|, p)])
  }

  lemma {:induction false} CountsAround(a: seq<real>, k: nat)
    requires Sorted(a) && k < |a|
    ensures CountBelow(a, a[k]) <= k < CountUpTo(a, a[k])
    decreases |a|
  {
    if k > 0 {
      assert Sorted(a[1..]) && a[1..][k - 1] == a[k];
      CountsAround(a[1..], k - 1);
    } else {
      NoneBelow(a, a[0]);
    }
  }

  lemma {:induction false} NoneBelow(a: seq<real>, x: real)
    requires forall i :: 0 <= i < |a| ==> x <= a[i]
    ensures CountBelow(a, x) == 0
    decreases |a|
  {
    if a != [] { NoneBelow(a[1..], x); }
  }

  lemma RankBounds(n: nat, p: int)
    requires n > 0 && 0 < p <= 100
    ensures Rank(n, p) < n && Rank(n, p) * 100 < n * p <= (Rank(n, p) + 1) * 100
  {
  }

  /** The reported value is a nearest-rank value x of the sample, rounded: at
      least p percent of the sample is at most x, and less than p percent is
      below it. */
  lemma PercentileIsNearestRank(a: seq<real>, p: int) returns (x: real)
    requires Sorted(a) && a != [] && 0 < p <= 100
    ensures x in a && CountBelow(a, x) * 100 < p * |a| <= CountUpTo(a, x) * 100
    ensures Percentile(a, p) == Round2(x) && x - 0.005 <= Percentile(a, p) <= x + 0.005
  {
    x := a[Rank(|a|, p)];
    RankBounds(|a|, p);
    CountsAround(a, Rank(|a|, p));
    RoundIsNear(x);
    hide Round2;
  }

  lemma RankGrows(n: nat, p: int, q: int)
    requires n > 0 && p <= q
    ensures Rank(n, p) <= Rank(n, q)
  {
    assert n * q - n * p == n * (q - p);
    assert n * (q - p) >= 0;
  }

  lemma PercentileGrows(a: seq<real>, p: int, q: int)
    requires Sorted(a) && a != [] && p <= q
    ensures Percentile(a, p) <= Percentile(a, q)
  {
    RankGrows(|a|, p, q);
    RoundGrows(a[Rank(|a|, p)], a[Rank(|a|, q)]);
  }

  /** min <= p50 <= p75 <= p95 <= p99 <= max, all as reported. */
  lemma PercentilesAreOrdered(a: seq<real>)
    requires Sorted(a) && a != []
    ensures Round2(a[0]) <= Percentile(a, 50) <= Percentile(a, 75)
    ensures Percentile(a, 75) <= Percentile(a, 95) <= Percentile(a, 99) <= Round2(a[|a| - 1])
  {
    RoundGrows(a[0], a[Rank(|a|, 50)]);
    PercentileGrows(a, 50, 75);
    PercentileGrows(a, 75, 95);
    PercentileGrows(a, 95, 99);
    RoundGrows(a[Rank(|a|, 99)], a[|a| - 1]);
  }

  // ----- The histogram

  const BOUNDS: seq<real> := [1.0, 5.0, 10.0, 25.0, 50.0, 100.0, 250.0, 500.0, 1000.0, 2000.0, 5000.0]

  datatype Bucket = Bucket(upper: Option<real>, count: nat)

  function CountIn(a: seq<real>, lo: real, hi: real): nat {
    if a == [] then 0 else (if lo <= a[0] < hi then 1 else 0) + CountIn(a[1..], lo, hi)
  }

  function CountFrom(a: seq<real>, lo: real): nat {
    if a == [] then 0 else (if lo <= a[0] then 1 else 0) + CountFrom(a[1..], lo)
  }

  function Total(buckets: seq<Bucket>): nat {
    if buckets == [] then 0 else Total(buckets[..|buckets| - 1]) + buckets[|buckets| - 1].count
  }

  lemma {:induction false} CountSplits(a: seq<real>, lo: real, hi: real)
    requires lo <= hi
    ensures CountIn(a, lo, hi) + CountFrom(a, hi) == CountFrom(a, lo)
    decreases |a|
  {
    if a != [] { CountSplits(a[1..], lo, hi); }
  }

  lemma {:induction false} CountAll(a: seq<real>)
    ensures CountFrom(a, 0.0) <= |a|
    ensures CountFrom(a, 0.0) == |a| <==> forall v :: v in a ==> v >= 0.0
    decreases |a|
  {
    if a != [] {
      CountAll(a[1..]);
      if a[0] < 0.0 {
        assert a[0] in a;
      } else if v :| v in a[1..] && v < 0.0 {
        assert v in a;
      } else {
        forall v | v in a ensures v >= 0.0 {
          if v != a[0] { assert v in a[1..]; }
        }
      }
    }
  }

  lemma TotalSnoc(buckets: seq<Bucket>, b: Bucket)
    ensures Total(buckets + [b]) == Total(buckets) + b.count
  {
  }

  /** Every bucket holds the values between its bounds; together they hold the
      whole sample exactly when no latency is negative. */
  method BuildHistogram(latencies: seq<real>) returns (buckets: seq<Bucket>)
    ensures |buckets| == |BOUNDS| + 1
    ensures forall i :: 0 <= i < |BOUNDS| ==>
              buckets[i] == Bucket(Some(BOUNDS[i]),
                  CountIn(latencies, if i == 0 then 0.0 else BOUNDS[i - 1], BOUNDS[i]))
    ensures buckets[|BOUNDS|] == Bucket(None, CountFrom(latencies, BOUNDS[|BOUNDS| - 1]))
    ensures Total(buckets) == |latencies| <==> forall v :: v in latencies ==> v >= 0.0
  {
    buckets := [];
    var prev := 0.0;
    for i := 0 to |BOUNDS|
      invariant |buckets| == i && prev == if i == 0 then 0.0 else BOUNDS[i - 1]
      invariant forall j :: 0 <= j < i ==>
                  buckets[j] == Bucket(Some(BOUNDS[j]),
                      CountIn(latencies, if j == 0 then 0.0 else BOUNDS[j - 1], BOUNDS[j]))
      invariant Total(buckets) + CountFrom(latencies, prev) == CountFrom(latencies, 0.0)
    {
      var upper := BOUNDS[i];
      var b := Bucket(Some(upper), CountIn(latencies, prev, upper));
      CountSplits(latencies, prev, upper);
      TotalSnoc(buckets, b);
      buckets := buckets + [b];
      prev := upper;
    }
    var last := Bucket(None, CountFrom(latencies, prev));
    TotalSnoc(buckets, last);
    buckets := buckets + [last];
    CountAll(latencies);
  }
}
