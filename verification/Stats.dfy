/** The statistics behind every latency view: sorting, nearest-rank percentiles, extrema, mean and variance
    (internal/api/rpc_komari.go, internal/store/adapters.go). Floating point is read as exact reals. */
module Stats {
  import opened Text

  // ---------- sorting ----------

  predicate Ordered(s: seq<real>) {
    forall i, j :: 0 <= i < j < |s| ==> s[i] <= s[j]
  }

  function InsertReal(s: seq<real>, x: real): (r: seq<real>)
    ensures |r| == |s| + 1
  {
    if s == [] || s[|s| - 1] <= x then s + [x]
    else InsertReal(s[..|s| - 1], x) + [s[|s| - 1]]
  }

  /** `sort.Float64s` on a copy. */
  function Sorted(vals: seq<real>): (s: seq<real>)
    ensures |s| == |vals|
  {
    if vals == [] then [] else InsertReal(Sorted(vals[..|vals| - 1]), vals[|vals| - 1])
  }

  lemma AppendOrdered(s: seq<real>, x: real)
    requires Ordered(s) && forall v :: v in s ==> v <= x
    ensures Ordered(s + [x])
  {
    assert forall k :: 0 <= k < |s| ==> s[k] in s;
  }

  lemma {:induction false} InsertRealMembers(s: seq<real>, x: real)
    ensures multiset(InsertReal(s, x)) == multiset(s) + multiset{x}
    ensures forall v :: v in InsertReal(s, x) ==> v == x || v in s
  {
    if s != [] && s[|s| - 1] > x {
      assert s == s[..|s| - 1] + [s[|s| - 1]];
      InsertRealMembers(s[..|s| - 1], x);
    }
  }

  lemma {:induction false} InsertRealOrdered(s: seq<real>, x: real)
    requires Ordered(s)
    ensures Ordered(InsertReal(s, x))
  {
    if s == [] || s[|s| - 1] <= x {
      AppendOrdered(s, x);
    } else {
      var init, last := s[..|s| - 1], s[|s| - 1];
      InsertRealOrdered(init, x);
      InsertRealMembers(init, x);
      AppendOrdered(InsertReal(init, x), last);
    }
  }

  /** An ordered permutation. */
  lemma {:induction false} SortedShape(vals: seq<real>)
    ensures Ordered(Sorted(vals)) && multiset(Sorted(vals)) == multiset(vals)
  {
    if vals == [] {
    } else {
      var init, last := vals[..|vals| - 1], vals[|vals| - 1];
      assert vals == init + [last];
      SortedShape(init);
      InsertRealOrdered(Sorted(init), last);
      InsertRealMembers(Sorted(init), last);
    }
  }

  lemma SortedSnoc(vals: seq<real>, i: nat)
    requires i < |vals|
    ensures Sorted(vals[..i + 1]) == InsertReal(Sorted(vals[..i]), vals[i])
  {
    assert vals[..i + 1][..i] == vals[..i];
  }

  method SortedCopy(vals: seq<real>) returns (s: seq<real>)
    ensures s == Sorted(vals) && Ordered(s) && multiset(s) == multiset(vals)
  {
    s := [];
    for i := 0 to |vals|
      invariant s == Sorted(vals[..i])
    {
      SortedSnoc(vals, i);
      s := InsertReal(s, vals[i]);
    }
    assert vals[..|vals|] == vals;
    SortedShape(vals);
  }

  // ---------- counting ----------

  function AtMostR(v: real): real -> bool {
    (x: real) => x <= v
  }

  function BelowR(v: real): real -> bool {
    (x: real) => x < v
  }

  function CountAtMost(vals: seq<real>, v: real): nat {
    |Filter(vals, AtMostR(v))|
  }

  function CountBelow(vals: seq<real>, v: real): nat {
    |Filter(vals, BelowR(v))|
  }

  /** Taking the last element of one list out of a permutation of it. */
  lemma TakeOut(a: seq<real>, b: seq<real>) returns (k: nat)
    requires a != [] && multiset(a) == multiset(b)
    ensures k < |b| && b[k] == a[|a| - 1]
    ensures multiset(a[..|a| - 1]) == multiset(b[..k] + b[k + 1..])
    ensures b == b[..k] + ([b[k]] + b[k + 1..])
  {
    var x := a[|a| - 1];
    assert a == a[..|a| - 1] + [x];
    assert x in multiset(b);
    k :| 0 <= k < |b| && b[k] == x;
    assert b == b[..k] + ([b[k]] + b[k + 1..]);
    assert multiset(b) == multiset(b[..k] + b[k + 1..]) + multiset{x};
    assert multiset(a[..|a| - 1]) == multiset(a) - multiset{x};
    assert multiset(b[..k] + b[k + 1..]) == multiset(b) - multiset{x};
  }

  /** Counting does not look at the order. */
  lemma {:induction false} FilterPermuted(a: seq<real>, b: seq<real>, keep: real -> bool)
    requires multiset(a) == multiset(b)
    ensures |Filter(a, keep)| == |Filter(b, keep)|
    decreases |a|
  {
    if a != [] {
      var k := TakeOut(a, b);
      FilterPermuted(a[..|a| - 1], b[..k] + b[k + 1..], keep);
      FilterConcat(b[..k], [b[k]] + b[k + 1..], keep);
      FilterConcat([b[k]], b[k + 1..], keep);
      FilterConcat(b[..k], b[k + 1..], keep);
      assert [b[k]][..0] == [];
    } else {
      assert |multiset(b)| == |b|;
    }
  }

  /** Everything below v is also at most w, when v <= w; and at most v is below w, when v < w. */
  lemma {:induction false} FilterWeaker(xs: seq<real>, p: real -> bool, q: real -> bool)
    requires forall x :: p(x) ==> q(x)
    ensures |Filter(xs, p)| <= |Filter(xs, q)|
  {
    if xs == [] {
    } else {
      FilterWeaker(xs[..|xs| - 1], p, q);
    }
  }

  // ---------- percentiles ----------

  function Ceiling(x: real): int {
    -((-x).Floor)
  }

  function RawIndex(p: real, n: nat): int {
    Ceiling(p / 100.0 * n as real) - 1
  }

  /** The 1-based rank the code picks: ceil(p/100 * n), kept inside 1..n. */
  function Rank(p: real, n: nat): (k: nat)
    requires n > 0
    ensures 1 <= k <= n
  {
    var idx := RawIndex(p, n);
    if idx < 0 then 1 else if idx >= n then n else idx + 1
  }

  function Percentile(vals: seq<real>, p: real): real {
    if vals == [] then 0.0 else Sorted(vals)[Rank(p, |vals|) - 1]
  }

  method ComputePercentile(vals: seq<real>, p: real) returns (r: real)
    ensures r == Percentile(vals, p)
  {
    if |vals| == 0 { return 0.0; }
    var sorted := SortedCopy(vals);
    var idx := RawIndex(p, |sorted|);
    if idx < 0 { idx := 0; }
    if idx >= |sorted| { idx := |sorted| - 1; }
    return sorted[idx];
  }

  /** v is the k-th smallest sample: at least k samples are at most v, and fewer than k are below it. */
  predicate NearestRank(vals: seq<real>, k: nat, v: real) {
    CountAtMost(vals, v) >= k && CountBelow(vals, v) < k
  }

  lemma SortedRank(s: seq<real>, k: nat)
    requires Ordered(s) && 1 <= k <= |s|
    ensures NearestRank(s, k, s[k - 1])
  {
    var v := s[k - 1];
    assert s == s[..k] + s[k..] && s == s[..k - 1] + s[k - 1..];
    FilterConcat(s[..k], s[k..], AtMostR(v));
    FilterAll(s[..k], AtMostR(v));
    FilterConcat(s[..k - 1], s[k - 1..], BelowR(v));
    FilterNone(s[k - 1..], BelowR(v));
  }

  lemma NearestRankUnique(vals: seq<real>, k: nat, v: real, w: real)
    requires NearestRank(vals, k, v) && NearestRank(vals, k, w)
    ensures v == w
  {
    if v < w {
      FilterWeaker(vals, AtMostR(v), BelowR(w));
    } else if w < v {
      FilterWeaker(vals, AtMostR(w), BelowR(v));
    }
  }

  /** `percentile` is the nearest-rank element, and the only one, for every p. */
  lemma PercentileIsNearestRank(vals: seq<real>, p: real, v: real)
    requires vals != []
    ensures NearestRank(vals, Rank(p, |vals|), v) <==> v == Percentile(vals, p)
  {
    var s, k := Sorted(vals), Rank(p, |vals|);
    var w := s[k - 1];
    SortedShape(vals);
    SortedRank(s, k);
    FilterPermuted(s, vals, AtMostR(w));
    FilterPermuted(s, vals, BelowR(w));
    if NearestRank(vals, k, v) {
      NearestRankUnique(vals, k, v, w);
    }
  }

  lemma TimesMonotone(a: real, b: real, c: real)
    requires a <= b && c >= 0.0
    ensures a * c <= b * c
  {
  }

  lemma FloorMonotone(x: real, y: real)
    requires x <= y
    ensures x.Floor <= y.Floor
  {
  }

  lemma CeilingExactly(y: real, m: int)
    ensures Ceiling(y) == m <==> (m - 1) as real < y <= m as real
  {
    assert (-y).Floor as real <= -y < (-y).Floor as real + 1.0;
  }

  /** The rank is k exactly if p lies above the share of k - 1 samples and not above that of k, where the first
      sample takes all lower and the last one all higher p. */
  lemma RankExactly(p: real, n: nat, k: nat)
    requires n > 0
    ensures Rank(p, n) == k
            <==> 1 <= k <= n && (k == 1 || 100.0 * (k - 1) as real < p * n as real)
                 && (k == n || p * n as real <= 100.0 * k as real)
  {
    var y := p / 100.0 * n as real;
    assert y * 100.0 == p * n as real;
    CeilingExactly(y, Ceiling(y));
  }

  /** The k-th smallest of the samples, where k of them make up p percent, is the percentile and nothing
      else is: at least k samples are at most it and fewer than k are below it. */
  lemma PercentileExactly(vals: seq<real>, p: real, k: nat, v: real)
    requires 1 <= k <= |vals| && (k == 1 || 100.0 * (k - 1) as real < p * |vals| as real)
    requires k == |vals| || p * |vals| as real <= 100.0 * k as real
    ensures v == Percentile(vals, p) <==> CountAtMost(vals, v) >= k && CountBelow(vals, v) < k
  {
    RankExactly(p, |vals|, k);
    PercentileIsNearestRank(vals, p, v);
  }

  /** Percentiles do not depend on the order of the samples. */
  lemma PercentilePermuted(a: seq<real>, b: seq<real>, p: real)
    requires multiset(a) == multiset(b)
    ensures Percentile(a, p) == Percentile(b, p)
  {
    assert |multiset(a)| == |a| && |multiset(b)| == |b|;
    if a != [] {
      var v := Percentile(a, p);
      PercentileIsNearestRank(a, p, v);
      FilterPermuted(a, b, AtMostR(v));
      FilterPermuted(a, b, BelowR(v));
      PercentileIsNearestRank(b, p, v);
    }
  }

  lemma CeilingMonotone(x: real, y: real)
    requires x <= y
    ensures Ceiling(x) <= Ceiling(y)
  {
  }

  lemma RankMonotone(p: real, q: real, n: nat)
    requires n > 0 && p <= q
    ensures Rank(p, n) <= Rank(q, n)
  {
    TimesMonotone(p / 100.0, q / 100.0, n as real);
    CeilingMonotone(p / 100.0 * n as real, q / 100.0 * n as real);
  }

  /** They grow with p. */
  lemma PercentileMonotone(vals: seq<real>, p: real, q: real)
    requires p <= q
    ensures Percentile(vals, p) <= Percentile(vals, q)
  {
    if vals != [] {
      RankMonotone(p, q, |vals|);
      SortedShape(vals);
    }
  }

  // ---------- minimum, maximum, mean, variance ----------

  function MinOf(vals: seq<real>): real
    requires vals != []
  {
    if |vals| == 1 then vals[0]
    else var m := MinOf(vals[..|vals| - 1]); if vals[|vals| - 1] < m then vals[|vals| - 1] else m
  }

  function MaxOf(vals: seq<real>): real
    requires vals != []
  {
    if |vals| == 1 then vals[0]
    else var m := MaxOf(vals[..|vals| - 1]); if vals[|vals| - 1] > m then vals[|vals| - 1] else m
  }

  function Sum(vals: seq<real>): real {
    if vals == [] then 0.0 else Sum(vals[..|vals| - 1]) + vals[|vals| - 1]
  }

  function Mean(vals: seq<real>): real
    requires vals != []
  {
    Sum(vals) / |vals| as real
  }

  function SumSquares(vals: seq<real>, around: real): real {
    if vals == [] then 0.0
    else SumSquares(vals[..|vals| - 1], around) + (vals[|vals| - 1] - around) * (vals[|vals| - 1] - around)
  }

  function Variance(vals: seq<real>): real
    requires vals != []
  {
    SumSquares(vals, Mean(vals)) / |vals| as real
  }

  lemma SumsSnoc(vals: seq<real>, i: nat, around: real)
    requires i < |vals|
    ensures Sum(vals[..i + 1]) == Sum(vals[..i]) + vals[i]
    ensures SumSquares(vals[..i + 1], around) == SumSquares(vals[..i], around) + (vals[i] - around) * (vals[i] - around)
  {
    assert vals[..i + 1][..i] == vals[..i];
  }

  lemma ExtremaSnoc(vals: seq<real>, i: nat)
    requires 0 < i < |vals|
    ensures MinOf(vals[..i + 1]) == if vals[i] < MinOf(vals[..i]) then vals[i] else MinOf(vals[..i])
    ensures MaxOf(vals[..i + 1]) == if vals[i] > MaxOf(vals[..i]) then vals[i] else MaxOf(vals[..i])
  {
    assert vals[..i + 1][..i] == vals[..i];
  }

  /** `stats`, up to the final square root. */
  method ComputeStats(vals: seq<real>) returns (minV: real, maxV: real, avg: real, variance: real)
    requires vals != []
    ensures minV == MinOf(vals) && maxV == MaxOf(vals) && avg == Mean(vals) && variance == Variance(vals)
  {
    minV, maxV := vals[0], vals[0];
    var sum := 0.0;
    for i := 0 to |vals|
      invariant sum == Sum(vals[..i])
      invariant i == 0 ==> minV == vals[0] && maxV == vals[0]
      invariant i > 0 ==> minV == MinOf(vals[..i]) && maxV == MaxOf(vals[..i])
    {
      SumsSnoc(vals, i, 0.0);
      if i > 0 { ExtremaSnoc(vals, i); }
      var v := vals[i];
      sum := sum + v;
      if v < minV { minV := v; }
      if v > maxV { maxV := v; }
    }
    assert vals[..|vals|] == vals;
    avg := sum / |vals| as real;
    var sq := 0.0;
    for i := 0 to |vals|
      invariant sq == SumSquares(vals[..i], avg)
    {
      SumsSnoc(vals, i, avg);
      sq := sq + (vals[i] - avg) * (vals[i] - avg);
    }
    assert vals[..|vals|] == vals;
    variance := sq / |vals| as real;
  }

  lemma {:induction false} ExtremaBound(vals: seq<real>)
    requires vals != []
    ensures MinOf(vals) in vals && MaxOf(vals) in vals
    ensures forall x :: x in vals ==> MinOf(vals) <= x <= MaxOf(vals)
  {
    if |vals| > 1 {
      ExtremaBound(vals[..|vals| - 1]);
      assert vals == vals[..|vals| - 1] + [vals[|vals| - 1]];
    }
  }

  lemma OneMore(lo: real, sum: real, hi: real, x: real, n: nat)
    requires lo * n as real <= sum <= hi * n as real && lo <= x <= hi
    ensures lo * (n + 1) as real <= sum + x <= hi * (n + 1) as real
  {
  }

  lemma {:induction false} SumBound(vals: seq<real>, lo: real, hi: real)
    requires forall k :: 0 <= k < |vals| ==> lo <= vals[k] <= hi
    ensures lo * |vals| as real <= Sum(vals) <= hi * |vals| as real
  {
    if vals == [] {
    } else {
      var n := |vals| - 1;
      SumBound(vals[..n], lo, hi);
      OneMore(lo, Sum(vals[..n]), hi, vals[n], n);
    }
  }

  lemma QuotientBetween(lo: real, sum: real, hi: real, n: nat)
    requires n > 0 && lo * n as real <= sum <= hi * n as real
    ensures lo <= sum / n as real <= hi
  {
    assert sum / n as real * n as real == sum;
  }

  /** The mean times the number of samples is their sum. */
  lemma MeanExactly(vals: seq<real>)
    requires vals != []
    ensures Mean(vals) * |vals| as real == Sum(vals)
  {
  }

  function Squares(vals: seq<real>): (r: seq<real>)
    ensures |r| == |vals| && forall k :: 0 <= k < |r| ==> r[k] == vals[k] * vals[k]
  {
    MapSeq((v: real) => v * v, vals)
  }

  lemma OneSquare(sq: real, sum: real, n: nat, around: real, v: real)
    ensures sq + v * v - 2.0 * around * (sum + v) + (n + 1) as real * around * around
            == (sq - 2.0 * around * sum + n as real * around * around) + (v - around) * (v - around)
  {
  }

  lemma {:induction false} SquaresAround(vals: seq<real>, around: real)
    ensures SumSquares(vals, around)
            == Sum(Squares(vals)) - 2.0 * around * Sum(vals) + |vals| as real * around * around
  {
    if vals == [] {
    } else {
      var n := |vals| - 1;
      SquaresAround(vals[..n], around);
      assert Squares(vals)[..n] == Squares(vals[..n]);
      OneSquare(Sum(Squares(vals[..n])), Sum(vals[..n]), n, around, vals[n]);
    }
  }

  lemma MeanCancels(mean: real, sum: real, n: real)
    requires mean * n == sum
    ensures 2.0 * mean * sum - n * mean * mean == n * (mean * mean)
  {
    assert mean * sum == mean * (mean * n);
  }

  /** The variance is the mean of the squares less the square of the mean. */
  lemma VarianceExactly(vals: seq<real>)
    requires vals != []
    ensures |vals| as real * (Variance(vals) + Mean(vals) * Mean(vals)) == Sum(Squares(vals))
  {
    var n, mean := |vals| as real, Mean(vals);
    MeanExactly(vals);
    SquaresAround(vals, mean);
    MeanCancels(mean, Sum(vals), n);
    assert Variance(vals) * n == SumSquares(vals, mean);
  }

  lemma {:induction false} SquaresNotNegative(vals: seq<real>, around: real)
    ensures SumSquares(vals, around) >= 0.0
  {
    if vals == [] {
    } else {
      SquaresNotNegative(vals[..|vals| - 1], around);
      var d := vals[|vals| - 1] - around;
      assert d * d >= 0.0;
    }
  }

  lemma SumBetween(vals: seq<real>)
    requires vals != []
    ensures MinOf(vals) * |vals| as real <= Sum(vals) <= MaxOf(vals) * |vals| as real
  {
    var lo, hi := MinOf(vals), MaxOf(vals);
    ExtremaBound(vals);
    forall k | 0 <= k < |vals| ensures lo <= vals[k] <= hi {
      assert vals[k] in vals;
    }
    SumBound(vals, lo, hi);
  }

  lemma MeanBetween(vals: seq<real>)
    requires vals != []
    ensures MinOf(vals) <= Mean(vals) <= MaxOf(vals)
  {
    SumBetween(vals);
    QuotientBetween(MinOf(vals), Sum(vals), MaxOf(vals), |vals|);
  }

  lemma VarianceNotNegative(vals: seq<real>)
    requires vals != []
    ensures Variance(vals) >= 0.0
  {
    SquaresNotNegative(vals, Mean(vals));
  }

  /** The order every view relies on. */
  lemma StatsOrder(vals: seq<real>, p: real, q: real)
    requires vals != [] && p <= q
    ensures MinOf(vals) <= Percentile(vals, p) <= Percentile(vals, q) <= MaxOf(vals)
    ensures MinOf(vals) <= Mean(vals) <= MaxOf(vals) && Variance(vals) >= 0.0
  {
    ExtremaBound(vals);
    PercentileMonotone(vals, p, q);
    PercentileMember(vals, p);
    PercentileMember(vals, q);
    MeanBetween(vals);
    VarianceNotNegative(vals);
  }

  lemma SortedMember(vals: seq<real>, i: nat)
    requires i < |vals|
    ensures Sorted(vals)[i] in vals
  {
    SortedShape(vals);
    assert Sorted(vals)[i] in multiset(Sorted(vals));
  }

  lemma PercentileMember(vals: seq<real>, p: real)
    requires vals != []
    ensures Percentile(vals, p) in vals
  {
    SortedMember(vals, Rank(p, |vals|) - 1);
  }

  // ---------- reading a list backwards ----------

  function Reverse<T>(xs: seq<T>): (r: seq<T>)
    ensures |r| == |xs| && forall k :: 0 <= k < |xs| ==> r[k] == xs[|xs| - 1 - k]
  {
    if xs == [] then [] else [xs[|xs| - 1]] + Reverse(xs[..|xs| - 1])
  }

  lemma {:induction false} ReverseMultiset(xs: seq<real>)
    ensures multiset(Reverse(xs)) == multiset(xs)
  {
    if xs == [] {
    } else {
      ReverseMultiset(xs[..|xs| - 1]);
      assert xs == xs[..|xs| - 1] + [xs[|xs| - 1]];
    }
  }

  lemma {:induction false} SumConcat(a: seq<real>, b: seq<real>)
    ensures Sum(a + b) == Sum(a) + Sum(b)
  {
    if b == [] {
      assert a + b == a;
    } else {
      assert (a + b)[..|a + b| - 1] == a + b[..|b| - 1];
      SumConcat(a, b[..|b| - 1]);
    }
  }

  /** The sum depends on the samples only, not on their order. */
  lemma {:induction false} SumPermuted(a: seq<real>, b: seq<real>)
    requires multiset(a) == multiset(b)
    ensures Sum(a) == Sum(b)
    decreases |a|
  {
    if a != [] {
      var k := TakeOut(a, b);
      SumPermuted(a[..|a| - 1], b[..k] + b[k + 1..]);
      SumConcat(b[..k], [b[k]] + b[k + 1..]);
      SumConcat([b[k]], b[k + 1..]);
      SumConcat(b[..k], b[k + 1..]);
      assert [b[k]][..0] == [];
      assert Sum([b[k]]) == b[k];
    } else {
      assert |multiset(b)| == |b|;
    }
  }

  lemma ExtremaPermuted(a: seq<real>, b: seq<real>)
    requires a != [] && multiset(a) == multiset(b)
    ensures b != [] && MinOf(a) == MinOf(b) && MaxOf(a) == MaxOf(b)
  {
    assert |multiset(a)| == |a| && |multiset(b)| == |b|;
    ExtremaBound(a);
    ExtremaBound(b);
    assert forall x :: x in multiset(a) <==> x in a;
    assert forall x :: x in multiset(b) <==> x in b;
  }
}
