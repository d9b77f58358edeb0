/** The three views of one task's probe results: the dashboard summary (`summarizePing`), the task list
    (`buildPingTasks`) and the metric statistics with their series (`rpcPingMetricStats`,
    `pingMetricSeries`). A negative value is a lost probe. */
module PingViews {
  import opened Text
  import opened Stats
  import opened History
  import opened Queries

  function Good(): real -> bool {
    (v: real) => v >= 0.0
  }

  /** The successful samples. */
  function Valid(vals: seq<real>): seq<real> {
    Filter(vals, Good())
  }

  // ---------- summarizePing ----------

  datatype Summary = Summary(name: string, latest: real, avg: real, tail: real, loss: real, min: real, max: real)

  function TailIndex(n: nat): int {
    ((n - 1) as real * 0.95).Floor
  }

  lemma TailIndexInRange(n: nat)
    requires n > 0
    ensures 0 <= TailIndex(n) < n
  {
    var x := (n - 1) as real;
    assert 0.0 <= x * 0.95 <= x;
    FloorMonotone(0.0, x * 0.95);
    FloorMonotone(x * 0.95, x);
    assert x.Floor == n - 1;
  }

  function Share(part: int, whole: nat): real
    requires whole > 0
  {
    part as real / whole as real
  }

  function TailOf(ok: seq<real>): real
    requires ok != []
  {
    TailIndexInRange(|ok|);
    Sorted(ok)[TailIndex(|ok|)]
  }

  /** The values of one task, newest first. */
  function Summarize(name: string, vals: seq<real>): Summary {
    var ok := Valid(vals);
    if ok == [] then Summary(name, -1.0, 0.0, 0.0, 100.0, 0.0, 0.0)
    else Summary(name, vals[0], Mean(ok), TailOf(ok), Share(|vals| - |ok|, |vals|) * 100.0, MinOf(ok), MaxOf(ok))
  }

  /** The counting loop of summarizePing. */
  method SplitValid(vals: seq<real>) returns (ok: seq<real>, fail: nat)
    ensures ok == Valid(vals) && fail == |vals| - |ok|
  {
    ok, fail := [], 0;
    for i := 0 to |vals|
      invariant ok == Valid(vals[..i]) && fail == i - |ok|
    {
      assert vals[..i + 1] == vals[..i] + [vals[i]];
      FilterSnoc(vals[..i], vals[i], Good());
      if vals[i] < 0.0 {
        fail := fail + 1;
        continue;
      }
      ok := ok + [vals[i]];
    }
    assert vals[..|vals|] == vals;
  }

  method ComputeTail(ok: seq<real>) returns (tail: real)
    requires ok != []
    ensures tail == TailOf(ok)
  {
    var sorted := SortedCopy(ok);
    TailIndexInRange(|ok|);
    tail := sorted[TailIndex(|sorted|)];
  }

  /** summarizePing. */
  method SummarizePing(name: string, vals: seq<real>) returns (p: Summary)
    ensures p == Summarize(name, vals)
  {
    if |vals| == 0 {
      return Summary(name, -1.0, 0.0, 0.0, 100.0, 0.0, 0.0);
    }
    var ok, fail := SplitValid(vals);
    var loss := Share(fail, |vals|) * 100.0;
    if |ok| == 0 {
      return Summary(name, -1.0, 0.0, 0.0, 100.0, 0.0, 0.0);
    }
    var minV, maxV, avg, _ := ComputeStats(ok);
    var tail := ComputeTail(ok);
    p := Summary(name, vals[0], avg, tail, loss, minV, maxV);
  }

  /** Whenever some sample succeeded, Min <= Avg <= Max and Min <= Tail <= Max. */
  lemma SummaryOrder(name: string, vals: seq<real>)
    requires Valid(vals) != []
    ensures var p := Summarize(name, vals);
            p.min <= p.tail <= p.max && p.min <= p.avg <= p.max && 0.0 <= p.loss <= 100.0
  {
    var ok := Valid(vals);
    TailIndexInRange(|ok|);
    ExtremaBound(ok);
    SortedMember(ok, TailIndex(|ok|));
    MeanBetween(ok);
    ShareBounds(|vals| - |ok|, |vals|);
  }

  lemma ShareBounds(k: nat, n: nat)
    requires n > 0 && k <= n
    ensures 0.0 <= k as real / n as real <= 1.0
  {
    QuotientBetween(0.0, k as real, 1.0, n);
  }

  /** The successful samples are those that are not negative, in order. */
  lemma ValidExactly(vals: seq<real>) returns (idx: seq<nat>)
    ensures Climbing(idx, |vals|) && Valid(vals) == Pick(vals, idx)
    ensures forall i: nat :: i in idx <==> i < |vals| && vals[i] >= 0.0
  {
    idx := FilterPlaces(vals, Good());
  }

  lemma TailRank(n: nat, k: nat)
    requires n > 0 && 100 * (k - 1) <= 95 * (n - 1) < 100 * k
    ensures TailIndex(n) == k - 1 && k <= n
  {
    var x := (n - 1) as real * 0.95;
    assert (k - 1) as real <= x < k as real;
  }

  lemma TailOfSorted(ok: seq<real>, k: nat)
    requires ok != [] && 100 * (k - 1) <= 95 * (|ok| - 1) < 100 * k
    ensures CountAtMost(ok, TailOf(ok)) >= k && CountBelow(ok, TailOf(ok)) < k
  {
    TailRank(|ok|, k);
    var s, v := Sorted(ok), TailOf(ok);
    SortedShape(ok);
    SortedRank(s, k);
    FilterPermuted(s, ok, AtMostR(v));
    FilterPermuted(s, ok, BelowR(v));
  }

  /** The tail is the k-th smallest of the successful samples, where k - 1 is 95 % of the other samples, rounded
      down. */
  lemma TailExactly(name: string, vals: seq<real>, k: nat)
    requires Valid(vals) != [] && 100 * (k - 1) <= 95 * (|Valid(vals)| - 1) < 100 * k
    ensures var ok, tail := Valid(vals), Summarize(name, vals).tail;
            CountAtMost(ok, tail) >= k && CountBelow(ok, tail) < k
  {
    TailOfSorted(Valid(vals), k);
  }

  /** What a summary says of a window, `ok` being its successful samples. */
  ghost predicate Sums(p: Summary, name: string, vals: seq<real>, ok: seq<real>) {
    && p.name == name && vals != [] && p.latest == vals[0]
    && ok != [] && p.loss == (|vals| - |ok|) as real / |vals| as real * 100.0
    && p.avg == Sum(ok) / |ok| as real
    && p.min in ok && p.max in ok && forall v :: v in ok ==> p.min <= v <= p.max
  }

  lemma SummaryFields(name: string, vals: seq<real>)
    requires Valid(vals) != []
    ensures var p, ok := Summarize(name, vals), Valid(vals);
            && p.name == name && p.latest == vals[0] && p.loss == Share(|vals| - |ok|, |vals|) * 100.0
            && p.avg == Mean(ok) && p.min == MinOf(ok) && p.max == MaxOf(ok)
  {
  }

  lemma FieldsSum(p: Summary, name: string, vals: seq<real>, ok: seq<real>)
    requires ok == Valid(vals) != [] && p.name == name && p.latest == vals[0]
    requires p.loss == Share(|vals| - |ok|, |vals|) * 100.0
    requires p.avg == Mean(ok) && p.min == MinOf(ok) && p.max == MaxOf(ok)
    ensures Sums(p, name, vals, ok)
  {
    ExtremaBound(ok);
  }

  /** The rest of the summary of a window with a successful sample: the latest value is the newest one, lost or
      not; the loss is the share of the negative values in percent; and minimum, maximum and mean are those of
      the successful samples. */
  lemma SummaryExactly(name: string, vals: seq<real>)
    requires Valid(vals) != []
    ensures Sums(Summarize(name, vals), name, vals, Valid(vals))
  {
    var p, ok := Summarize(name, vals), Valid(vals);
    SummaryFields(name, vals);
    FieldsSum(p, name, vals, ok);
  }

  /** A window without a successful sample, empty or not, shows a loss of 100 % and the latest value -1. */
  lemma SummaryOfLost(name: string, vals: seq<real>)
    requires forall v :: v in vals ==> v < 0.0
    ensures Summarize(name, vals) == Summary(name, -1.0, 0.0, 0.0, 100.0, 0.0, 0.0)
  {
    FilterNone(vals, Good());
  }

  /** The twenty values 20, 19, ..., 1. */
  function Twenty(): (vals: seq<real>)
    ensures |vals| == 20 && forall k :: 0 <= k < 20 ==> vals[k] == (20 - k) as real
  {
    seq(20, k => (20 - k) as real)
  }

  lemma {:induction false} BelowNineteen(n: nat)
    requires n <= 20
    ensures CountBelow(Twenty()[..n], 19.0) == if n < 2 then 0 else n - 2
    ensures CountAtMost(Twenty()[..n], 19.0) == if n < 1 then 0 else n - 1
  {
    if n == 0 {
    } else {
      BelowNineteen(n - 1);
      assert Twenty()[..n] == Twenty()[..n - 1] + [Twenty()[n - 1]];
      FilterSnoc(Twenty()[..n - 1], Twenty()[n - 1], BelowR(19.0));
      FilterSnoc(Twenty()[..n - 1], Twenty()[n - 1], AtMostR(19.0));
    }
  }

  /** Of twenty samples the tail is the second highest. */
  lemma TailExample(name: string)
    ensures Summarize(name, Twenty()).tail == 19.0
  {
    var vals := Twenty();
    FilterAll(vals, Good());
    TailExactly(name, vals, 19);
    BelowNineteen(20);
    assert vals[..20] == vals;
    NearestRankUnique(vals, 19, Summarize(name, vals).tail, 19.0);
  }

  // ---------- buildPingTasks and rpcPingMetricStats ----------

  /** The figures both views compute; `loss` is a ratio, `variance` stands for the square of stddev, and
      the p99/p50 ratio is 0 when p50 is. */
  datatype Figures = Figures(total: nat, valid: nat, latest: real, loss: real, min: real, max: real, avg: real,
                             variance: real,
                             p50: real, p99: real, ratio: real)

  function LossRatio(vals: seq<real>): real {
    if vals == [] then 0.0 else Share(|vals| - |Valid(vals)|, |vals|)
  }

  /** The values of one task, oldest first. */
  function FiguresOf(vals: seq<real>): Figures {
    var ok := Valid(vals);
    var latest := if vals == [] then 0.0 else vals[|vals| - 1];
    if ok == [] then Figures(|vals|, 0, latest, LossRatio(vals), 0.0, 0.0, 0.0, 0.0, 0.0, 0.0, 0.0)
    else
      var p50, p99 := Percentile(ok, 50.0), Percentile(ok, 99.0);
      Figures(|vals|, |ok|, latest, LossRatio(vals), MinOf(ok), MaxOf(ok), Mean(ok), Variance(ok), p50, p99,
              if p50 > 0.0 then p99 / p50 else 0.0)
  }

  lemma FiguresFields(vals: seq<real>)
    requires Valid(vals) != []
    ensures var f, ok := FiguresOf(vals), Valid(vals);
            && f.total == |vals| && f.valid == |ok| && f.latest == vals[|vals| - 1]
            && f.loss == Share(|vals| - |ok|, |vals|) && f.min == MinOf(ok) && f.max == MaxOf(ok)
            && f.avg == Mean(ok) && f.variance == Variance(ok)
            && f.p50 == Percentile(ok, 50.0) && f.p99 == Percentile(ok, 99.0)
            && f.ratio == if f.p50 > 0.0 then f.p99 / f.p50 else 0.0
  {
  }

  /** What the figures of some records say, `ok` being their successful samples. */
  ghost predicate Describes(f: Figures, vals: seq<real>, ok: seq<real>) {
    && f.total == |vals| && f.valid == |ok| && vals != [] && f.latest == vals[|vals| - 1]
    && ok != [] && f.loss == (|vals| - |ok|) as real / |vals| as real && f.avg == Sum(ok) / |ok| as real
    && f.variance == Variance(ok)
    && f.min in ok && f.max in ok && (forall v :: v in ok ==> f.min <= v <= f.max)
    && f.ratio == if f.p50 > 0.0 then f.p99 / f.p50 else 0.0
  }

  lemma FieldsDescribe(f: Figures, vals: seq<real>, ok: seq<real>)
    requires ok == Valid(vals) != []
    requires f.total == |vals| && f.valid == |ok| && f.latest == vals[|vals| - 1]
    requires f.loss == Share(|vals| - |ok|, |vals|) && f.min == MinOf(ok) && f.max == MaxOf(ok)
    requires f.avg == Mean(ok) && f.variance == Variance(ok)
    requires f.ratio == if f.p50 > 0.0 then f.p99 / f.p50 else 0.0
    ensures Describes(f, vals, ok)
  {
    ExtremaBound(ok);
  }

  /** The figures of some records of which one succeeded: the loss is the share of the negative values;
      minimum, maximum, mean and variance are those of the successful samples; and the ratio is the quotient of
      p99 and p50, 0 for a p50 of 0. */
  lemma FiguresExactly(vals: seq<real>)
    requires Valid(vals) != []
    ensures Describes(FiguresOf(vals), vals, Valid(vals))
  {
    FiguresFields(vals);
    FieldsDescribe(FiguresOf(vals), vals, Valid(vals));
  }

  /** p50 and p99 are the k-th and l-th smallest of the successful samples, where k and l samples make up 50 and
      99 percent of them. */
  lemma FiguresPercentiles(vals: seq<real>, k: nat, l: nat)
    requires Valid(vals) != []
    requires 100 * (k - 1) < 50 * |Valid(vals)| <= 100 * k && 100 * (l - 1) < 99 * |Valid(vals)| <= 100 * l
    ensures var f, ok := FiguresOf(vals), Valid(vals);
            && CountAtMost(ok, f.p50) >= k && CountBelow(ok, f.p50) < k
            && CountAtMost(ok, f.p99) >= l && CountBelow(ok, f.p99) < l
  {
    var ok := Valid(vals);
    FiguresFields(vals);
    PercentileExactly(ok, 50.0, k, FiguresOf(vals).p50);
    PercentileExactly(ok, 99.0, l, FiguresOf(vals).p99);
  }

  /** Without a successful sample all of them are zero but the number of records, the latest value and, if
      there is a record, the loss. */
  lemma FiguresOfLost(vals: seq<real>)
    requires forall v :: v in vals ==> v < 0.0
    ensures FiguresOf(vals)
            == Figures(|vals|, 0, if vals == [] then 0.0 else vals[|vals| - 1], if vals == [] then 0.0 else 1.0,
                       0.0, 0.0, 0.0, 0.0, 0.0, 0.0, 0.0)
  {
    FilterNone(vals, Good());
    LostRatio(vals);
  }

  /** The part after the counting loop, the same text in both functions. */
  method FillFigures(f: Figures, ok: seq<real>) returns (g: Figures)
    ensures g == if ok == [] then f
                 else f.(min := MinOf(ok), max := MaxOf(ok), avg := Mean(ok), variance := Variance(ok),
                         p50 := Percentile(ok, 50.0), p99 := Percentile(ok, 99.0),
                         ratio := if Percentile(ok, 50.0) > 0.0 then Percentile(ok, 99.0) / Percentile(ok, 50.0)
                             else f.ratio)
  {
    g := f;
    if |ok| > 0 {
      var minV, maxV, avg, variance := ComputeStats(ok);
      var p50 := ComputePercentile(ok, 50.0);
      var p99 := ComputePercentile(ok, 99.0);
      g := g.(min := minV, max := maxV, avg := avg, variance := variance, p50 := p50, p99 := p99);
      if p50 > 0.0 {
        g := g.(ratio := p99 / p50);
      }
    }
  }

  /** The counting loop, the same in both functions. */
  method CountRecords(recs: seq<real>) returns (valid: nat, latest: real, vals: seq<real>)
    ensures vals == Valid(recs) && valid == |vals|
    ensures latest == if recs == [] then 0.0 else recs[|recs| - 1]
  {
    valid, latest, vals := 0, 0.0, [];
    for i := 0 to |recs|
      invariant vals == Valid(recs[..i]) && valid == |vals|
      invariant latest == if i == 0 then 0.0 else recs[i - 1]
    {
      assert recs[..i + 1] == recs[..i] + [recs[i]];
      FilterSnoc(recs[..i], recs[i], Good());
      if recs[i] >= 0.0 {
        valid := valid + 1;
        vals := vals + [recs[i]];
      }
      latest := recs[i];
    }
    assert recs[..|recs|] == recs;
  }

  /** The per-task body of buildPingTasks; its loss is a percentage. */
  method TaskFigures(recs: seq<real>) returns (info: Figures)
    ensures info == FiguresOf(recs).(loss := LossRatio(recs) * 100.0)
  {
    var valid, latest, vals := CountRecords(recs);
    var loss := 0.0;
    if |recs| > 0 {
      loss := Share(|recs| - valid, |recs|) * 100.0;
    }
    info := FillFigures(Figures(|recs|, valid, latest, loss, 0.0, 0.0, 0.0, 0.0, 0.0, 0.0, 0.0), vals);
  }

  /** The per-task body of rpcPingMetricStats. */
  method MetricFigures(recs: seq<real>) returns (st: Figures)
    ensures st == FiguresOf(recs)
  {
    var valid, latest, vals := CountRecords(recs);
    var loss := 0.0;
    if |recs| > 0 {
      loss := Share(|recs| - valid, |recs|);
    }
    st := FillFigures(Figures(|recs|, valid, latest, loss, 0.0, 0.0, 0.0, 0.0, 0.0, 0.0, 0.0), vals);
  }

  // ---------- the series ----------

  /** The values of the `ping.loss` series: one point per record. */
  function LossPoints(vals: seq<real>): (ps: seq<real>)
    ensures |ps| == |vals| && forall k :: 0 <= k < |ps| ==> ps[k] == if vals[k] < 0.0 then 1.0 else 0.0
  {
    if vals == [] then []
    else LossPoints(vals[..|vals| - 1]) + [if vals[|vals| - 1] < 0.0 then 1.0 else 0.0]
  }

  /** The two inner loops of pingMetricSeries: the latency points are the successful samples. */
  method Series(recs: seq<real>) returns (latency: seq<real>, loss: seq<real>)
    ensures latency == Valid(recs) && loss == LossPoints(recs)
    ensures |loss| == |recs| && forall k :: 0 <= k < |loss| ==> loss[k] == if recs[k] < 0.0 then 1.0 else 0.0
  {
    latency, loss := [], [];
    for i := 0 to |recs|
      invariant latency == Valid(recs[..i])
    {
      assert recs[..i + 1] == recs[..i] + [recs[i]];
      FilterSnoc(recs[..i], recs[i], Good());
      if recs[i] < 0.0 { continue; }
      latency := latency + [recs[i]];
    }
    for i := 0 to |recs|
      invariant loss == LossPoints(recs[..i])
    {
      assert recs[..i + 1][..i] == recs[..i];
      var v := 0.0;
      if recs[i] < 0.0 { v := 1.0; }
      loss := loss + [v];
    }
    assert recs[..|recs|] == recs;
  }

  lemma {:induction false} LossSum(vals: seq<real>)
    ensures Sum(LossPoints(vals)) == (|vals| - |Valid(vals)|) as real
  {
    if vals == [] {
    } else {
      LossSum(vals[..|vals| - 1]);
      assert LossPoints(vals)[..|vals| - 1] == LossPoints(vals[..|vals| - 1]);
    }
  }

  /** Loss accounting agrees across the views of the same records: the loss ratio of the statistics is the
      mean of the loss series, and there are as many latency points as valid samples. */
  lemma LossAgrees(vals: seq<real>)
    requires vals != []
    ensures FiguresOf(vals).loss == Mean(LossPoints(vals))
    ensures FiguresOf(vals).valid == |Valid(vals)| && FiguresOf(vals).total == |LossPoints(vals)|
  {
    LossSum(vals);
  }

  lemma {:induction false} ValidReversed(vals: seq<real>)
    ensures Valid(Reverse(vals)) == Reverse(Valid(vals))
  {
    if vals == [] {
    } else {
      var n := |vals| - 1;
      ValidReversed(vals[..n]);
      FilterConcat([vals[n]], Reverse(vals[..n]), Good());
      assert Filter([vals[n]], Good()) == if vals[n] >= 0.0 then [vals[n]] else [] by {
        assert [vals[n]][..0] == [];
      }
      if vals[n] >= 0.0 {
        ReverseSnoc(Valid(vals[..n]), vals[n]);
      }
    }
  }

  lemma ReverseSnoc(xs: seq<real>, x: real)
    ensures Reverse(xs + [x]) == [x] + Reverse(xs)
  {
    assert (xs + [x])[..|xs|] == xs;
  }

  lemma SameSamples(ok: seq<real>)
    requires ok != []
    ensures MinOf(Reverse(ok)) == MinOf(ok) && MaxOf(Reverse(ok)) == MaxOf(ok) && Mean(Reverse(ok)) == Mean(ok)
  {
    ReverseMultiset(ok);
    ExtremaPermuted(ok, Reverse(ok));
    SumPermuted(ok, Reverse(ok));
  }

  lemma LostRatio(vals: seq<real>)
    requires Valid(vals) == []
    ensures LossRatio(vals) == if vals == [] then 0.0 else 1.0
  {
    if vals != [] {
      var n := |vals| as real;
      QuotientBetween(1.0, n, 1.0, |vals|);
      assert LossRatio(vals) == Share(|vals|, |vals|) == n / n;
    }
  }

  predicate SameSpread(s: Summary, f: Figures) {
    s.min == f.min && s.max == f.max && s.avg == f.avg
  }

  lemma AgreesWithSamples(name: string, vals: seq<real>)
    requires Valid(vals) != []
    ensures var s, f := Summarize(name, Reverse(vals)), FiguresOf(vals);
            SameSpread(s, f) && s.loss == f.loss * 100.0 && s.latest == f.latest
  {
    ValidReversed(vals);
    SameSamples(Valid(vals));
  }

  lemma AgreesWithoutSamples(name: string, vals: seq<real>)
    requires Valid(vals) == []
    ensures var s, f := Summarize(name, Reverse(vals)), FiguresOf(vals);
            && SameSpread(s, f) && s.loss == 100.0 && s.latest == -1.0
            && f.loss == (if vals == [] then 0.0 else 1.0)
            && f.latest == (if vals == [] then 0.0 else vals[|vals| - 1])
  {
    ValidReversed(vals);
    LostRatio(vals);
  }

  /** The dashboard summary reads the list newest first, the task list oldest first. On the same records
      they agree on minimum, maximum and mean always; on the loss exactly when there is a record at all;
      and on the latest value exactly when there is one and, if every probe was lost, the newest was
      recorded as -1, which is how the scheduler records it. */
  lemma SummaryAgrees(name: string, vals: seq<real>)
    ensures var s, f := Summarize(name, Reverse(vals)), FiguresOf(vals);
            && SameSpread(s, f)
            && (s.loss == f.loss * 100.0 <==> vals != [])
            && (s.latest == f.latest <==> vals != [] && (Valid(vals) == [] ==> vals[|vals| - 1] == -1.0))
  {
    if Valid(vals) != [] {
      AgreesWithSamples(name, vals);
    } else {
      AgreesWithoutSamples(name, vals);
    }
  }

  // ---------- grouping by task ----------

  function OfTask(id: int): Record<Result> -> bool {
    (r: Record<Result>) => r.data.taskId == id
  }

  function TaskRecords(records: seq<Record<Result>>, id: int): seq<Record<Result>> {
    Filter(records, OfTask(id))
  }

  /** A task's records are those with its id, in their order. */
  lemma TaskRecordsExactly(records: seq<Record<Result>>, id: int) returns (idx: seq<nat>)
    ensures Climbing(idx, |records|) && TaskRecords(records, id) == Pick(records, idx)
    ensures forall i: nat :: i in idx <==> i < |records| && records[i].data.taskId == id
  {
    idx := FilterPlaces(records, OfTask(id));
  }

  function Values(records: seq<Record<Result>>): (vs: seq<real>)
    ensures |vs| == |records|
  {
    MapSeq((r: Record<Result>) => r.data.value, records)
  }

  /** The grouping loop of all three views: each task's records in their order, and an entry for exactly
      the tasks that have some. */
  method GroupByTask(records: seq<Record<Result>>) returns (byTask: map<int, seq<Record<Result>>>)
    ensures forall id :: id in byTask <==> TaskRecords(records, id) != []
    ensures forall id :: id in byTask ==> byTask[id] == TaskRecords(records, id)
  {
    byTask := map[];
    for i := 0 to |records|
      invariant forall id :: id in byTask <==> TaskRecords(records[..i], id) != []
      invariant forall id :: id in byTask ==> byTask[id] == TaskRecords(records[..i], id)
    {
      var r := records[i];
      assert records[..i + 1] == records[..i] + [r];
      forall id
        ensures TaskRecords(records[..i + 1], id)
                == TaskRecords(records[..i], id) + (if r.data.taskId == id then [r] else [])
      {
        FilterSnoc(records[..i], r, OfTask(id));
      }
      var id := r.data.taskId;
      byTask := byTask[id := (if id in byTask then byTask[id] else []) + [r]];
    }
    assert records[..|records|] == records;
  }

  function GroupSizes(records: seq<Record<Result>>, ids: seq<int>): nat {
    if ids == [] then 0 else GroupSizes(records, ids[..|ids| - 1]) + |TaskRecords(records, ids[|ids| - 1])|
  }

  lemma {:induction false} GroupSizesSnoc(records: seq<Record<Result>>, r: Record<Result>, ids: seq<int>)
    requires forall i, j :: 0 <= i < j < |ids| ==> ids[i] != ids[j]
    ensures GroupSizes(records + [r], ids) == GroupSizes(records, ids) + (if r.data.taskId in ids then 1 else 0)
  {
    if ids == [] {
    } else {
      var init, id := ids[..|ids| - 1], ids[|ids| - 1];
      assert ids == init + [id];
      GroupSizesSnoc(records, r, init);
      FilterSnoc(records, r, OfTask(id));
      assert id !in init;
    }
  }

  /** No record is lost or counted twice: over any duplicate-free list of ids that covers the records the
      group sizes add up to the number of records. */
  lemma {:induction false} GroupsPartition(records: seq<Record<Result>>, ids: seq<int>)
    requires forall i, j :: 0 <= i < j < |ids| ==> ids[i] != ids[j]
    requires forall r :: r in records ==> r.data.taskId in ids
    ensures GroupSizes(records, ids) == |records|
  {
    if records != [] {
      var init, r := records[..|records| - 1], records[|records| - 1];
      assert records == init + [r];
      GroupsPartition(init, ids);
      GroupSizesSnoc(init, r, ids);
    } else {
      NoGroups(ids);
    }
  }

  lemma {:induction false} NoGroups(ids: seq<int>)
    ensures GroupSizes([], ids) == 0
  {
    if ids == [] {
    } else {
      NoGroups(ids[..|ids| - 1]);
    }
  }

  // ---------- the task list ----------

  datatype AdminProbe = AdminProbe(id: int, client: string, name: string, typ: string, interval: real)

  datatype TaskInfo = TaskInfo(id: int, name: string, typ: string, interval: real, figures: Figures,
                               clients: seq<string>)

  /** Which tasks a client's list shows; the empty client sees all. */
  predicate Shown(t: AdminProbe, client: string) {
    client == "" || t.client == "*" || t.client == client
  }

  function WithName(names: seq<string>, c: string): seq<string> {
    if names == [] || Less(c, names[0]) then [c] + names
    else if names[0] == c then names
    else [names[0]] + WithName(names[1..], c)
  }

  /** The clients that made some records, sorted, each once. */
  function ClientsOf(records: seq<Record<Result>>): seq<string> {
    if records == [] then [] else WithName(ClientsOf(records[..|records| - 1]), records[|records| - 1].client)
  }

  ghost predicate Ascending(names: seq<string>) {
    forall i, j :: 0 <= i < j < |names| ==> Less(names[i], names[j])
  }

  lemma {:induction false} WithNameShape(names: seq<string>, c: string)
    requires Ascending(names)
    ensures Ascending(WithName(names, c))
    ensures forall d :: d in WithName(names, c) <==> d in names || d == c
  {
    if names == [] {
    } else {
      var head, tail := names[0], names[1..];
      assert names == [head] + tail;
      LessTotal(head, c);
      if Less(c, head) {
        forall d | d in tail ensures Less(c, d) {
          LessTransitive(c, head, d);
        }
      } else if head != c {
        WithNameShape(tail, c);
        forall d | d in WithName(tail, c) ensures Less(head, d) {
          assert d in tail || d == c;
        }
      }
    }
  }

  lemma {:induction false} ClientsOfShape(records: seq<Record<Result>>)
    ensures Ascending(ClientsOf(records))
    ensures forall c :: c in ClientsOf(records) <==> exists r :: r in records && r.client == c
  {
    if records == [] {
    } else {
      var init, last := records[..|records| - 1], records[|records| - 1];
      assert records == init + [last];
      ClientsOfShape(init);
      WithNameShape(ClientsOf(init), last.client);
    }
  }

  function InfoFrom(t: AdminProbe, recs: seq<Record<Result>>): TaskInfo {
    var vals := Values(recs);
    TaskInfo(t.id, t.name, t.typ, t.interval, FiguresOf(vals).(loss := LossRatio(vals) * 100.0), ClientsOf(recs))
  }

  function InfoOf(t: AdminProbe, records: seq<Record<Result>>): TaskInfo {
    InfoFrom(t, TaskRecords(records, t.id))
  }

  method CollectClients(recs: seq<Record<Result>>) returns (clients: seq<string>)
    ensures clients == ClientsOf(recs) && Ascending(clients)
    ensures forall c :: c in clients <==> exists r :: r in recs && r.client == c
  {
    clients := [];
    for i := 0 to |recs|
      invariant clients == ClientsOf(recs[..i])
    {
      assert recs[..i + 1][..i] == recs[..i];
      clients := WithName(clients, recs[i].client);
    }
    assert recs[..|recs|] == recs;
    ClientsOfShape(recs);
  }

  method BuildInfo(t: AdminProbe, recs: seq<Record<Result>>) returns (info: TaskInfo)
    ensures info == InfoFrom(t, recs)
  {
    var figures := TaskFigures(Values(recs));
    var clients := CollectClients(recs);
    info := TaskInfo(t.id, t.name, t.typ, t.interval, figures, clients);
  }

  function Infos(tasks: seq<AdminProbe>, records: seq<Record<Result>>, client: string): seq<TaskInfo> {
    if tasks == [] then []
    else
      var rest, t := Infos(tasks[..|tasks| - 1], records, client), tasks[|tasks| - 1];
      if Shown(t, client) then rest + [InfoOf(t, records)] else rest
  }

  /** buildPingTasks after its two queries. */
  method BuildPingTasks(tasks: seq<AdminProbe>, records: seq<Record<Result>>, client: string)
    returns (out: seq<TaskInfo>)
    ensures out == Infos(tasks, records, client)
  {
    var byTask := GroupByTask(records);
    out := [];
    for i := 0 to |tasks|
      invariant out == Infos(tasks[..i], records, client)
    {
      var t := tasks[i];
      assert tasks[..i + 1][..i] == tasks[..i];
      if client != "" && t.client != "*" && t.client != client { continue; }
      var recs := if t.id in byTask then byTask[t.id] else [];
      assert recs == TaskRecords(records, t.id);
      var info := BuildInfo(t, recs);
      out := out + [info];
    }
    assert tasks[..|tasks|] == tasks;
  }

  function ShownAt(tasks: seq<AdminProbe>, client: string): nat -> bool {
    (i: nat) => i < |tasks| && (client == "" || tasks[i].client == "*" || tasks[i].client == client)
  }

  lemma {:induction false} InfosUpTo(tasks: seq<AdminProbe>, records: seq<Record<Result>>, client: string, n: nat)
    returns (idx: seq<nat>)
    requires n <= |tasks|
    ensures PlacesOf(idx, n, ShownAt(tasks, client))
    ensures Infos(tasks[..n], records, client) == InfosFor(Pick(tasks, idx), records)
  {
    if n == 0 {
      idx := [];
    } else {
      idx := InfosUpTo(tasks, records, client, n - 1);
      assert tasks[..n][..n - 1] == tasks[..n - 1];
      PlacesSnoc(tasks, idx, n - 1, ShownAt(tasks, client));
      if ShownAt(tasks, client)(n - 1) {
        idx := idx + [n - 1];
      }
    }
  }

  function InfosFor(tasks: seq<AdminProbe>, records: seq<Record<Result>>): (infos: seq<TaskInfo>)
    ensures |infos| == |tasks| && forall k :: 0 <= k < |infos| ==> infos[k] == InfoOf(tasks[k], records)
  {
    seq(|tasks|, k requires 0 <= k < |tasks| => InfoOf(tasks[k], records))
  }

  /** One entry for each task shown to the client, in order, and no other. */
  lemma InfosExactly(tasks: seq<AdminProbe>, records: seq<Record<Result>>, client: string) returns (idx: seq<nat>)
    ensures Climbing(idx, |tasks|) && |Infos(tasks, records, client)| == |idx|
    ensures forall i: nat :: i in idx <==>
              i < |tasks| && (client == "" || tasks[i].client == "*" || tasks[i].client == client)
    ensures forall k :: 0 <= k < |idx| ==> Infos(tasks, records, client)[k] == InfoOf(tasks[idx[k]], records)
  {
    idx := InfosUpTo(tasks, records, client, |tasks|);
    assert tasks[..|tasks|] == tasks;
    assert forall i: nat :: i in idx <==> i < |tasks| && ShownAt(tasks, client)(i);
  }

  /** An entry carries its task's fields, the figures of the records with its id, with the loss in percent, and
      the clients of those records in ascending order. */
  lemma InfoExactly(t: AdminProbe, records: seq<Record<Result>>)
    ensures var info, f := InfoOf(t, records), FiguresOf(Values(TaskRecords(records, t.id)));
            && info.id == t.id && info.name == t.name && info.typ == t.typ && info.interval == t.interval
            && info.figures == f.(loss := f.loss * 100.0)
            && Ascending(info.clients)
            && forall c :: c in info.clients <==> exists r :: r in records && r.data.taskId == t.id && r.client == c
  {
    ClientsOfShape(TaskRecords(records, t.id));
    FilterMembers(records, OfTask(t.id));
  }

  datatype TaskStats = TaskStats(name: string, typ: string, figures: Figures)

  /** The task of an id, the last one if there were several. */
  function TaskOf(tasks: seq<AdminProbe>, id: int): Option<AdminProbe> {
    if tasks == [] then None
    else if tasks[|tasks| - 1].id == id then Some(tasks[|tasks| - 1])
    else TaskOf(tasks[..|tasks| - 1], id)
  }

  /** It is the last task with the id, and there is none exactly if no task has the id. */
  lemma {:induction false} TaskOfExactly(tasks: seq<AdminProbe>, id: int)
    ensures TaskOf(tasks, id).None? <==> forall t :: t in tasks ==> t.id != id
    ensures forall i :: 0 <= i < |tasks| && tasks[i].id == id && (forall j :: i < j < |tasks| ==> tasks[j].id != id) ==>
              TaskOf(tasks, id) == Some(tasks[i])
  {
    if tasks == [] {
    } else {
      var init, last := tasks[..|tasks| - 1], tasks[|tasks| - 1];
      assert tasks == init + [last];
      TaskOfExactly(init, id);
    }
  }

  /** The entry of one task; records of a task that is gone have an empty name and type. */
  function StatsFor(tasks: seq<AdminProbe>, id: int, recs: seq<Record<Result>>): TaskStats {
    match TaskOf(tasks, id)
    case Some(t) => TaskStats(t.name, t.typ, FiguresOf(Values(recs)))
    case None => TaskStats("", "", FiguresOf(Values(recs)))
  }

  /** An entry holds the figures of the records, and the name and type of the task of the id, or empty ones if
      there is none. */
  lemma StatsForExactly(tasks: seq<AdminProbe>, id: int, recs: seq<Record<Result>>, i: nat)
    ensures StatsFor(tasks, id, recs).figures == FiguresOf(Values(recs))
    ensures (forall t :: t in tasks ==> t.id != id) ==>
              StatsFor(tasks, id, recs).name == "" && StatsFor(tasks, id, recs).typ == ""
    ensures i < |tasks| && tasks[i].id == id && (forall j :: i < j < |tasks| ==> tasks[j].id != id) ==>
              StatsFor(tasks, id, recs).name == tasks[i].name && StatsFor(tasks, id, recs).typ == tasks[i].typ
  {
    TaskOfExactly(tasks, id);
  }

  /** The loop that fills `nameByID` and `typeByID`. */
  method NamesById(tasks: seq<AdminProbe>) returns (names: map<int, string>, types: map<int, string>)
    ensures forall id :: id in names <==> TaskOf(tasks, id).Some?
    ensures forall id :: id in types <==> TaskOf(tasks, id).Some?
    ensures forall id :: id in names ==> names[id] == TaskOf(tasks, id).value.name
    ensures forall id :: id in types ==> types[id] == TaskOf(tasks, id).value.typ
  {
    names, types := map[], map[];
    for i := 0 to |tasks|
      invariant forall id :: id in names <==> TaskOf(tasks[..i], id).Some?
      invariant forall id :: id in types <==> TaskOf(tasks[..i], id).Some?
      invariant forall id :: id in names ==> names[id] == TaskOf(tasks[..i], id).value.name
      invariant forall id :: id in types ==> types[id] == TaskOf(tasks[..i], id).value.typ
    {
      assert tasks[..i + 1][..i] == tasks[..i];
      names := names[tasks[i].id := tasks[i].name];
      types := types[tasks[i].id := tasks[i].typ];
    }
    assert tasks[..|tasks|] == tasks;
  }

  /** rpcPingMetricStats after its queries: one entry per task that has records. The groups are visited in
      the order of their first record; the map iteration of the source leaves the order open. */
  method PingMetricStats(tasks: seq<AdminProbe>, records: seq<Record<Result>>) returns (stats: map<int, TaskStats>)
    ensures forall id :: id in stats <==> TaskRecords(records, id) != []
    ensures forall id :: id in stats ==> stats[id] == StatsFor(tasks, id, TaskRecords(records, id))
  {
    var names, types := NamesById(tasks);
    var byTask := GroupByTask(records);
    stats := map[];
    for i := 0 to |records|
      invariant forall id :: id in stats <==> exists k :: 0 <= k < i && records[k].data.taskId == id
      invariant forall id :: id in stats ==> stats[id] == StatsFor(tasks, id, TaskRecords(records, id))
    {
      var id := records[i].data.taskId;
      HasRecords(records, id);
      if id !in stats {
        var st := MetricFigures(Values(byTask[id]));
        var name, typ := if id in names then names[id] else "", if id in types then types[id] else "";
        stats := stats[id := TaskStats(name, typ, st)];
      }
    }
    forall id ensures id in stats <==> TaskRecords(records, id) != [] {
      HasRecords(records, id);
    }
  }

  lemma HasRecords(records: seq<Record<Result>>, id: int)
    ensures TaskRecords(records, id) != [] <==> exists k :: 0 <= k < |records| && records[k].data.taskId == id
  {
    FilterMembers(records, OfTask(id));
    var group := TaskRecords(records, id);
    if group != [] {
      assert group[0] in group;
      var k :| 0 <= k < |records| && records[k] == group[0];
      assert records[k].data.taskId == id;
    }
    if k :| 0 <= k < |records| && records[k].data.taskId == id {
      assert records[k] in records;
      assert records[k] in group;
    }
  }

  // ---------- what the limit hides ----------

  /** A task's rows of the window are those the query answers with, then those it cuts off. */
  lemma TaskRowsSplit(rows: seq<Record<Result>>, cutoff: string, keep: Record<Result> -> bool, limit: nat, id: int)
    ensures TaskRecords(SortAsc(Window(rows, cutoff, keep)), id)
            == TaskRecords(Since(rows, cutoff, keep, limit), id) + TaskRecords(Cut(rows, cutoff, keep, limit), id)
  {
    var sorted := SortAsc(Window(rows, cutoff, keep));
    assert sorted == Since(rows, cutoff, keep, limit) + Cut(rows, cutoff, keep, limit);
    FilterConcat(Since(rows, cutoff, keep, limit), Cut(rows, cutoff, keep, limit), OfTask(id));
  }

  /** The task list computes a task's figures from all its records of the window if and only if none of them
      is cut off. */
  lemma TaskListIsWhole(rows: seq<Record<Result>>, cutoff: string, keep: Record<Result> -> bool, limit: nat,
                        t: AdminProbe)
    ensures InfoOf(t, Since(rows, cutoff, keep, limit)).figures
            == InfoOf(t, SortAsc(Window(rows, cutoff, keep))).figures
            <==> forall r :: r in Cut(rows, cutoff, keep, limit) ==> r.data.taskId != t.id
  {
    var cut := Cut(rows, cutoff, keep, limit);
    TaskRowsSplit(rows, cutoff, keep, limit, t.id);
    HasRecords(cut, t.id);
    TotalCounts(Since(rows, cutoff, keep, limit), t);
    TotalCounts(SortAsc(Window(rows, cutoff, keep)), t);
    if TaskRecords(cut, t.id) == [] {
      FiguresFollow(Since(rows, cutoff, keep, limit), SortAsc(Window(rows, cutoff, keep)), t);
    }
  }

  lemma TotalCounts(records: seq<Record<Result>>, t: AdminProbe)
    ensures InfoOf(t, records).figures.total == |TaskRecords(records, t.id)|
  {
  }

  lemma FiguresFollow(a: seq<Record<Result>>, b: seq<Record<Result>>, t: AdminProbe)
    requires TaskRecords(a, t.id) == TaskRecords(b, t.id)
    ensures InfoOf(t, a).figures == InfoOf(t, b).figures
  {
  }

  /** The latest value of the last of some records. */
  function LatestOf(records: seq<Record<Result>>): real {
    if records == [] then 0.0 else records[|records| - 1].data.value
  }

  lemma LatestIsLast(records: seq<Record<Result>>, t: AdminProbe)
    ensures InfoOf(t, records).figures.latest == LatestOf(TaskRecords(records, t.id))
  {
  }

  /** What "latest" is worth when rows of the task are cut off: it should be the value of the newest cut row,
      but it is that of the newest row left, and no row left is newer than any row cut off. */
  lemma LatestIsStale(rows: seq<Record<Result>>, cutoff: string, keep: Record<Result> -> bool, limit: nat,
                      t: AdminProbe)
    requires exists r :: r in Cut(rows, cutoff, keep, limit) && r.data.taskId == t.id
    ensures var left, cut := Since(rows, cutoff, keep, limit), Cut(rows, cutoff, keep, limit);
            && InfoOf(t, SortAsc(Window(rows, cutoff, keep))).figures.latest == LatestOf(TaskRecords(cut, t.id))
            && InfoOf(t, left).figures.latest == LatestOf(TaskRecords(left, t.id))
            && forall q, r :: q in TaskRecords(left, t.id) && r in TaskRecords(cut, t.id) ==> AtMost(q.time, r.time)
  {
    var left, cut := Since(rows, cutoff, keep, limit), Cut(rows, cutoff, keep, limit);
    TaskRowsSplit(rows, cutoff, keep, limit, t.id);
    HasRecords(cut, t.id);
    LatestIsLast(left, t);
    LatestIsLast(SortAsc(Window(rows, cutoff, keep)), t);
    SinceExactly(rows, cutoff, keep, limit);
    FilterMembers(left, OfTask(t.id));
    FilterMembers(cut, OfTask(t.id));
  }

  /** n records of one time, then one later one. */
  function Overfull(n: nat, early: string, late: string): seq<Record<Result>> {
    seq(n, _ => Record("node", early, Result(1, 1.0))) + [Record("node", late, Result(1, 2.0))]
  }

  /** A window of 20001 records of one task: the task list reads 20000 of them and shows the second to last
      value as the latest. */
  lemma StaleLatestExample(early: string, late: string, t: AdminProbe)
    requires Less(early, late) && t.id == 1
    ensures var rows, keep := Overfull(20000, early, late), OfClientAndTask("node", 0);
            && InfoOf(t, Since(rows, early, keep, 20000)).figures.latest == 1.0
            && InfoOf(t, SortAsc(Window(rows, early, keep))).figures.latest == 2.0
  {
    OverfullWindow(20000, early, late);
    var rows, keep := Overfull(20000, early, late), OfClientAndTask("node", 0);
    FilterAll(rows, OfTask(1));
    FilterAll(rows[..20000], OfTask(1));
    LatestIsLast(rows, t);
    LatestIsLast(rows[..20000], t);
  }

  lemma OverfullWindow(n: nat, early: string, late: string)
    requires Less(early, late)
    ensures var rows, keep := Overfull(n, early, late), OfClientAndTask("node", 0);
            Since(rows, early, keep, n) == rows[..n] && SortAsc(Window(rows, early, keep)) == rows
  {
    var rows, keep := Overfull(n, early, late), OfClientAndTask("node", 0);
    OverfullRows(n, early, late);
    FilterAll(rows, NotOlder(early));
    FilterAll(rows, keep);
    SortAscOfOrdered(rows);
  }

  lemma OverfullRows(n: nat, early: string, late: string)
    requires Less(early, late)
    ensures var rows := Overfull(n, early, late);
            InTimeOrder(rows) && forall r :: r in rows ==> !Less(r.time, early) && OfClientAndTask("node", 0)(r)
  {
    LessTotal(early, late);
    LessTotal(early, early);
  }
}
