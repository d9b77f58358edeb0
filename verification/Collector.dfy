/** The network part of the collector (internal/collect/collector.go): rates from two counter samples, with
    counter resets and clock steps skipped. Times are nanoseconds, rates bytes per second. */
module Collector {
  import opened Text

  type uint64 = x: int | 0 <= x < 0x1_0000_0000_0000_0000

  datatype Counters = Counters(up: uint64, down: uint64)

  /** One call of Collect: the clock, and the counters unless they could not be read. */
  datatype Sample = Sample(now: int, counters: Option<Counters>)

  datatype Baseline = Baseline(counters: Counters, time: int)

  datatype Rates = Rates(netOut: real, netIn: real)

  const NO_RATES: Rates := Rates(0.0, 0.0)

  function Seconds(from: int, to: int): real {
    (to - from) as real / 1_000_000_000.0
  }

  /** The step is used: there is a baseline, the clock advanced and neither counter went back. */
  predicate Usable(last: Option<Baseline>, x: Sample) {
    last.Some? && x.counters.Some?
    && Seconds(last.value.time, x.now) > 0.0
    && x.counters.value.up >= last.value.counters.up && x.counters.value.down >= last.value.counters.down
  }

  function RatesOf(last: Option<Baseline>, x: Sample): Rates {
    if !Usable(last, x) then NO_RATES
    else
      var elapsed := Seconds(last.value.time, x.now);
      var up: uint64 := x.counters.value.up - last.value.counters.up;
      var down: uint64 := x.counters.value.down - last.value.counters.down;
      Rates(up as real / elapsed, down as real / elapsed)
  }

  function NextBaseline(last: Option<Baseline>, x: Sample): Option<Baseline> {
    match x.counters
    case None => last
    case Some(c) => Some(Baseline(c, x.now))
  }

  class NetCollector {
    var lastUp: uint64
    var lastDown: uint64
    var lastTime: Option<int>

    /** The fields before the first sample mean nothing; `lastTime` says whether there was one. */
    function Last(): Option<Baseline>
      reads this
    {
      match lastTime
      case None => None
      case Some(t) => Some(Baseline(Counters(lastUp, lastDown), t))
    }

    constructor ()
      ensures Last() == None
    {
      lastUp, lastDown, lastTime := 0, 0, None;
    }

    /** The unsigned subtractions never underflow: their results are uint64 again. */
    method CollectNet(x: Sample) returns (r: Rates)
      modifies this
      ensures r == RatesOf(old(Last()), x) && Last() == NextBaseline(old(Last()), x)
    {
      r := NO_RATES;
      if x.counters.Some? {
        var up, down := x.counters.value.up, x.counters.value.down;
        if lastTime.Some? {
          var elapsed := Seconds(lastTime.value, x.now);
          if elapsed > 0.0 && up >= lastUp && down >= lastDown {
            var dUp: uint64 := up - lastUp;
            var dDown: uint64 := down - lastDown;
            r := Rates(dUp as real / elapsed, dDown as real / elapsed);
          }
        }
        lastUp, lastDown, lastTime := up, down, Some(x.now);
      }
    }
  }

  // ---------- one step ----------

  lemma PerSecond(moved: int, ns: int)
    requires ns > 0
    ensures moved as real / (ns as real / 1_000_000_000.0) * ns as real == 1_000_000_000.0 * moved as real
  {
    var seconds := ns as real / 1_000_000_000.0;
    assert seconds > 0.0 && ns as real == seconds * 1_000_000_000.0;
    var rate := moved as real / seconds;
    assert rate * (seconds * 1_000_000_000.0) == 1_000_000_000.0 * (rate * seconds);
  }

  /** A step whose clock advanced and whose counters did not go back, moved or not, reports the bytes moved per
      second; every other step reports nothing. */
  lemma StepExactly(last: Baseline, x: Sample)
    ensures var r, ns := RatesOf(Some(last), x), x.now - last.time;
            if x.counters.Some? && ns > 0
               && x.counters.value.up >= last.counters.up && x.counters.value.down >= last.counters.down
            then && r.netOut * ns as real == 1_000_000_000.0 * (x.counters.value.up - last.counters.up) as real
                 && r.netIn * ns as real == 1_000_000_000.0 * (x.counters.value.down - last.counters.down) as real
            else r == Rates(0.0, 0.0)
    ensures RatesOf(None, x) == Rates(0.0, 0.0)
  {
    if Usable(Some(last), x) {
      PerSecond(x.counters.value.up - last.counters.up, x.now - last.time);
      PerSecond(x.counters.value.down - last.counters.down, x.now - last.time);
    }
  }

  // ---------- conservation ----------

  datatype Direction = Up | Down

  function Count(c: Counters, d: Direction): int {
    match d case Up => c.up case Down => c.down
  }

  function Rate(r: Rates, d: Direction): real {
    match d case Up => r.netOut case Down => r.netIn
  }

  function LastOf(xs: seq<Sample>): Option<Baseline> {
    if xs == [] then None else NextBaseline(LastOf(xs[..|xs| - 1]), xs[|xs| - 1])
  }

  /** Rate times elapsed time of one step: the traffic a reader of the rates would count for it. */
  function StepTraffic(last: Option<Baseline>, x: Sample, d: Direction): real {
    if last.Some? then Rate(RatesOf(last, x), d) * Seconds(last.value.time, x.now) else 0.0
  }

  /** The counter movement of one step, signed, if it has a baseline and is used, or is skipped. */
  function StepMoved(last: Option<Baseline>, x: Sample, d: Direction, used: bool): int {
    if last.Some? && x.counters.Some? && Usable(last, x) == used
    then Count(x.counters.value, d) - Count(last.value.counters, d)
    else 0
  }

  /** The traffic a reader of the rates would count over the run. */
  function Reported(xs: seq<Sample>, d: Direction): real {
    if xs == [] then 0.0
    else Reported(xs[..|xs| - 1], d) + StepTraffic(LastOf(xs[..|xs| - 1]), xs[|xs| - 1], d)
  }

  /** The counter movement over the used steps of the run, or over the skipped ones. */
  function Moved(xs: seq<Sample>, d: Direction, used: bool): int {
    if xs == [] then 0
    else Moved(xs[..|xs| - 1], d, used) + StepMoved(LastOf(xs[..|xs| - 1]), xs[|xs| - 1], d, used)
  }

  /** The first counters of the run. */
  function FirstOf(xs: seq<Sample>): Option<Counters> {
    if xs == [] then None
    else
      var first := FirstOf(xs[..|xs| - 1]);
      if first.Some? then first else xs[|xs| - 1].counters
  }

  lemma RateTimesElapsed(moved: int, elapsed: real)
    requires elapsed > 0.0
    ensures moved as real / elapsed * elapsed == moved as real
  {
  }

  lemma StepReported(last: Option<Baseline>, x: Sample, d: Direction)
    ensures StepTraffic(last, x, d) == StepMoved(last, x, d, true) as real
  {
    if Usable(last, x) {
      RateTimesElapsed(Count(x.counters.value, d) - Count(last.value.counters, d), Seconds(last.value.time, x.now));
    }
  }

  lemma AddReals(a: int, b: int)
    ensures (a + b) as real == a as real + b as real
  {
  }

  /** What the rates report is exactly what the counters moved over the used steps. */
  lemma {:induction false} ReportedIsUsed(xs: seq<Sample>, d: Direction)
    ensures Reported(xs, d) == Moved(xs, d, true) as real
  {
    if xs == [] {
    } else {
      var init, x := xs[..|xs| - 1], xs[|xs| - 1];
      ReportedIsUsed(init, d);
      StepReported(LastOf(init), x, d);
      AddReals(Moved(init, d, true), StepMoved(LastOf(init), x, d, true));
    }
  }

  lemma {:induction false} Telescope(xs: seq<Sample>, d: Direction)
    ensures LastOf(xs).Some? <==> FirstOf(xs).Some?
    ensures Moved(xs, d, true) + Moved(xs, d, false) ==
            if LastOf(xs).None? then 0 else Count(LastOf(xs).value.counters, d) - Count(FirstOf(xs).value, d)
  {
    if xs == [] {
    } else {
      Telescope(xs[..|xs| - 1], d);
    }
  }

  /** Traffic conservation, for arbitrary resets: the traffic the rates report plus the movement over the
      skipped steps is last minus first; so they report exactly last minus first if and only if the
      skipped movements cancel, in particular when nothing is skipped. */
  lemma TrafficConserved(xs: seq<Sample>, d: Direction)
    ensures LastOf(xs).Some? ==>
              && FirstOf(xs).Some?
              && Reported(xs, d) + Moved(xs, d, false) as real
                  == (Count(LastOf(xs).value.counters, d) - Count(FirstOf(xs).value, d)) as real
              && (Reported(xs, d) == (Count(LastOf(xs).value.counters, d) - Count(FirstOf(xs).value, d)) as real
                  <==> Moved(xs, d, false) == 0)
  {
    ReportedIsUsed(xs, d);
    Telescope(xs, d);
  }

  lemma NotNegativeQuotient(moved: int, elapsed: real)
    requires moved >= 0 && elapsed > 0.0
    ensures moved as real / elapsed >= 0.0
  {
  }

  /** Rates are never negative, whatever the counters and the clock do. */
  lemma RatesNotNegative(last: Option<Baseline>, x: Sample, d: Direction)
    ensures Rate(RatesOf(last, x), d) >= 0.0
  {
    if Usable(last, x) {
      NotNegativeQuotient(Count(x.counters.value, d) - Count(last.value.counters, d),
                          Seconds(last.value.time, x.now));
    }
  }
}
