/** Rate limiting by "when did this key last fire": the rule that the probe scheduler's `lastRun` map and
    the alert manager's `lastSent` map both apply, for one key. */
module Throttle {
  import opened Text

  /** One chance to fire. `at` is the clock reading compared with the last stamp, `stamp` the reading
      recorded when it fires, `period` the spacing in force. */
  datatype Attempt = Attempt(at: int, stamp: int, period: int)

  predicate Due(last: Option<int>, at: int, period: int) {
    last.None? || at - last.value >= period
  }

  function LastStamp(fired: seq<Attempt>): Option<int> {
    if fired == [] then None else Some(fired[|fired| - 1].stamp)
  }

  /** The attempts that fire. */
  function Fired(xs: seq<Attempt>): (f: seq<Attempt>)
    ensures |f| <= |xs|
  {
    if xs == [] then []
    else
      var before, x := Fired(xs[..|xs| - 1]), xs[|xs| - 1];
      if Due(LastStamp(before), x.at, x.period) then before + [x] else before
  }

  ghost predicate Timely(xs: seq<Attempt>) {
    forall x :: x in xs ==> x.at <= x.stamp && x.period > 0
  }

  // ---------- never too often ----------

  ghost predicate Spaced(fired: seq<Attempt>) {
    forall i, j :: 0 <= i < j < |fired| ==> fired[j].stamp - fired[i].stamp >= fired[j].period
  }

  /** Any two firings are at least the period of the later one apart. */
  lemma {:induction false} FiredSpaced(xs: seq<Attempt>)
    requires Timely(xs)
    ensures Spaced(Fired(xs))
    ensures forall x :: x in Fired(xs) ==> x in xs
  {
    if xs == [] {
    } else {
      var init, x := xs[..|xs| - 1], xs[|xs| - 1];
      assert xs == init + [x];
      FiredSpaced(init);
      var before := Fired(init);
      forall i | 0 <= i < |before|
        ensures Due(LastStamp(before), x.at, x.period) ==> x.stamp - before[i].stamp >= x.period
      {
        assert before[|before| - 1] in before;
        if i < |before| - 1 {
          assert before[|before| - 1].stamp - before[i].stamp >= before[|before| - 1].period > 0;
        }
      }
    }
  }

  lemma {:induction false} SpreadOut(fired: seq<Attempt>, period: int, i: nat, n: nat)
    requires Spaced(fired) && i + n < |fired|
    requires forall x :: x in fired ==> x.period >= period
    ensures fired[i + n].stamp - fired[i].stamp >= n * period
  {
    if n == 0 {
    } else {
      SpreadOut(fired, period, i, n - 1);
      assert fired[i + n] in fired;
      assert n * period == (n - 1) * period + period;
    }
  }

  lemma QuotientBound(k: nat, period: int, span: int)
    requires period > 0 && k * period <= span
    ensures k <= span / period
  {
    assert (span / period + 1) * period > span;
  }

  /** At most 1 + floor(span / period) firings fit into any span, when every period is at least `period`. */
  lemma FiredCount(fired: seq<Attempt>, i: nat, j: nat, period: int, span: int)
    requires Spaced(fired) && period > 0
    requires forall x :: x in fired ==> x.period >= period
    requires i < j <= |fired| && fired[j - 1].stamp - fired[i].stamp <= span
    ensures j - i <= 1 + span / period
  {
    SpreadOut(fired, period, i, j - i - 1);
    QuotientBound(j - i - 1, period, span);
  }

  // ---------- never too rarely ----------

  /** Attempts come at most `gap` apart, ask for at most `period`, and stamp within `drift`. */
  ghost predicate Attended(xs: seq<Attempt>, period: int, gap: int, drift: int) {
    && (forall i, j :: 0 <= i < j < |xs| && j == i + 1 ==> xs[j].at - xs[i].at <= gap)
    && (forall x :: x in xs ==> x.period <= period && x.stamp - x.at <= drift)
  }

  /** Consecutive firings are less than `bound` apart. */
  ghost predicate Frequent(fired: seq<Attempt>, bound: int) {
    forall i, j :: 0 <= i < j < |fired| && j == i + 1 ==> fired[j].stamp - fired[i].stamp < bound
  }

  lemma FrequentSnoc(fired: seq<Attempt>, x: Attempt, bound: int)
    requires Frequent(fired, bound) && fired != []
    requires x.stamp - fired[|fired| - 1].stamp < bound
    ensures Frequent(fired + [x], bound)
  {
  }

  /** `fired` answers the attempts: it begins with the first of them, keeps its gaps below `bound`, and its
      last firing is less than `period` old at the last attempt. */
  ghost predicate Often(xs: seq<Attempt>, fired: seq<Attempt>, period: int, bound: int) {
    && xs != [] && fired != [] && fired[0] == xs[0]
    && xs[|xs| - 1].at - fired[|fired| - 1].stamp < period
    && Frequent(fired, bound)
  }

  lemma AttendedInit(xs: seq<Attempt>, period: int, gap: int, drift: int)
    requires |xs| > 1 && Timely(xs) && Attended(xs, period, gap, drift)
    ensures var n := |xs| - 1;
            Timely(xs[..n]) && Attended(xs[..n], period, gap, drift) && xs[n].at - xs[n - 1].at <= gap
  {
    var n := |xs| - 1;
    var init := xs[..n];
    forall x | x in init ensures x in xs {
      var k :| 0 <= k < n && init[k] == x;
      assert xs[k] == x;
    }
    forall i, j | 0 <= i < j < n && j == i + 1 ensures init[j].at - init[i].at <= gap {
      assert xs[j].at - xs[i].at <= gap;
    }
  }

  lemma LastAttempt(xs: seq<Attempt>, period: int, gap: int, drift: int)
    requires xs != [] && Timely(xs) && Attended(xs, period, gap, drift)
    ensures var x := xs[|xs| - 1]; x.at <= x.stamp <= x.at + drift && 0 < x.period <= period
  {
    assert xs[|xs| - 1] in xs;
  }

  lemma FiredLast(xs: seq<Attempt>)
    requires xs != []
    ensures var before, x := Fired(xs[..|xs| - 1]), xs[|xs| - 1];
            Fired(xs) == if Due(LastStamp(before), x.at, x.period) then before + [x] else before
  {
  }

  lemma OftenOne(x: Attempt, period: int, bound: int)
    requires x.at <= x.stamp && 0 < x.period <= period
    ensures Often([x], [x], period, bound)
  {
  }

  lemma OftenStep(init: seq<Attempt>, before: seq<Attempt>, x: Attempt, period: int, gap: int, drift: int)
    requires Often(init, before, period, period + gap + drift)
    requires x.at - init[|init| - 1].at <= gap && x.at <= x.stamp <= x.at + drift && 0 < x.period <= period
    ensures Often(init + [x], if Due(LastStamp(before), x.at, x.period) then before + [x] else before,
                  period, period + gap + drift)
  {
    if Due(LastStamp(before), x.at, x.period) {
      FrequentSnoc(before, x, period + gap + drift);
    }
  }

  lemma {:induction false} FiredAnswers(xs: seq<Attempt>, period: int, gap: int, drift: int)
    requires Timely(xs) && Attended(xs, period, gap, drift) && xs != []
    ensures Often(xs, Fired(xs), period, period + gap + drift)
  {
    var init, x := xs[..|xs| - 1], xs[|xs| - 1];
    assert xs == init + [x];
    LastAttempt(xs, period, gap, drift);
    FiredLast(xs);
    if init == [] {
      assert xs == [x];
      OftenOne(x, period, period + gap + drift);
    } else {
      AttendedInit(xs, period, gap, drift);
      FiredAnswers(init, period, gap, drift);
      OftenStep(init, Fired(init), x, period, gap, drift);
    }
  }

  /** Then the first attempt fires, consecutive firings are less than period + gap + drift apart, and at
      the last attempt the last firing is less than one period old. */
  lemma FiredOften(xs: seq<Attempt>, period: int, gap: int, drift: int)
    requires Timely(xs) && Attended(xs, period, gap, drift) && xs != []
    ensures Fired(xs) != [] && Fired(xs)[0] == xs[0]
    ensures xs[|xs| - 1].at - Fired(xs)[|Fired(xs)| - 1].stamp < period
    ensures Frequent(Fired(xs), period + gap + drift)
  {
    FiredAnswers(xs, period, gap, drift);
  }

  // ---------- attempts made in rounds ----------

  /** The attempts of one tick: when the tick started, and what it tried. */
  datatype Round = Round(start: int, attempts: seq<Attempt>)

  function Flatten(rs: seq<Round>): seq<Attempt> {
    if rs == [] then [] else Flatten(rs[..|rs| - 1]) + rs[|rs| - 1].attempts
  }

  lemma FlattenSnoc(rs: seq<Round>, r: Round)
    ensures Flatten(rs + [r]) == Flatten(rs) + r.attempts
  {
    assert (rs + [r])[..|rs|] == rs;
  }

  /** The round tries at least once, every time within `drift` of its start, and asks for at most `period`. */
  ghost predicate Regular(r: Round, period: int, drift: int) {
    && r.attempts != []
    && forall x :: x in r.attempts ==> r.start <= x.at <= x.stamp <= r.start + drift && x.period <= period
  }

  lemma AppendRound(a: seq<Attempt>, r: Round, before: int, period: int, gap: int, drift: int)
    requires gap >= 0 && drift >= 0 && Regular(r, period, drift)
    requires Attended(a, period, gap + drift, drift)
    requires a != [] ==> a[|a| - 1].at >= before && r.start - before <= gap
    ensures Attended(a + r.attempts, period, gap + drift, drift)
  {
    var xs := a + r.attempts;
    forall i, j | 0 <= i < j < |xs| && j == i + 1 ensures xs[j].at - xs[i].at <= gap + drift {
      if i >= |a| {
        assert xs[i] in r.attempts && xs[j] in r.attempts;
      } else if j >= |a| {
        assert xs[j] in r.attempts && xs[i] == a[|a| - 1];
      }
    }
  }

  lemma {:induction false} FlattenEnds(rs: seq<Round>)
    requires rs != [] && forall k :: 0 <= k < |rs| ==> rs[k].attempts != []
    ensures var xs := Flatten(rs);
            && xs != [] && xs[0] == rs[0].attempts[0]
            && xs[|xs| - 1] == rs[|rs| - 1].attempts[|rs[|rs| - 1].attempts| - 1]
  {
    var init := rs[..|rs| - 1];
    if init == [] {
    } else {
      FlattenEnds(init);
    }
  }

  ghost predicate AllRegular(rs: seq<Round>, period: int, gap: int, drift: int) {
    && (forall k :: 0 <= k < |rs| ==> Regular(rs[k], period, drift))
    && (forall k, l :: 0 <= k < l < |rs| && l == k + 1 ==> rs[l].start - rs[k].start <= gap)
  }

  lemma LastRound(rs: seq<Round>, period: int, gap: int, drift: int)
    requires |rs| > 1 && AllRegular(rs, period, gap, drift)
    ensures AllRegular(rs[..|rs| - 1], period, gap, drift)
    ensures var a := Flatten(rs[..|rs| - 1]);
            && a != [] && a[|a| - 1].at >= rs[|rs| - 2].start
            && rs[|rs| - 1].start - rs[|rs| - 2].start <= gap
  {
    var init := rs[..|rs| - 1];
    FlattenEnds(init);
    var last := rs[|rs| - 2];
    assert init[|init| - 1] == last && Regular(last, period, drift);
    assert last.attempts[|last.attempts| - 1] in last.attempts;
  }

  /** Regular rounds at most `gap` apart make attended attempts. */
  lemma {:induction false} RoundsAttended(rs: seq<Round>, period: int, gap: int, drift: int)
    requires gap >= 0 && drift >= 0 && AllRegular(rs, period, gap, drift)
    ensures Attended(Flatten(rs), period, gap + drift, drift)
  {
    if rs == [] {
    } else {
      var n := |rs| - 1;
      if n > 0 {
        LastRound(rs, period, gap, drift);
        RoundsAttended(rs[..n], period, gap, drift);
        AppendRound(Flatten(rs[..n]), rs[n], rs[n - 1].start, period, gap, drift);
      } else {
        AppendRound([], rs[0], rs[0].start, period, gap, drift);
        assert rs[..0] == [];
      }
    }
  }
}
