/** When an alert rule is silenced (internal/alert/alert.go): a deadline, and daily windows compared as
    text against the wall clock's `HH:MM`. Times are nanoseconds counted from a local midnight. */
module MuteWindows {
  import opened Text

  datatype Rule = Rule(kind: string, node: string, threshold: real, silenceUntil: string, muteWindows: seq<string>)

  /** `time.Parse(time.RFC3339, _)`: the instant, or None for text that is no timestamp. */
  type Parser = string -> Option<int>

  const MINUTE: int := 60_000_000_000
  const DAY: int := 1440

  function MinuteOfDay(now: int): (m: nat)
    ensures m < DAY
  {
    (now / MINUTE) % DAY
  }

  /** `Format("15:04")` of a minute of the day. */
  function Clock(m: nat): string
    requires m < DAY
  {
    TwoDigits(m / 60) + ":" + TwoDigits(m % 60)
  }

  // ---------- the code's test ----------

  /** Does a window cover a wall-clock text? A window without a dash covers nothing. */
  predicate Covers(window: string, cur: string) {
    var parts := SplitN(window, '-', 2);
    |parts| == 2 &&
    var start, end := Trim(parts[0]), Trim(parts[1]);
    if AtMost(start, end) then AtMost(start, cur) && Less(cur, end)
    else AtMost(start, cur) || Less(cur, end)
  }

  predicate BeforeDeadline(r: Rule, now: int, parse: Parser) {
    r.silenceUntil != "" && parse(r.silenceUntil).Some? && now < parse(r.silenceUntil).value
  }

  predicate Silenced(r: Rule, now: int, parse: Parser) {
    BeforeDeadline(r, now, parse) || exists w :: w in r.muteWindows && Covers(w, Clock(MinuteOfDay(now)))
  }

  /** One window of Rule.silenced's loop. */
  method CheckWindow(window: string, cur: string) returns (covers: bool)
    ensures covers == Covers(window, cur)
  {
    var parts := SplitN(window, '-', 2);
    if |parts| != 2 { return false; }
    var start, end := Trim(parts[0]), Trim(parts[1]);
    if AtMost(start, end) {
      return AtMost(start, cur) && Less(cur, end);
    }
    return AtMost(start, cur) || Less(cur, end);
  }

  /** The window loop of Rule.silenced. */
  method CheckWindows(windows: seq<string>, cur: string) returns (covered: bool)
    ensures covered == exists w :: w in windows && Covers(w, cur)
  {
    for i := 0 to |windows|
      invariant forall k :: 0 <= k < i ==> !Covers(windows[k], cur)
    {
      var covers := CheckWindow(windows[i], cur);
      if covers {
        assert windows[i] in windows;
        return true;
      }
    }
    return false;
  }

  /** Rule.silenced. */
  method CheckSilenced(r: Rule, now: int, parse: Parser) returns (silenced: bool)
    ensures silenced == Silenced(r, now, parse)
  {
    if r.silenceUntil != "" {
      var t := parse(r.silenceUntil);
      if t.Some? && now < t.value { return true; }
    }
    silenced := CheckWindows(r.muteWindows, Clock(MinuteOfDay(now)));
  }

  // ---------- what it means ----------

  /** Comparing clock texts is comparing minutes. */
  lemma ClockOrder(a: nat, b: nat)
    requires a < DAY && b < DAY
    ensures Less(Clock(a), Clock(b)) <==> a < b
  {
    var h, k := TwoDigits(a / 60), TwoDigits(b / 60);
    var s, t := ":" + TwoDigits(a % 60), ":" + TwoDigits(b % 60);
    assert Clock(a) == h + s && Clock(b) == k + t;
    TwoDigitsOrder(a / 60, b / 60);
    if a / 60 == b / 60 {
      LessSharedPrefix(h, s, t);
      LessSharedPrefix(":", TwoDigits(a % 60), TwoDigits(b % 60));
      TwoDigitsOrder(a % 60, b % 60);
    } else {
      LessByPrefix(h, k, s, t);
    }
  }

  /** The half-open arc from a to b on the 24-hour circle. */
  predicate Arc(a: nat, b: nat, m: nat) {
    (m - a) % DAY < (b - a) % DAY
  }

  lemma ArcCases(a: nat, b: nat, m: nat)
    requires a < DAY && b < DAY && m < DAY
    ensures Arc(a, b, m) <==> if a <= b then a <= m < b else m >= a || m < b
  {
    assert (m - a) % DAY == if m >= a then m - a else m - a + DAY;
    assert (b - a) % DAY == if b >= a then b - a else b - a + DAY;
  }

  // ---------- the minute an endpoint stands for ----------

  lemma AtMostLater(s: string, m: nat)
    requires 0 < m < DAY && AtMost(s, Clock(m - 1))
    ensures AtMost(s, Clock(m))
  {
    ClockOrder(m, m - 1);
    AtMostTransitive(s, Clock(m - 1), Clock(m));
  }

  /** The text cuts the first n minutes of the day at minute k. */
  ghost predicate CutsAt(s: string, n: nat, k: nat) {
    k <= n <= DAY && forall m: nat :: m < n ==> (AtMost(s, Clock(m)) <==> m >= k)
  }

  lemma {:induction false} CutsSomewhere(s: string, n: nat) returns (k: nat)
    requires n <= DAY
    ensures CutsAt(s, n, k)
  {
    if n == 0 {
      k := 0;
    } else {
      k := CutsSomewhere(s, n - 1);
      if k < n - 1 {
        AtMostLater(s, n - 1);
      } else if !AtMost(s, Clock(n - 1)) {
        k := n;
      }
    }
  }

  lemma CutExists(s: string)
    ensures exists k: nat :: CutsAt(s, DAY, k)
  {
    var k := CutsSomewhere(s, DAY);
  }

  /** The minute at which the clock reaches the text, whatever the text is; DAY when it never does. */
  ghost function Reaches(s: string): (k: nat)
    ensures CutsAt(s, DAY, k)
  {
    CutExists(s);
    var k: nat :| CutsAt(s, DAY, k);
    k
  }

  /** Any text at all cuts the day in the minutes before it and the minutes from it on. */
  lemma ReachesCuts(s: string, m: nat)
    requires m < DAY
    ensures AtMost(s, Clock(m)) <==> m >= Reaches(s)
  {
    assert CutsAt(s, DAY, Reaches(s));
  }

  lemma PinnedDown(r: nat, k: nat, before: bool, at: bool)
    requires r <= DAY && k <= DAY
    requires k > 0 ==> (before <==> k - 1 >= r)
    requires k < DAY ==> (at <==> k >= r)
    ensures r == k <==> (k == 0 || !before) && (k == DAY || at)
  {
  }

  /** For which texts an endpoint is the minute k: those above the previous clock text and not above its
      own. */
  lemma ReachesExactly(s: string, k: nat)
    requires k <= DAY
    ensures Reaches(s) == k <==> (k == 0 || Less(Clock(k - 1), s)) && (k == DAY || AtMost(s, Clock(k)))
  {
    if k > 0 {
      ReachesCuts(s, k - 1);
    }
    if k < DAY {
      ReachesCuts(s, k);
    }
    PinnedDown(Reaches(s), k, k > 0 && AtMost(s, Clock(k - 1)), k < DAY && AtMost(s, Clock(k)));
  }

  /** A zero-padded HH:MM stands for its own minute. */
  lemma PaddedIsItself(k: nat)
    requires k < DAY
    ensures Reaches(Clock(k)) == k
  {
    ClockOrder(k, k);
    if k > 0 {
      ClockOrder(k - 1, k);
    }
    ReachesExactly(Clock(k), k);
  }

  function Unpadded(hour: nat, minute: nat): string
    requires hour < 10 && minute < 60
  {
    [Digit(hour)] + ":" + TwoDigits(minute)
  }

  /** An hour written with one digit never stands for its minute: 0:mm is ten o'clock, 1:mm is eight in the
      evening, and every other one is midnight at the end of the day. */
  lemma UnpaddedIsAnother(hour: nat, minute: nat)
    requires hour < 10 && minute < 60
    ensures Reaches(Unpadded(hour, minute)) == (if hour == 0 then 600 else if hour == 1 then 1200 else DAY)
    ensures Reaches(Unpadded(hour, minute)) != 60 * hour + minute
  {
    var k := if hour == 0 then 600 else if hour == 1 then 1200 else DAY;
    AgainstUnpadded(hour, minute, k - 1);
    if k < DAY {
      AgainstUnpadded(hour, minute, k);
    }
    ReachesExactly(Unpadded(hour, minute), k);
  }

  lemma AgainstUnpadded(hour: nat, minute: nat, m: nat)
    requires hour < 10 && minute < 60 && m < DAY
    ensures Less(Clock(m), Unpadded(hour, minute)) <==> m / 600 <= hour
    ensures Less(Unpadded(hour, minute), Clock(m)) <==> m / 600 > hour
  {
    var s, t := Clock(m), Unpadded(hour, minute);
    assert s[0] == Digit(m / 60 / 10) && t[0] == Digit(hour);
    assert s[1..][0] == Digit(m / 60 % 10) && t[1..][0] == ':';
    assert m / 60 / 10 == m / 600;
  }

  // ---------- windows ----------

  function StartOf(window: string): string {
    Trim(SplitN(window, '-', 2)[0])
  }

  /** The text after the first dash; without a dash there is none. */
  function EndOf(window: string): string {
    var parts := SplitN(window, '-', 2);
    if |parts| == 2 then Trim(parts[1]) else ""
  }

  /** What a window mutes: nothing without a dash; otherwise the minutes from the one its start stands for up
      to the one its end stands for, across midnight if that is earlier. If both stand for one minute, it
      mutes the whole day if the start's text is above the end's, and nothing if it is not. */
  ghost predicate Mutes(window: string, m: nat) {
    var a, b := Reaches(StartOf(window)), Reaches(EndOf(window));
    '-' in window &&
    if a < b then a <= m < b
    else if a > b then m >= a || m < b
    else Less(EndOf(window), StartOf(window))
  }

  lemma {:induction false} ReachesOrder(s: string, t: string)
    requires AtMost(s, t)
    ensures Reaches(s) <= Reaches(t)
  {
    var k := Reaches(t);
    if k < DAY {
      ReachesExactly(t, k);
      AtMostTransitive(s, t, Clock(k));
      ReachesCuts(s, k);
    }
  }

  lemma CoversByParts(window: string, cur: string)
    ensures Covers(window, cur)
            <==> '-' in window && if AtMost(StartOf(window), EndOf(window))
                                  then AtMost(StartOf(window), cur) && Less(cur, EndOf(window))
                                  else AtMost(StartOf(window), cur) || Less(cur, EndOf(window))
  {
    SplitNTwo(window, '-');
  }

  /** The texts compared by the code mean those minutes, for every window and every minute. */
  lemma CoversIsMutes(window: string, m: nat)
    requires m < DAY
    ensures Covers(window, Clock(m)) <==> Mutes(window, m)
  {
    var start, end := StartOf(window), EndOf(window);
    CoversByParts(window, Clock(m));
    ReachesCuts(start, m);
    ReachesCuts(end, m);
    LessTotal(start, end);
    if AtMost(start, end) {
      ReachesOrder(start, end);
    } else {
      ReachesOrder(end, start);
    }
  }

  ghost predicate MutesExactly(window: string, a: nat, b: nat) {
    forall m: nat :: m < DAY ==> (Covers(window, Clock(m)) <==> Arc(a, b, m))
  }

  function Before(a: nat): (p: nat)
    requires a < DAY
    ensures p < DAY
  {
    if a == 0 then DAY - 1 else a - 1
  }

  /** An arc is known by the minutes at which it begins and ends. */
  lemma ArcEnds(a: nat, b: nat)
    requires a < DAY && b < DAY && a != b
    ensures Arc(a, b, a) && !Arc(a, b, Before(a)) && Arc(a, b, Before(b)) && !Arc(a, b, b)
  {
    ArcCases(a, b, a);
    ArcCases(a, b, b);
    ArcCases(a, b, Before(a));
    ArcCases(a, b, Before(b));
  }

  lemma MutesFromEnds(window: string, a: nat, b: nat)
    requires a < DAY && b < DAY && a != b
    requires Mutes(window, a) && !Mutes(window, Before(a)) && Mutes(window, Before(b)) && !Mutes(window, b)
    ensures Reaches(StartOf(window)) % DAY == a && Reaches(EndOf(window)) % DAY == b
  {
    EndOfDay(Reaches(StartOf(window)));
    EndOfDay(Reaches(EndOf(window)));
  }

  lemma MutesIsArc(window: string, a: nat, b: nat, m: nat)
    requires '-' in window && Reaches(StartOf(window)) % DAY == a && Reaches(EndOf(window)) % DAY == b
    requires m < DAY && a != b
    ensures Mutes(window, m) <==> Arc(a, b, m)
  {
    ArcCases(a, b, m);
    EndOfDay(Reaches(StartOf(window)));
    EndOfDay(Reaches(EndOf(window)));
  }

  lemma EndOfDay(p: nat)
    requires p <= DAY
    ensures p % DAY == if p == DAY then 0 else p
  {
  }

  /** A window mutes exactly the minutes from a to b if and only if it has a dash and its endpoints stand for
      a and b, where the end of the day counts as its beginning. */
  lemma WindowIsArc(window: string, a: nat, b: nat)
    requires a < DAY && b < DAY && a != b
    ensures MutesExactly(window, a, b)
            <==> '-' in window && Reaches(StartOf(window)) % DAY == a && Reaches(EndOf(window)) % DAY == b
  {
    if MutesExactly(window, a, b) {
      ArcEnds(a, b);
      forall m: nat | m < DAY ensures Mutes(window, m) <==> Arc(a, b, m) {
        CoversIsMutes(window, m);
      }
      MutesFromEnds(window, a, b);
    }
    if '-' in window && Reaches(StartOf(window)) % DAY == a && Reaches(EndOf(window)) % DAY == b {
      forall m: nat | m < DAY ensures Covers(window, Clock(m)) <==> Arc(a, b, m) {
        CoversIsMutes(window, m);
        MutesIsArc(window, a, b, m);
      }
    }
  }

  /** A rule is silenced exactly when its deadline is still ahead or one of its windows mutes the minute of
      the day, m minutes and some nanoseconds after midnight. */
  lemma SilencedExactly(r: Rule, now: int, parse: Parser, day: int, m: nat, ns: int)
    requires m < 1440 && 0 <= ns < 60_000_000_000 && now == (1440 * day + m) * 60_000_000_000 + ns
    ensures Silenced(r, now, parse)
            <==> (r.silenceUntil != "" && parse(r.silenceUntil).Some? && now < parse(r.silenceUntil).value)
                 || exists w :: w in r.muteWindows && Mutes(w, m)
  {
    MinuteIs(now, day, m, ns);
    forall w | w in r.muteWindows ensures Covers(w, Clock(m)) <==> Mutes(w, m) {
      CoversIsMutes(w, m);
    }
  }

  lemma MinuteIs(now: int, day: int, m: nat, ns: int)
    requires m < 1440 && 0 <= ns < 60_000_000_000 && now == (1440 * day + m) * 60_000_000_000 + ns
    ensures MinuteOfDay(now) == m
  {
    assert now / MINUTE == 1440 * day + m;
  }

  // ---------- windows as they are written ----------

  lemma WindowParts(start: string, end: string)
    requires '-' !in start && Trimmed(start) && Trimmed(end)
    ensures var w := start + "-" + end; '-' in w && StartOf(w) == start && EndOf(w) == end
  {
    var w := start + "-" + end;
    SplitNHead(start, '-', end, 2);
    assert w[|start|] == '-';
    TrimShape(start);
    TrimShape(end);
  }

  lemma ClockShape(m: nat)
    requires m < DAY
    ensures |Clock(m)| == 5 && '-' !in Clock(m) && Trimmed(Clock(m))
  {
  }

  /** Two different zero-padded endpoints cut the day in two: every minute lies in exactly one of a-b and
      b-a; equal endpoints mute nothing. */
  lemma WindowsPartitionTheDay(a: nat, b: nat, m: nat)
    requires a < DAY && b < DAY && m < DAY
    ensures a != b ==> Covers(Clock(a) + "-" + Clock(b), Clock(m)) == !Covers(Clock(b) + "-" + Clock(a), Clock(m))
    ensures a == b ==> !Covers(Clock(a) + "-" + Clock(b), Clock(m))
  {
    ArcCases(a, b, m);
    ArcCases(b, a, m);
    PaddedWindow(a, b, m);
    PaddedWindow(b, a, m);
  }

  /** A window is read as the texts on the two sides of its first dash, without the white space around them, and
      compared with the clock text as a span, or as its complement if its end is below its start. */
  lemma WindowReads(a: string, start: string, b: string, c: string, end: string, d: string, cur: string)
    requires Blank(a) && Blank(b) && Blank(c) && Blank(d) && Trimmed(start) && Trimmed(end) && '-' !in start
    ensures var w := (a + start + b) + "-" + (c + end + d);
            && StartOf(w) == start && EndOf(w) == end
            && (Covers(w, cur) <==> if Less(end, start) then !Less(cur, start) || Less(cur, end)
                                    else !Less(cur, start) && Less(cur, end))
  {
    var w := (a + start + b) + "-" + (c + end + d);
    NoDash(a);
    NoDash(b);
    SplitNHead(a + start + b, '-', c + end + d, 2);
    assert SplitN(w, '-', 2) == [a + start + b, c + end + d];
    TrimExactly(a, start, b);
    TrimExactly(c, end, d);
  }

  lemma NoDash(s: string)
    requires Blank(s)
    ensures '-' !in s
  {
  }

  lemma WindowMutes(start: string, end: string, m: nat)
    requires '-' !in start && Trimmed(start) && Trimmed(end) && m < DAY && Reaches(start) != Reaches(end)
    ensures var a, b := Reaches(start), Reaches(end);
            Covers(start + "-" + end, Clock(m)) <==> if a < b then a <= m < b else m >= a || m < b
  {
    WindowParts(start, end);
    CoversIsMutes(start + "-" + end, m);
  }

  lemma PaddedWindow(a: nat, b: nat, m: nat)
    requires a < DAY && b < DAY && m < DAY
    ensures Covers(Clock(a) + "-" + Clock(b), Clock(m)) <==> Arc(a, b, m)
  {
    ClockShape(a);
    ClockShape(b);
    PaddedIsItself(a);
    PaddedIsItself(b);
    ArcCases(a, b, m);
    if a == b {
      WindowParts(Clock(a), Clock(b));
      CoversIsMutes(Clock(a) + "-" + Clock(b), m);
      LessTotal(Clock(a), Clock(a));
    } else {
      WindowMutes(Clock(a), Clock(b), m);
    }
  }

  lemma UnpaddedShape(hour: nat, minute: nat)
    requires hour < 10 && minute < 60
    ensures '-' !in Unpadded(hour, minute) && Trimmed(Unpadded(hour, minute))
  {
  }

  lemma NineToFiveText()
    ensures Unpadded(9, 0) + "-" + Clock(17 * 60) == "9:00-17:00"
  {
    assert TwoDigits(0) == "00" && TwoDigits(17) == "17";
  }

  /** Office hours written with one digit mute the hours from midnight to 16:59 instead. */
  lemma NineToFive(m: nat)
    requires m < DAY
    ensures Covers("9:00-17:00", Clock(m)) <==> m < 17 * 60
  {
    NineToFiveText();
    ClockShape(17 * 60);
    UnpaddedShape(9, 0);
    UnpaddedIsAnother(9, 0);
    PaddedIsItself(17 * 60);
    WindowMutes(Unpadded(9, 0), Clock(17 * 60), m);
  }

  lemma MidnightIsTheEnd()
    ensures Reaches("24:00") == DAY
  {
    var last, midnight := Clock(DAY - 1), "24:00";
    assert last[0] == '2' && last[1..][0] == '3' && midnight[1..][0] == '4';
    ReachesExactly(midnight, DAY);
  }

  /** The end of the day may be written as 24:00. */
  lemma TenToMidnight(m: nat)
    requires m < DAY
    ensures Covers("22:00-24:00", Clock(m)) <==> m >= 22 * 60
  {
    var ten, midnight := Clock(22 * 60), "24:00";
    assert TwoDigits(0) == "00" && TwoDigits(22) == "22" && ten == "22:00";
    assert ten + "-" + midnight == "22:00-24:00";
    ClockShape(22 * 60);
    MidnightIsTheEnd();
    PaddedIsItself(22 * 60);
    WindowMutes(ten, midnight, m);
  }
}
