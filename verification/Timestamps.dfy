/** RFC 3339 timestamps as the store writes and compares them (sections 5.1 and 5.6 of RFC 3339): with one
    zone offset and four-digit years, comparing the texts is comparing the instants. */
module Timestamps {
  import opened Text

  /** A wall-clock reading, to the second, in the server's zone. */
  datatype Stamp = Stamp(year: nat, month: nat, day: nat, hour: nat, minute: nat, second: nat)

  predicate Leap(year: nat) {
    year % 4 == 0 && (year % 100 != 0 || year % 400 == 0)
  }

  function MonthDays(year: nat, month: nat): (d: nat)
    ensures 28 <= d <= 31
  {
    if month == 2 then (if Leap(year) then 29 else 28)
    else if month == 4 || month == 6 || month == 9 || month == 11 then 30
    else 31
  }

  predicate Valid(s: Stamp) {
    && s.year < 10000 && 1 <= s.month <= 12 && 1 <= s.day <= MonthDays(s.year, s.month)
    && s.hour < 24 && s.minute < 60 && s.second < 60
  }

  // ---------- the text ----------

  function FourDigits(n: nat): string
    requires n < 10000
  {
    TwoDigits(n / 100) + TwoDigits(n % 100)
  }

  function TimeText(s: Stamp, zone: string): string
    requires Valid(s)
  {
    TwoDigits(s.hour) + ":" + (TwoDigits(s.minute) + ":" + (TwoDigits(s.second) + zone))
  }

  /** `Format(time.RFC3339)`; the zone is `Z` or a numeric offset, and the same for every stamp. */
  function Print(s: Stamp, zone: string): string
    requires Valid(s)
  {
    FourDigits(s.year) + "-" + (TwoDigits(s.month) + "-" + (TwoDigits(s.day) + "T" + TimeText(s, zone)))
  }

  // ---------- the instant ----------

  function YearStart(year: nat): nat {
    if year == 0 then 0 else YearStart(year - 1) + (if Leap(year - 1) then 366 else 365)
  }

  function MonthStart(year: nat, month: nat): nat {
    if month <= 1 then 0 else MonthStart(year, month - 1) + MonthDays(year, month - 1)
  }

  function DayNumber(s: Stamp): int {
    YearStart(s.year) + MonthStart(s.year, s.month) + s.day - 1
  }

  function SecondOfDay(s: Stamp): nat {
    s.hour * 3600 + s.minute * 60 + s.second
  }

  /** Seconds since midnight of 1 January of year 0, local time. */
  function Instant(s: Stamp): int {
    DayNumber(s) * 86400 + SecondOfDay(s)
  }

  /** The days before a year, counted in one step. */
  function DaysBefore(year: nat): int {
    365 * year + (year + 3) / 4 - (year + 99) / 100 + (year + 399) / 400
  }

  /** One year more adds its days. */
  lemma LeapStep(y: nat)
    ensures DaysBefore(y + 1) == DaysBefore(y) + (if Leap(y) then 366 else 365)
  {
    Rounded4(y);
    Rounded100(y);
    Rounded400(y);
    Fourth(y);
    Hundredth(y);
  }

  lemma Rounded4(y: nat)
    ensures (y + 4) / 4 == (y + 3) / 4 + (if y % 4 == 0 then 1 else 0)
  {
  }

  lemma Rounded100(y: nat)
    ensures (y + 100) / 100 == (y + 99) / 100 + (if y % 100 == 0 then 1 else 0)
  {
  }

  lemma Rounded400(y: nat)
    ensures (y + 400) / 400 == (y + 399) / 400 + (if y % 400 == 0 then 1 else 0)
  {
  }

  lemma TimesFour(q: nat)
    ensures 4 * q % 4 == 0
  {
  }

  lemma TimesHundred(q: nat)
    ensures 100 * q % 100 == 0
  {
  }

  lemma Fourth(y: nat)
    ensures y % 100 == 0 ==> y % 4 == 0
  {
    TimesFour(25 * (y / 100));
  }

  lemma Hundredth(y: nat)
    ensures y % 400 == 0 ==> y % 100 == 0
  {
    TimesHundred(4 * (y / 400));
  }

  lemma {:induction false} YearStartExactly(year: nat)
    ensures YearStart(year) == DaysBefore(year)
  {
    if year == 0 {
    } else {
      YearStartExactly(year - 1);
      LeapStep(year - 1);
    }
  }

  /** The days before each month of a common year. */
  const BEFORE_MONTH: seq<nat> := [0, 31, 59, 90, 120, 151, 181, 212, 243, 273, 304, 334]

  lemma {:induction false} MonthStartExactly(year: nat, month: nat)
    requires 1 <= month <= 12
    ensures MonthStart(year, month) == BEFORE_MONTH[month - 1] + (if month > 2 && Leap(year) then 1 else 0)
  {
    if month == 1 {
    } else {
      MonthStartExactly(year, month - 1);
    }
  }

  /** The instant counts the days of the Gregorian calendar, with a leap day in every fourth year but not in
      every hundredth unless it is a four-hundredth. */
  lemma InstantExactly(s: Stamp)
    requires Valid(s)
    ensures var y, leap := s.year, s.year % 4 == 0 && (s.year % 100 != 0 || s.year % 400 == 0);
            var days := 365 * y + (y + 3) / 4 - (y + 99) / 100 + (y + 399) / 400 + s.day - 1
                        + [0, 31, 59, 90, 120, 151, 181, 212, 243, 273, 304, 334][s.month - 1]
                        + (if leap && s.month > 2 then 1 else 0);
            Instant(s) == ((days * 24 + s.hour) * 60 + s.minute) * 60 + s.second
  {
    YearStartExactly(s.year);
    MonthStartExactly(s.year, s.month);
  }

  lemma {:induction false} YearStartMonotone(a: nat, b: nat)
    requires a < b
    ensures YearStart(a) + (if Leap(a) then 366 else 365) <= YearStart(b)
  {
    if a + 1 < b {
      YearStartMonotone(a, b - 1);
    }
  }

  lemma {:induction false} MonthStartMonotone(year: nat, a: nat, b: nat)
    requires 1 <= a < b
    ensures MonthStart(year, a) + MonthDays(year, a) <= MonthStart(year, b)
  {
    if a + 1 < b {
      MonthStartMonotone(year, a, b - 1);
    }
  }

  lemma YearLength(year: nat)
    ensures MonthStart(year, 12) + MonthDays(year, 12) == if Leap(year) then 366 else 365
  {
    var feb := MonthDays(year, 2);
    assert MonthStart(year, 2) == 31;
    assert MonthStart(year, 3) == 31 + feb;
    assert MonthStart(year, 4) == 62 + feb;
    assert MonthStart(year, 5) == 92 + feb;
    assert MonthStart(year, 6) == 123 + feb;
    assert MonthStart(year, 7) == 153 + feb;
    assert MonthStart(year, 8) == 184 + feb;
    assert MonthStart(year, 9) == 215 + feb;
    assert MonthStart(year, 10) == 245 + feb;
    assert MonthStart(year, 11) == 276 + feb;
    assert MonthStart(year, 12) == 306 + feb;
  }

  lemma DayOfYear(s: Stamp)
    requires Valid(s)
    ensures 0 <= MonthStart(s.year, s.month) + s.day - 1 < if Leap(s.year) then 366 else 365
  {
    YearLength(s.year);
    if s.month < 12 {
      MonthStartMonotone(s.year, s.month, 12);
    }
  }

  predicate DateBefore(a: Stamp, b: Stamp) {
    a.year < b.year || (a.year == b.year && (a.month < b.month || (a.month == b.month && a.day < b.day)))
  }

  lemma DateBeforeIsEarlier(a: Stamp, b: Stamp)
    requires Valid(a) && Valid(b) && DateBefore(a, b)
    ensures DayNumber(a) < DayNumber(b)
  {
    DayOfYear(a);
    DayOfYear(b);
    if a.year < b.year {
      YearStartMonotone(a.year, b.year);
    } else if a.month < b.month {
      MonthStartMonotone(a.year, a.month, b.month);
    }
  }

  predicate Before(a: Stamp, b: Stamp) {
    DateBefore(a, b)
    || (a.year == b.year && a.month == b.month && a.day == b.day
        && (a.hour < b.hour
            || (a.hour == b.hour && (a.minute < b.minute || (a.minute == b.minute && a.second < b.second)))))
  }

  lemma BeforeIsEarlier(a: Stamp, b: Stamp)
    requires Valid(a) && Valid(b)
    ensures Before(a, b) <==> Instant(a) < Instant(b)
    ensures a == b <==> Instant(a) == Instant(b)
  {
    if DateBefore(a, b) {
      DateBeforeIsEarlier(a, b);
    } else if DateBefore(b, a) {
      DateBeforeIsEarlier(b, a);
    }
  }

  // ---------- the text, field by field ----------

  lemma TwoDigitsValue(n: nat)
    requires n < 100
    ensures |TwoDigits(n)| == 2 && NumberOf(TwoDigits(n)) == n
  {
    var s := TwoDigits(n);
    assert s[..1] == [Digit(n / 10)] && s[..1][..0] == "";
    assert NumberOf(s[..1]) == n / 10;
  }

  lemma FourDigitsValue(n: nat)
    requires n < 10000
    ensures |FourDigits(n)| == 4 && NumberOf(FourDigits(n)) == n
  {
    var s, a, b := FourDigits(n), TwoDigits(n / 100), TwoDigits(n % 100);
    TwoDigitsValue(n / 100);
    assert s[..3] == a + [b[0]] && s[..3][..2] == a;
    assert NumberOf(s[..3]) == 10 * (n / 100) + n % 100 / 10;
  }

  /** Where a field stands in the text. */
  lemma Pieces(a: string, b: string, c: string, d: string, e: string, f: string, zone: string)
    requires |a| == 4 && |b| == |c| == |d| == |e| == |f| == 2
    ensures var t := a + "-" + (b + "-" + (c + "T" + (d + ":" + (e + ":" + (f + zone)))));
            && |t| == 19 + |zone| && t[..4] == a && t[5..7] == b && t[8..10] == c && t[11..13] == d
            && t[14..16] == e && t[17..19] == f && t[19..] == zone
            && t[4] == t[7] == '-' && t[10] == 'T' && t[13] == t[16] == ':'
  {
  }

  /** A stamp is printed as YYYY-MM-DDThh:mm:ss and the zone. */
  lemma PrintExactly(s: Stamp, zone: string)
    requires Valid(s)
    ensures var t := Print(s, zone);
            && |t| == 19 + |zone| && t[4] == t[7] == '-' && t[10] == 'T' && t[13] == t[16] == ':' && t[19..] == zone
            && NumberOf(t[..4]) == s.year && NumberOf(t[5..7]) == s.month && NumberOf(t[8..10]) == s.day
            && NumberOf(t[11..13]) == s.hour && NumberOf(t[14..16]) == s.minute && NumberOf(t[17..19]) == s.second
  {
    FourDigitsValue(s.year);
    TwoDigitsValue(s.month);
    TwoDigitsValue(s.day);
    TwoDigitsValue(s.hour);
    TwoDigitsValue(s.minute);
    TwoDigitsValue(s.second);
    Pieces(FourDigits(s.year), TwoDigits(s.month), TwoDigits(s.day), TwoDigits(s.hour), TwoDigits(s.minute),
           TwoDigits(s.second), zone);
  }

  // ---------- text order is time order ----------

  /** One fixed-width field followed by the rest. */
  lemma FieldOrder(p: string, q: string, sep: string, a: string, b: string)
    requires |p| == |q|
    ensures Less(p + sep + a, q + sep + b) <==> Less(p, q) || (p == q && Less(a, b))
    ensures p + sep + a == q + sep + b <==> p == q && a == b
  {
    assert p + sep + a == p + (sep + a) && q + sep + b == q + (sep + b);
    LessTotal(p, q);
    if p == q {
      LessSharedPrefix(p, sep + a, sep + b);
      LessSharedPrefix(sep, a, b);
      assert (p + (sep + a))[|p + sep|..] == a && (q + (sep + b))[|q + sep|..] == b;
    } else {
      LessByPrefix(p, q, sep + a, sep + b);
      assert (p + (sep + a))[..|p|] == p && (q + (sep + b))[..|q|] == q;
    }
  }

  lemma FourDigitsOrder(a: nat, b: nat)
    requires a < 10000 && b < 10000
    ensures Less(FourDigits(a), FourDigits(b)) <==> a < b
    ensures FourDigits(a) == FourDigits(b) <==> a == b
  {
    var p, q, x, y := TwoDigits(a / 100), TwoDigits(b / 100), TwoDigits(a % 100), TwoDigits(b % 100);
    TwoDigitsOrder(a / 100, b / 100);
    TwoDigitsOrder(a % 100, b % 100);
    assert p + "" + x == p + x && q + "" + y == q + y;
    FieldOrder(p, q, "", x, y);
  }

  lemma TimeTextOrder(a: Stamp, b: Stamp, zone: string)
    requires Valid(a) && Valid(b)
    ensures Less(TimeText(a, zone), TimeText(b, zone)) <==>
            a.hour < b.hour
                || (a.hour == b.hour && (a.minute < b.minute || (a.minute == b.minute && a.second < b.second)))
  {
    var s, t := TwoDigits(a.second), TwoDigits(b.second);
    LessTotal(zone, zone);
    assert s + "" + zone == s + zone && t + "" + zone == t + zone;
    FieldOrder(s, t, "", zone, zone);
    FieldOrder(TwoDigits(a.minute), TwoDigits(b.minute), ":", s + zone, t + zone);
    FieldOrder(TwoDigits(a.hour), TwoDigits(b.hour), ":",
               TwoDigits(a.minute) + ":" + (s + zone), TwoDigits(b.minute) + ":" + (t + zone));
    TwoDigitsOrder(a.second, b.second);
    TwoDigitsOrder(a.minute, b.minute);
    TwoDigitsOrder(a.hour, b.hour);
  }

  /** Lexicographic order of the printed stamps is chronological order. */
  lemma PrintOrder(a: Stamp, b: Stamp, zone: string)
    requires Valid(a) && Valid(b)
    ensures Less(Print(a, zone), Print(b, zone)) <==> Instant(a) < Instant(b)
    ensures AtMost(Print(a, zone), Print(b, zone)) <==> Instant(a) <= Instant(b)
  {
    PrintLess(a, b, zone);
    PrintLess(b, a, zone);
    BeforeIsEarlier(a, b);
    BeforeIsEarlier(b, a);
  }

  lemma PrintLess(a: Stamp, b: Stamp, zone: string)
    requires Valid(a) && Valid(b)
    ensures Less(Print(a, zone), Print(b, zone)) <==> Before(a, b)
  {
    var s, t := TimeText(a, zone), TimeText(b, zone);
    TimeTextOrder(a, b, zone);
    FieldOrder(TwoDigits(a.day), TwoDigits(b.day), "T", s, t);
    FieldOrder(TwoDigits(a.month), TwoDigits(b.month), "-", TwoDigits(a.day) + "T" + s, TwoDigits(b.day) + "T" + t);
    FieldOrder(FourDigits(a.year), FourDigits(b.year), "-",
               TwoDigits(a.month) + "-" + (TwoDigits(a.day) + "T" + s),
               TwoDigits(b.month) + "-" + (TwoDigits(b.day) + "T" + t));
    TwoDigitsOrder(a.day, b.day);
    TwoDigitsOrder(a.month, b.month);
    FourDigitsOrder(a.year, b.year);
  }
}
