/** The string operations of Go's `strings`, `strconv` and `fmt` packages that the modelled code
    relies on, with the facts about them that the protocols need. Strings are sequences of code
    points; comparing code points one by one is the same order as comparing UTF-8 bytes. */
module Text {

  datatype Option<+T> = None | Some(value: T)

  function MapSeq<A, B>(f: A -> B, xs: seq<A>): (ys: seq<B>)
    ensures |ys| == |xs| && forall k :: 0 <= k < |xs| ==> ys[k] == f(xs[k])
  {
    seq(|xs|, i requires 0 <= i < |xs| => f(xs[i]))
  }

  lemma MapConcat<A, B>(f: A -> B, a: seq<A>, b: seq<A>)
    ensures MapSeq(f, a + b) == MapSeq(f, a) + MapSeq(f, b)
  {
  }

  function Iterate<T>(f: T -> T, x: T, n: nat): T {
    if n == 0 then x else f(Iterate(f, x, n - 1))
  }

  /** What one step keeps, any number of steps keeps. */
  lemma {:induction false} IterateKeeps<T(!new), K>(f: T -> T, inv: T -> bool, key: T -> K, x: T, n: nat)
    requires inv(x)
    requires forall y: T :: inv(y) ==> inv(f(y)) && key(f(y)) == key(y)
    ensures inv(Iterate(f, x, n)) && key(Iterate(f, x, n)) == key(x)
  {
    if n == 0 {
    } else {
      IterateKeeps(f, inv, key, x, n - 1);
    }
  }

  /** Iterating along a sequence of values that each step follows. */
  lemma {:induction false} IterateFollows<T(!new)>(f: T -> T, at: nat -> T, n: nat)
    requires forall k: nat :: f(at(k)) == at(k + 1)
    ensures Iterate(f, at(0), n) == at(n)
  {
    if n == 0 {
    } else {
      IterateFollows(f, at, n - 1);
    }
  }

  /** The values that are there, in order. */
  function Somes<T>(xs: seq<Option<T>>): (r: seq<T>)
    ensures |r| <= |xs|
  {
    if xs == [] then []
    else
      var rest := Somes(xs[..|xs| - 1]);
      match xs[|xs| - 1]
      case None => rest
      case Some(x) => rest + [x]
  }

  lemma {:induction false} SomesConcat<T>(a: seq<Option<T>>, b: seq<Option<T>>)
    ensures Somes(a + b) == Somes(a) + Somes(b)
  {
    if b == [] {
      assert a + b == a;
    } else {
      assert (a + b)[..|a + b| - 1] == a + b[..|b| - 1];
      SomesConcat(a, b[..|b| - 1]);
    }
  }

  lemma {:induction false} SomesMembers<T>(xs: seq<Option<T>>)
    ensures forall x :: x in Somes(xs) <==> Some(x) in xs
  {
    if xs == [] {
    } else {
      SomesMembers(xs[..|xs| - 1]);
      assert xs == xs[..|xs| - 1] + [xs[|xs| - 1]];
    }
  }

  lemma {:induction false} SomesWhole<T>(xs: seq<Option<T>>)
    ensures |Somes(xs)| == |xs| <==> forall k :: 0 <= k < |xs| ==> xs[k].Some?
    ensures |Somes(xs)| == |xs| ==> forall k :: 0 <= k < |xs| ==> xs[k] == Some(Somes(xs)[k])
  {
    if xs == [] {
    } else {
      SomesWhole(xs[..|xs| - 1]);
    }
  }

  /** The elements that pass, in order. */
  function Filter<T>(xs: seq<T>, keep: T -> bool): (r: seq<T>)
    ensures |r| <= |xs|
  {
    if xs == [] then []
    else
      var rest, x := Filter(xs[..|xs| - 1], keep), xs[|xs| - 1];
      if keep(x) then rest + [x] else rest
  }

  lemma {:induction false} FilterMembers<T>(xs: seq<T>, keep: T -> bool)
    ensures forall x {:trigger x in Filter(xs, keep)} :: x in Filter(xs, keep) ==> x in xs && keep(x)
    ensures forall x {:trigger x in xs} :: x in xs && keep(x) ==> x in Filter(xs, keep)
  {
    if xs == [] {
    } else {
      FilterMembers(xs[..|xs| - 1], keep);
      assert xs == xs[..|xs| - 1] + [xs[|xs| - 1]];
    }
  }

  lemma {:induction false} FilterNone<T>(xs: seq<T>, keep: T -> bool)
    requires forall x :: x in xs ==> !keep(x)
    ensures Filter(xs, keep) == []
  {
    if xs == [] {
    } else {
      FilterNone(xs[..|xs| - 1], keep);
      assert xs[|xs| - 1] in xs;
    }
  }

  lemma {:induction false} FilterAll<T>(xs: seq<T>, keep: T -> bool)
    requires forall x :: x in xs ==> keep(x)
    ensures Filter(xs, keep) == xs
  {
    if xs == [] {
    } else {
      FilterAll(xs[..|xs| - 1], keep);
      assert xs[|xs| - 1] in xs;
      assert xs == xs[..|xs| - 1] + [xs[|xs| - 1]];
    }
  }

  lemma FilterSnoc<T>(xs: seq<T>, x: T, keep: T -> bool)
    ensures Filter(xs + [x], keep) == if keep(x) then Filter(xs, keep) + [x] else Filter(xs, keep)
  {
    assert (xs + [x])[..|xs|] == xs;
  }

  lemma {:induction false} FilterConcat<T>(a: seq<T>, b: seq<T>, keep: T -> bool)
    ensures Filter(a + b, keep) == Filter(a, keep) + Filter(b, keep)
  {
    if b == [] {
      assert a + b == a;
    } else {
      assert (a + b)[..|a + b| - 1] == a + b[..|b| - 1];
      FilterConcat(a, b[..|b| - 1], keep);
    }
  }

  /** Places below n, in ascending order. */
  ghost predicate Climbing(idx: seq<nat>, n: nat) {
    && (forall k :: 0 <= k < |idx| ==> idx[k] < n)
    && (forall a, b :: 0 <= a < b < |idx| ==> idx[a] < idx[b])
  }

  /** The places of some list at which something holds. */
  ghost predicate PlacesOf(idx: seq<nat>, n: nat, holds: nat -> bool) {
    Climbing(idx, n) && forall i: nat :: i in idx <==> i < n && holds(i)
  }

  /** The elements at some places. */
  function Pick<T>(xs: seq<T>, idx: seq<nat>): (r: seq<T>)
    requires forall k :: 0 <= k < |idx| ==> idx[k] < |xs|
    ensures |r| == |idx| && forall k :: 0 <= k < |idx| ==> r[k] == xs[idx[k]]
  {
    seq(|idx|, k requires 0 <= k < |idx| => xs[idx[k]])
  }

  lemma PlacesSnoc<T>(xs: seq<T>, idx: seq<nat>, n: nat, holds: nat -> bool)
    requires PlacesOf(idx, n, holds) && n < |xs|
    ensures PlacesOf(idx + [n], n + 1, holds) || !holds(n)
    ensures holds(n) || PlacesOf(idx, n + 1, holds)
    ensures Pick(xs, idx + [n]) == Pick(xs, idx) + [xs[n]]
  {
  }

  function KeptAt<T>(xs: seq<T>, keep: T -> bool): nat -> bool {
    (i: nat) => i < |xs| && keep(xs[i])
  }

  /** The filter picks the elements at exactly the places where the test holds, in order. */
  lemma {:induction false} FilterUpTo<T>(xs: seq<T>, keep: T -> bool, n: nat) returns (idx: seq<nat>)
    requires n <= |xs|
    ensures PlacesOf(idx, n, KeptAt(xs, keep)) && Filter(xs[..n], keep) == Pick(xs, idx)
  {
    if n == 0 {
      idx := [];
    } else {
      idx := FilterUpTo(xs, keep, n - 1);
      assert xs[..n] == xs[..n - 1] + [xs[n - 1]];
      FilterSnoc(xs[..n - 1], xs[n - 1], keep);
      PlacesSnoc(xs, idx, n - 1, KeptAt(xs, keep));
      if keep(xs[n - 1]) {
        idx := idx + [n - 1];
      }
    }
  }

  lemma FilterPlaces<T>(xs: seq<T>, keep: T -> bool) returns (idx: seq<nat>)
    ensures Climbing(idx, |xs|) && Filter(xs, keep) == Pick(xs, idx)
    ensures forall i: nat :: i in idx <==> i < |xs| && keep(xs[i])
  {
    idx := FilterUpTo(xs, keep, |xs|);
    assert xs[..|xs|] == xs;
    assert forall i: nat :: i in idx <==> i < |xs| && KeptAt(xs, keep)(i);
  }

  // ---------- lexicographic order ----------

  /** Go's and SQLite's `<` on strings. */
  predicate Less(a: string, b: string) {
    b != "" && (a == "" || a[0] < b[0] || (a[0] == b[0] && Less(a[1..], b[1..])))
  }

  predicate AtMost(a: string, b: string) {
    !Less(b, a)
  }

  lemma {:induction false} LessTransitive(a: string, b: string, c: string)
    requires Less(a, b) && Less(b, c)
    ensures Less(a, c)
  {
    if a != "" && a[0] == b[0] && b[0] == c[0] {
      LessTransitive(a[1..], b[1..], c[1..]);
    }
  }

  lemma {:induction false} LessTotal(a: string, b: string)
    ensures Less(a, b) || a == b || Less(b, a)
    ensures !(Less(a, b) && Less(b, a))
    ensures !Less(a, a)
  {
    if a != "" && b != "" && a[0] == b[0] {
      LessTotal(a[1..], b[1..]);
      assert a == [a[0]] + a[1..] && b == [b[0]] + b[1..];
    }
    if a != "" {
      LessTotal(a[1..], a[1..]);
    }
  }

  lemma AtMostTransitive(a: string, b: string, c: string)
    requires AtMost(a, b) && AtMost(b, c)
    ensures AtMost(a, c)
  {
    if Less(c, a) {
      LessTotal(b, c);
      if b == c { return; }
      LessTransitive(b, c, a);
    }
  }

  /** A shared prefix does not matter. */
  lemma {:induction false} LessSharedPrefix(p: string, a: string, b: string)
    ensures Less(p + a, p + b) == Less(a, b)
  {
    if p == "" {
      assert p + a == a && p + b == b;
    } else {
      assert (p + a)[1..] == p[1..] + a && (p + b)[1..] == p[1..] + b;
      LessSharedPrefix(p[1..], a, b);
    }
  }

  /** Two different strings of one length decide the comparison, whatever follows them. */
  lemma {:induction false} LessByPrefix(p: string, q: string, a: string, b: string)
    requires |p| == |q| && p != q
    ensures Less(p + a, q + b) == Less(p, q)
  {
    assert (p + a)[1..] == p[1..] + a && (q + b)[1..] == q[1..] + b;
    if p[0] == q[0] {
      assert p == [p[0]] + p[1..] && q == [q[0]] + q[1..];
      LessByPrefix(p[1..], q[1..], a, b);
    }
  }

  /** The place where the comparison is decided: the strings agree up to it, and there the first one ends or
      has the smaller character. */
  ghost predicate DecidedAt(a: string, b: string, k: nat) {
    k <= |a| && k < |b| && a[..k] == b[..k] && (k == |a| || a[k] < b[k])
  }

  lemma {:induction false} DecidedBelow(a: string, b: string, k: nat)
    requires DecidedAt(a, b, k)
    ensures Less(a, b)
  {
    if k == 0 {
    } else {
      assert a[0] == a[..k][0] && b[0] == b[..k][0];
      assert a[1..][..k - 1] == a[..k][1..] && b[1..][..k - 1] == b[..k][1..];
      DecidedBelow(a[1..], b[1..], k - 1);
    }
  }

  lemma {:induction false} DecidedSomewhere(a: string, b: string) returns (k: nat)
    requires Less(a, b)
    ensures DecidedAt(a, b, k)
  {
    if a == "" || a[0] < b[0] {
      k := 0;
    } else {
      var j := DecidedSomewhere(a[1..], b[1..]);
      k := j + 1;
      assert a[..k] == [a[0]] + a[1..][..j] && b[..k] == [b[0]] + b[1..][..j];
    }
  }

  /** The order is the one of dictionaries: the first difference decides, and a proper prefix comes first. */
  lemma LessExactly(a: string, b: string)
    ensures Less(a, b) <==> exists k: nat :: DecidedAt(a, b, k)
  {
    if Less(a, b) {
      var k := DecidedSomewhere(a, b);
    }
    if k: nat :| DecidedAt(a, b, k) {
      DecidedBelow(a, b, k);
    }
  }

  // ---------- TrimSpace, ToLower ----------

  /** `unicode.IsSpace`. */
  predicate IsSpace(c: char) {
    '\t' <= c <= '\r'
        || c in {' ', '\U{85}', '\U{A0}', '\U{1680}', '\U{2028}', '\U{2029}', '\U{202F}', '\U{205F}', '\U{3000}'}
    || '\U{2000}' <= c <= '\U{200A}'
  }

  function TrimLeft(s: string): string {
    if s != "" && IsSpace(s[0]) then TrimLeft(s[1..]) else s
  }

  function TrimRight(s: string): string {
    if s != "" && IsSpace(s[|s| - 1]) then TrimRight(s[..|s| - 1]) else s
  }

  /** `strings.TrimSpace`. */
  function Trim(s: string): string {
    TrimRight(TrimLeft(s))
  }

  /** No white space at either end. */
  predicate Trimmed(s: string) {
    s == "" || (!IsSpace(s[0]) && !IsSpace(s[|s| - 1]))
  }

  lemma {:induction false} TrimLeftShape(s: string) returns (i: nat)
    ensures i <= |s| && TrimLeft(s) == s[i..]
    ensures i < |s| ==> !IsSpace(s[i])
    ensures forall k :: 0 <= k < i ==> IsSpace(s[k])
  {
    if s != "" && IsSpace(s[0]) {
      var j := TrimLeftShape(s[1..]);
      i := j + 1;
      assert s[1..][j..] == s[i..];
      forall k | 0 <= k < i ensures IsSpace(s[k]) {
        if k > 0 { assert s[k] == s[1..][k - 1]; }
      }
    } else {
      i := 0;
    }
  }

  lemma {:induction false} TrimRightShape(s: string) returns (j: nat)
    ensures j <= |s| && TrimRight(s) == s[..j]
    ensures j > 0 ==> !IsSpace(s[j - 1])
    ensures forall k :: j <= k < |s| ==> IsSpace(s[k])
  {
    if s != "" && IsSpace(s[|s| - 1]) {
      j := TrimRightShape(s[..|s| - 1]);
      assert s[..|s| - 1][..j] == s[..j];
      forall k | j <= k < |s| ensures IsSpace(s[k]) {
        if k < |s| - 1 { assert s[k] == s[..|s| - 1][k]; }
      }
    } else {
      j := |s|;
    }
  }

  /** Trimming gives a trimmed substring, and keeps every character that is not white space. */
  lemma TrimShape(s: string)
    ensures Trimmed(Trim(s))
    ensures forall c :: c in Trim(s) ==> c in s
    ensures forall c :: c in s && !IsSpace(c) ==> c in Trim(s)
    ensures Trimmed(s) ==> Trim(s) == s
  {
    var i := TrimLeftShape(s);
    var l := s[i..];
    var j := TrimRightShape(l);
    assert Trim(s) == l[..j];
    forall c | c in s && !IsSpace(c) ensures c in l[..j] {
      var k :| 0 <= k < |s| && s[k] == c;
      assert k >= i && l[k - i] == c && k - i < j;
      assert l[..j][k - i] == c;
    }
  }

  /** Nothing but white space. */
  ghost predicate Blank(s: string) {
    forall c :: c in s ==> IsSpace(c)
  }

  lemma {:induction false} TrimLeftBlank(a: string, s: string)
    requires Blank(a)
    ensures TrimLeft(a + s) == TrimLeft(s)
  {
    if a == "" {
      assert a + s == s;
    } else {
      assert a[0] in a && (a + s)[1..] == a[1..] + s;
      TrimLeftBlank(a[1..], s);
    }
  }

  lemma {:induction false} TrimRightBlank(s: string, b: string)
    requires Blank(b)
    ensures TrimRight(s + b) == TrimRight(s)
  {
    if b == "" {
      assert s + b == s;
    } else {
      assert b[|b| - 1] in b && (s + b)[..|s + b| - 1] == s + b[..|b| - 1];
      TrimRightBlank(s, b[..|b| - 1]);
    }
  }

  /** Trimming takes away the white space at both ends and nothing else. */
  lemma TrimExactly(before: string, core: string, after: string)
    requires Blank(before) && Blank(after) && Trimmed(core)
    ensures Trim(before + core + after) == core
  {
    assert before + core + after == before + (core + after);
    TrimLeftBlank(before, core + after);
    if core == "" {
      assert core + after == after + "";
      TrimLeftBlank(after, "");
    } else {
      assert (core + after)[0] == core[0];
      TrimRightBlank(core, after);
    }
  }

  lemma TrimParts(s: string) returns (before: string, after: string)
    ensures s == before + Trim(s) + after && Blank(before) && Blank(after)
  {
    var i := TrimLeftShape(s);
    var rest := s[i..];
    var j := TrimRightShape(rest);
    before, after := s[..i], rest[j..];
    BlankAt(before);
    BlankAt(after);
    assert s == before + rest && rest == rest[..j] + after;
  }

  lemma BlankAt(s: string)
    requires forall k :: 0 <= k < |s| ==> IsSpace(s[k])
    ensures Blank(s)
  {
  }

  /** Trimming around a character that stays trims both sides by themselves. */
  lemma TrimAround(a: string, c: char, b: string)
    requires !IsSpace(c)
    ensures Trim(a + [c] + b) == TrimLeft(a) + [c] + TrimRight(b)
    ensures Trim(TrimLeft(a)) == Trim(a) && Trim(TrimRight(b)) == Trim(b)
  {
    var i := TrimLeftShape(a);
    var j := TrimRightShape(b);
    TrimBetween(a, c, b, i, j);
    assert a == a[..i] + a[i..];
    TrimLeftBlank(a[..i], a[i..]);
    TrimSide(b);
  }

  lemma TrimBetween(a: string, c: char, b: string, i: nat, j: nat)
    requires !IsSpace(c) && i <= |a| && j <= |b|
    requires (i < |a| ==> !IsSpace(a[i])) && (j > 0 ==> !IsSpace(b[j - 1]))
    requires Blank(a[..i]) && Blank(b[j..])
    ensures Trim(a + [c] + b) == a[i..] + [c] + b[..j]
  {
    var core := a[i..] + [c] + b[..j];
    assert core[0] == (if i < |a| then a[i] else c) && core[|core| - 1] == (if j > 0 then b[j - 1] else c);
    assert a + [c] + b == a[..i] + core + b[j..];
    TrimExactly(a[..i], core, b[j..]);
  }

  lemma TrimSide(b: string)
    ensures Trim(TrimRight(b)) == Trim(b)
  {
    var before, after := TrimParts(b);
    var core := Trim(b);
    TrimShape(b);
    TrimRightBlank(before + core, after);
    if core == "" {
      assert before + core == "" + before;
      TrimRightBlank("", before);
    } else {
      TrimRightEnds(before + core);
      TrimExactly(before, core, "");
      assert before + core + "" == before + core;
    }
  }

  lemma TrimRightEnds(s: string)
    requires s != "" && !IsSpace(s[|s| - 1])
    ensures TrimRight(s) == s
  {
  }

  /** `unicode.ToLower`, exact on every character that can lower to an ASCII letter (the upper-case
      letters, the dotted capital I and the Kelvin sign); every other character stays outside ASCII
      letters either way. */
  function LowerChar(c: char): char {
    if 'A' <= c <= 'Z' then (c as int + 32) as char
    else if c == '\U{130}' then 'i'
    else if c == '\U{212A}' then 'k'
    else c
  }

  function Lower(s: string): (r: string)
    ensures |r| == |s|
    ensures forall k :: 0 <= k < |s| ==> r[k] == LowerChar(s[k])
  {
    if s == "" then "" else [LowerChar(s[0])] + Lower(s[1..])
  }

  // ---------- Split, SplitN, Join ----------

  /** The position of the first `c`, or the length when there is none. */
  function IndexOf(s: string, c: char): (i: nat)
    ensures i <= |s| && c !in s[..i]
    ensures i < |s| ==> s[i] == c
    ensures i == |s| <==> c !in s
  {
    if s == "" then 0
    else if s[0] == c then 0
    else
      var j := IndexOf(s[1..], c);
      assert s[..j + 1] == [s[0]] + s[1..][..j];
      assert s == [s[0]] + s[1..];
      j + 1
  }

  lemma IndexOfUnique(a: string, c: char, b: string)
    requires c !in a
    ensures IndexOf(a + [c] + b, c) == |a|
  {
    var s := a + [c] + b;
    var i := IndexOf(s, c);
    assert s[|a|] == c;
    assert forall k :: 0 <= k < i ==> s[k] in s[..i];
    assert forall k :: 0 <= k < |a| ==> s[k] in a;
  }

  /** `strings.Split(s, sep)` for a one-character separator. */
  function Split(s: string, c: char): (parts: seq<string>)
    ensures parts != []
    ensures forall k :: 0 <= k < |parts| ==> c !in parts[k]
    decreases |s|
  {
    var i := IndexOf(s, c);
    if i == |s| then [s] else [s[..i]] + Split(s[i + 1..], c)
  }

  /** `strings.SplitN(s, sep, n)`: at most n pieces, the last one unsplit. */
  function SplitN(s: string, c: char, n: nat): (parts: seq<string>)
    requires n >= 1
    ensures 1 <= |parts| <= n
    decreases n
  {
    var i := IndexOf(s, c);
    if n == 1 || i == |s| then [s] else [s[..i]] + SplitN(s[i + 1..], c, n - 1)
  }

  lemma SplitNHead(p: string, c: char, b: string, n: nat)
    requires c !in p && n >= 2
    ensures SplitN(p + [c] + b, c, n) == [p] + SplitN(b, c, n - 1)
  {
    var s := p + [c] + b;
    IndexOfUnique(p, c, b);
    assert s[..|p|] == p && s[|p| + 1..] == b;
  }

  lemma SplitNTwo(s: string, c: char)
    ensures SplitN(s, c, 2) == var i := IndexOf(s, c); if i == |s| then [s] else [s[..i], s[i + 1..]]
  {
    var i := IndexOf(s, c);
    if i < |s| {
      assert SplitN(s[i + 1..], c, 1) == [s[i + 1..]];
    }
  }

  ghost predicate Substrings(parts: seq<string>, s: string) {
    forall k :: 0 <= k < |parts| ==> forall x :: x in parts[k] ==> x in s
  }

  lemma JoinTwo(s: string, c: char)
    ensures Join(SplitN(s, c, 2), c) == s && Substrings(SplitN(s, c, 2), s)
  {
    var i := IndexOf(s, c);
    SplitNTwo(s, c);
    if i < |s| {
      JoinedAt(s, i, c);
    }
  }

  lemma JoinedAt(s: string, i: nat, c: char)
    requires i < |s| && s[i] == c
    ensures Join([s[..i], s[i + 1..]], c) == s && Substrings([s[..i], s[i + 1..]], s)
  {
    var segs := [s[..i], s[i + 1..]];
    assert segs[1..] == [s[i + 1..]];
    assert s == s[..i] + [c] + s[i + 1..];
  }

  /** The pieces of a string split at most twice: substrings, the first without the separator, the
      rest joining back to what follows it. */
  lemma SplitNThree(s: string, c: char)
    ensures var segs := SplitN(s, c, 3);
            && (|segs| >= 2 ==> c !in segs[0] && |segs[0]| < |s| && Join(segs[1..], c) == s[|segs[0]| + 1..])
            && Substrings(segs, s)
  {
    var i := IndexOf(s, c);
    if i < |s| {
      var rest := s[i + 1..];
      JoinTwo(rest, c);
      var segs := SplitN(s, c, 3);
      assert segs == [s[..i]] + SplitN(rest, c, 2);
      assert segs[1..] == SplitN(rest, c, 2);
      forall k, x | 0 <= k < |segs| && x in segs[k] ensures x in s {
        if k > 0 {
          assert segs[k] == SplitN(rest, c, 2)[k - 1];
          assert x in rest;
        }
      }
    }
  }

  /** `strings.Join(parts, sep)` for a one-character separator. */
  function Join(parts: seq<string>, c: char): string {
    if parts == [] then ""
    else if |parts| == 1 then parts[0]
    else parts[0] + [c] + Join(parts[1..], c)
  }

  lemma Regroup(a: string, b: string, c: string, d: string)
    ensures a + b + c + d == a + (b + c + d)
  {
  }

  lemma SplitHead(p: string, c: char, b: string)
    requires c !in p
    ensures Split(p + [c] + b, c) == [p] + Split(b, c)
  {
    var s := p + [c] + b;
    IndexOfUnique(p, c, b);
    assert s[..|p|] == p && s[|p| + 1..] == b;
  }

  /** Splitting at a separator in the middle splits both sides. */
  lemma {:induction false} SplitConcat(a: string, c: char, b: string)
    ensures Split(a + [c] + b, c) == Split(a, c) + Split(b, c)
    decreases |a|
  {
    var i := IndexOf(a, c);
    if i == |a| {
      SplitHead(a, c, b);
    } else {
      var p, rest := a[..i], a[i + 1..];
      assert a == p + [c] + rest;
      Regroup(p + [c], rest, [c], b);
      calc {
        Split(a + [c] + b, c);
        { SplitHead(p, c, rest + [c] + b); }
        [p] + Split(rest + [c] + b, c);
        { SplitConcat(rest, c, b); }
        [p] + (Split(rest, c) + Split(b, c));
      }
    }
  }

  /** Split undoes Join when no piece holds the separator. */
  lemma {:induction false} SplitJoin(parts: seq<string>, c: char)
    requires parts != []
    requires forall k :: 0 <= k < |parts| ==> c !in parts[k]
    ensures Split(Join(parts, c), c) == parts
  {
    if |parts| > 1 {
      SplitConcat(parts[0], c, Join(parts[1..], c));
      SplitJoin(parts[1..], c);
      assert parts == [parts[0]] + parts[1..];
    } else {
      assert parts == [parts[0]];
    }
  }

  // ---------- decimal numbers ----------

  function Digit(d: nat): (c: char)
    requires d < 10
    ensures '0' <= c <= '9'
  {
    ('0' as int + d) as char
  }

  function Decimal(n: nat): (s: string)
    ensures s != "" && forall c :: c in s ==> '0' <= c <= '9'
  {
    if n < 10 then [Digit(n)] else Decimal(n / 10) + [Digit(n % 10)]
  }

  /** `strconv.Itoa`, `fmt.Sprint` and the `%d` verb. */
  function Itoa(n: int): string {
    if n < 0 then "-" + Decimal(-n) else Decimal(n)
  }

  /** The number that some digits stand for. */
  function NumberOf(digits: string): int {
    if digits == "" then 0
    else 10 * NumberOf(digits[..|digits| - 1]) + (digits[|digits| - 1] as int - '0' as int)
  }

  lemma {:induction false} DecimalValue(n: nat)
    ensures NumberOf(Decimal(n)) == n && (Decimal(n)[0] == '0' <==> n == 0)
  {
    if n < 10 {
      assert [Digit(n)][..0] == "";
    } else {
      DecimalValue(n / 10);
      var s := Decimal(n);
      assert s[..|s| - 1] == Decimal(n / 10);
    }
  }

  /** A number is written as its decimal digits, without leading zeros, after a minus if it is negative. */
  lemma ItoaExactly(n: int)
    ensures var s := Itoa(n); var digits := if n < 0 then s[1..] else s;
            && digits != "" && (forall c :: c in digits ==> '0' <= c <= '9') && (digits[0] == '0' <==> n == 0)
            && NumberOf(digits) == (if n < 0 then -n else n) && (n < 0 ==> s[0] == '-')
  {
    DecimalValue(if n < 0 then -n else n);
    if n < 0 {
      assert Itoa(n)[1..] == Decimal(-n);
    }
  }

  lemma {:induction false} DecimalInjective(m: nat, n: nat)
    requires Decimal(m) == Decimal(n)
    ensures m == n
  {
    var a, b := Decimal(m), Decimal(n);
    assert a[|a| - 1] == Digit(m % 10) && b[|b| - 1] == Digit(n % 10);
    if m >= 10 && n >= 10 {
      assert a[..|a| - 1] == Decimal(m / 10) && b[..|b| - 1] == Decimal(n / 10);
      DecimalInjective(m / 10, n / 10);
    }
  }

  /** Zero-padded to two places. */
  function TwoDigits(n: nat): string
    requires n < 100
  {
    [Digit(n / 10), Digit(n % 10)]
  }

  lemma TwoDigitsOrder(a: nat, b: nat)
    requires a < 100 && b < 100
    ensures Less(TwoDigits(a), TwoDigits(b)) <==> a < b
    ensures TwoDigits(a) == TwoDigits(b) <==> a == b
  {
    var s, t := TwoDigits(a), TwoDigits(b);
    assert s[1..] == [Digit(a % 10)] && t[1..] == [Digit(b % 10)];
    OneCharOrder(Digit(a % 10), Digit(b % 10));
    assert Less(s, t) <==> s[0] < t[0] || (s[0] == t[0] && Less(s[1..], t[1..]));
    assert s == t <==> s[0] == t[0] && s[1] == t[1];
  }

  lemma OneCharOrder(c: char, d: char)
    ensures Less([c], [d]) <==> c < d
  {
    assert [c][1..] == "" && [d][1..] == "";
  }

  lemma ItoaSign(n: int)
    ensures Itoa(n) != "" && (Itoa(n)[0] == '-' <==> n < 0)
  {
    if n >= 0 {
      assert Decimal(n)[0] in Decimal(n);
    }
  }

  lemma ItoaInjective(m: int, n: int)
    requires Itoa(m) == Itoa(n)
    ensures m == n
  {
    ItoaSign(m);
    ItoaSign(n);
    if m < 0 {
      assert Itoa(m)[1..] == Decimal(-m) && Itoa(n)[1..] == Decimal(-n);
      DecimalInjective(-m, -n);
    } else {
      DecimalInjective(m, n);
    }
  }

  lemma ItoaHasNoBar(n: int)
    ensures '|' !in Itoa(n)
  {
    if n < 0 {
      assert Itoa(n) == ['-'] + Decimal(-n);
    }
  }

  /** `left|right` keys: with a bar-free left part the key determines both parts. */
  lemma BarKeyLeft(a: string, x: string, b: string, y: string)
    requires '|' !in a && '|' !in b
    requires a + "|" + x == b + "|" + y
    ensures a == b && x == y
  {
    var s := a + "|" + x;
    IndexOfUnique(a, '|', x);
    IndexOfUnique(b, '|', y);
    assert a == s[..|a|] && b == s[..|b|];
    assert x == s[|a| + 1..] && y == s[|b| + 1..];
  }

  /** The same with a bar-free right part: the last bar is the separator. */
  lemma BarKeyRight(a: string, x: string, b: string, y: string)
    requires '|' !in x && '|' !in y
    requires a + "|" + x == b + "|" + y
    ensures a == b && x == y
  {
    var s := a + "|" + x;
    assert forall k :: |a| < k < |s| ==> s[k] == x[k - |a| - 1];
    assert forall k :: |b| < k < |s| ==> s[k] == y[k - |b| - 1];
    assert s[|a|] == s[|b|] == '|';
    assert |a| == |b|;
    assert a == s[..|a|] && b == s[..|b|];
    assert x == s[|a| + 1..] && y == s[|b| + 1..];
  }

  /** The `client|id` key that the scheduler and the ping aggregation both use. */
  function ClientKey(client: string, id: int): string {
    client + "|" + Itoa(id)
  }

  lemma ClientKeyInjective(client: string, id: int, client': string, id': int)
    requires ClientKey(client, id) == ClientKey(client', id')
    ensures client == client' && id == id'
  {
    ItoaHasNoBar(id);
    ItoaHasNoBar(id');
    BarKeyRight(client, Itoa(id), client', Itoa(id'));
    ItoaInjective(id, id');
  }
}
