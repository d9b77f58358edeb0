/** The probe list on the wire: the agent flattens the tasks it fetched to `name[:type]:target,...`,
    appends its local list and parses the whole string back (cmd/agent/main.go). */
module Wire {
  import opened Text

  /** A probe target, as served by the server and as reported by the agent. */
  datatype Probe = Probe(name: string, host: string, typ: string)

  const PROBE_TYPES: set<string> := {"icmp", "ping", "tcp", "http", "https", "dns"}

  function Canonical(typ: string): string {
    Lower(Trim(typ))
  }

  /** Does the text between two colons name a probe type? */
  predicate Recognised(typ: string) {
    Canonical(typ) in PROBE_TYPES
  }

  // ---------- printing ----------

  function PrintPart(p: Probe): string {
    if p.typ != "" then p.name + ":" + p.typ + ":" + p.host else p.name + ":" + p.host
  }

  function PrintParts(ps: seq<Probe>): (parts: seq<string>)
    ensures |parts| <= |ps|
  {
    if ps == [] then []
    else
      var last := ps[|ps| - 1];
      var rest := PrintParts(ps[..|ps| - 1]);
      if last.name == "" || last.host == "" then rest else rest + [PrintPart(last)]
  }

  function Print(ps: seq<Probe>): string {
    Join(PrintParts(ps), ',')
  }

  /** The printer loop of fetchRemoteProbes, on the decoded task list. */
  method PrintRemoteProbes(tasks: seq<Probe>) returns (s: string)
    ensures s == Print(tasks)
  {
    var parts := [];
    for i := 0 to |tasks|
      invariant parts == PrintParts(tasks[..i])
    {
      var t := tasks[i];
      assert tasks[..i + 1][..i] == tasks[..i];
      if t.name == "" || t.host == "" { continue; }
      if t.typ != "" {
        parts := parts + [t.name + ":" + t.typ + ":" + t.host];
      } else {
        parts := parts + [t.name + ":" + t.host];
      }
    }
    assert tasks[..|tasks|] == tasks;
    return Join(parts, ',');
  }

  // ---------- parsing ----------

  /** One comma-separated piece. */
  function ParsePart(part: string): Option<Probe> {
    var p := Trim(part);
    if p == "" then None else
    var segs := SplitN(p, ':', 3);
    if |segs| >= 3 && Recognised(segs[1]) then
      ProbeFrom(Trim(segs[0]), Trim(segs[2]), Canonical(segs[1]))
    else if |segs| >= 2 then
      ProbeFrom(Trim(segs[0]), Trim(Join(segs[1..], ':')), "")
    else None
  }

  function ProbeFrom(name: string, host: string, typ: string): Option<Probe> {
    if name == "" || host == "" then None else Some(Probe(name, host, typ))
  }

  function Parsed(parts: seq<string>): (os: seq<Option<Probe>>)
    ensures |os| == |parts|
  {
    MapSeq(ParsePart, parts)
  }

  /** Every piece that parses, in order, repetitions included. */
  function Items(parts: seq<string>): seq<Probe> {
    Somes(Parsed(parts))
  }

  function Key(p: Probe): string {
    p.name + "|" + p.host
  }

  function Keys(ps: seq<Probe>): set<string> {
    set i | 0 <= i < |ps| :: Key(ps[i])
  }

  /** Only the first probe of each key. */
  function Dedupe(ps: seq<Probe>): (r: seq<Probe>)
    ensures |r| <= |ps|
  {
    if ps == [] then []
    else
      var init, p := ps[..|ps| - 1], ps[|ps| - 1];
      if Key(p) in Keys(init) then Dedupe(init) else Dedupe(init) + [p]
  }

  function Parse(s: string): seq<Probe> {
    if s == "" then [] else Dedupe(Items(Split(s, ',')))
  }

  /** The part of parseProbes' loop body that reads one piece. */
  method ParseOne(piece: string) returns (r: Option<Probe>)
    ensures r == ParsePart(piece)
  {
    var part := Trim(piece);
    if part == "" { return None; }
    var name, typ, host := "", "", "";
    var segs := SplitN(part, ':', 3);
    if |segs| >= 3 && Canonical(segs[1]) in PROBE_TYPES {
      name, typ, host := Trim(segs[0]), Canonical(segs[1]), Trim(segs[2]);
    } else if |segs| >= 2 {
      name, host := Trim(segs[0]), Trim(Join(segs[1..], ':'));
    } else {
      return None;
    }
    if name == "" || host == "" { return None; }
    return Some(Probe(name, host, typ));
  }

  /** parseProbes' loop, with its `seen` set. */
  method ParsePieces(parts: seq<string>) returns (out: seq<Probe>)
    ensures out == Dedupe(Items(parts))
  {
    out := [];
    var seen: set<string> := {};
    ghost var done := Items(parts[..0]);
    for i := 0 to |parts|
      invariant done == Items(parts[..i])
      invariant seen == Keys(done)
      invariant out == Dedupe(done)
    {
      PieceByPiece(parts, i);
      done := Items(parts[..i + 1]);
      var r := ParseOne(parts[i]);
      if r.None? { continue; }
      var p := r.value;
      var key := p.name + "|" + p.host;
      if key in seen { continue; }
      seen := seen + {key};
      out := out + [p];
    }
    assert parts[..|parts|] == parts;
  }

  /** parseProbes. */
  method ParseProbes(s: string) returns (out: seq<Probe>)
    ensures out == Parse(s)
  {
    if s == "" { return []; }
    out := ParsePieces(Split(s, ','));
  }

  lemma PieceByPiece(parts: seq<string>, i: nat)
    requires i < |parts|
    ensures var done, next := Items(parts[..i]), Items(parts[..i + 1]);
            match ParsePart(parts[i])
            case None => next == done
            case Some(p) =>
              && Dedupe(next) == (if Key(p) in Keys(done) then Dedupe(done) else Dedupe(done) + [p])
              && Keys(next) == Keys(done) + {Key(p)}
  {
    assert parts[..i + 1] == parts[..i] + [parts[i]];
    ItemsSnoc(parts[..i], parts[i]);
    if ParsePart(parts[i]).Some? {
      DedupeSnoc(Items(parts[..i]), ParsePart(parts[i]).value);
    }
  }

  /** No earlier probe has the same name and target. */
  function FirstOfItsKey(ps: seq<Probe>): nat -> bool {
    (i: nat) => i < |ps| && forall j :: 0 <= j < i ==> ps[j].name + "|" + ps[j].host != ps[i].name + "|" + ps[i].host
  }

  lemma KeyIsNew(ps: seq<Probe>, n: nat)
    requires n < |ps|
    ensures Key(ps[n]) !in Keys(ps[..n]) <==> FirstOfItsKey(ps)(n)
  {
    var init := ps[..n];
    if Key(ps[n]) in Keys(init) {
      var j :| 0 <= j < n && Key(init[j]) == Key(ps[n]);
      assert ps[j] == init[j];
    }
    if j :| 0 <= j < n && Key(ps[j]) == Key(ps[n]) {
      assert Key(init[j]) in Keys(init);
    }
  }

  lemma DedupeNext(ps: seq<Probe>, n: nat)
    requires n < |ps|
    ensures Dedupe(ps[..n + 1]) == if FirstOfItsKey(ps)(n) then Dedupe(ps[..n]) + [ps[n]] else Dedupe(ps[..n])
  {
    assert ps[..n + 1] == ps[..n] + [ps[n]];
    DedupeSnoc(ps[..n], ps[n]);
    KeyIsNew(ps, n);
  }

  lemma {:induction false} DedupeUpTo(ps: seq<Probe>, n: nat) returns (idx: seq<nat>)
    requires n <= |ps|
    ensures PlacesOf(idx, n, FirstOfItsKey(ps)) && Dedupe(ps[..n]) == Pick(ps, idx)
  {
    if n == 0 {
      idx := [];
    } else {
      idx := DedupeUpTo(ps, n - 1);
      DedupeNext(ps, n - 1);
      PlacesSnoc(ps, idx, n - 1, FirstOfItsKey(ps));
      if FirstOfItsKey(ps)(n - 1) {
        idx := idx + [n - 1];
      }
    }
  }

  /** Of the probes that share name and target exactly the first one stays, and the order is kept. */
  lemma DedupeExactly(ps: seq<Probe>) returns (idx: seq<nat>)
    ensures Climbing(idx, |ps|) && Dedupe(ps) == Pick(ps, idx)
    ensures forall i: nat :: i in idx <==>
              i < |ps| && forall j :: 0 <= j < i ==> ps[j].name + "|" + ps[j].host != ps[i].name + "|" + ps[i].host
  {
    idx := DedupeUpTo(ps, |ps|);
    assert ps[..|ps|] == ps;
    assert forall i: nat :: i in idx <==> i < |ps| && FirstOfItsKey(ps)(i);
  }

  lemma DedupeSnoc(ps: seq<Probe>, p: Probe)
    ensures Dedupe(ps + [p]) == if Key(p) in Keys(ps) then Dedupe(ps) else Dedupe(ps) + [p]
    ensures Keys(ps + [p]) == Keys(ps) + {Key(p)}
  {
    assert (ps + [p])[..|ps|] == ps;
    KeysSnoc(ps, p);
  }

  lemma KeysSnoc(ps: seq<Probe>, p: Probe)
    ensures Keys(ps + [p]) == Keys(ps) + {Key(p)}
  {
    var qs := ps + [p];
    forall k | k in Keys(ps) + {Key(p)} ensures k in Keys(qs) {
      if k in Keys(ps) {
        var i :| 0 <= i < |ps| && Key(ps[i]) == k;
        assert Key(qs[i]) == k;
      } else {
        assert Key(qs[|ps|]) == k;
      }
    }
  }

  lemma ItemsConcat(a: seq<string>, b: seq<string>)
    ensures Items(a + b) == Items(a) + Items(b)
  {
    MapConcat(ParsePart, a, b);
    SomesConcat(Parsed(a), Parsed(b));
  }

  lemma ItemsOne(part: string)
    ensures Items([part]) == match ParsePart(part) case None => [] case Some(p) => [p]
  {
    assert Parsed([part]) == [ParsePart(part)];
    assert [ParsePart(part)][..0] == [];
  }

  lemma ItemsSnoc(parts: seq<string>, part: string)
    ensures Items(parts + [part]) == match ParsePart(part) case None => Items(parts) case Some(p) => Items(parts) + [p]
  {
    ItemsConcat(parts, [part]);
    ItemsOne(part);
  }

  // ---------- what any piece is read as ----------

  /** The characters that lower to a letter of a type: itself, its upper case, and the dotted capital I. */
  predicate LowersTo(c: char, letter: char) {
    c == letter || c as int == letter as int - 32 || (letter == 'i' && c == '\U{130}')
  }

  /** The text is the word in some spelling: in any case, with white space around it. */
  ghost predicate SpelledAt(text: string, word: string, i: nat) {
    && i + |word| <= |text| && Blank(text[..i]) && Blank(text[i + |word|..])
    && forall k :: 0 <= k < |word| ==> LowersTo(text[i + k], word[k])
  }

  ghost predicate Spells(text: string, word: string) {
    exists i: nat :: SpelledAt(text, word, i)
  }

  ghost predicate PlainWord(word: string) {
    word != "" && forall k :: 0 <= k < |word| ==> 'a' <= word[k] <= 'z' && word[k] != 'k'
  }

  lemma SpelledCore(core: string, word: string)
    requires PlainWord(word) && |core| == |word| && forall k :: 0 <= k < |word| ==> LowersTo(core[k], word[k])
    ensures Trimmed(core) && ':' !in core && Lower(core) == word
  {
    forall k | 0 <= k < |word| ensures !IsSpace(core[k]) && core[k] != ':' && LowerChar(core[k]) == word[k] {
      LowersBack(core[k], word[k]);
    }
  }

  lemma BlankHasNoColon(s: string)
    requires Blank(s)
    ensures ':' !in s
  {
  }

  lemma SpelledIsCanonical(text: string, word: string, i: nat)
    requires PlainWord(word) && SpelledAt(text, word, i)
    ensures Canonical(text) == word && ':' !in text
  {
    var before, core, after := text[..i], text[i..i + |word|], text[i + |word|..];
    assert text == before + core + after;
    SpelledCore(core, word);
    TrimExactly(before, core, after);
    BlankHasNoColon(before);
    BlankHasNoColon(after);
  }

  lemma LowersBack(c: char, letter: char)
    requires 'a' <= letter <= 'z' && letter != 'k'
    ensures LowersTo(c, letter) <==> LowerChar(c) == letter
    ensures LowersTo(c, letter) ==> !IsSpace(c) && c != ':'
  {
  }

  lemma CanonicalIsSpelled(text: string)
    requires PlainWord(Canonical(text))
    ensures Spells(text, Canonical(text))
  {
    var before, after := TrimParts(text);
    var word := Canonical(text);
    var i := |before|;
    assert text[..i] == before && text[i + |word|..] == after;
    forall k | 0 <= k < |word| ensures LowersTo(text[i + k], word[k]) {
      assert text[i + k] == Trim(text)[k];
      LowersBack(text[i + k], word[k]);
    }
    assert SpelledAt(text, word, i);
  }

  lemma TypesAreWords(typ: string)
    requires typ in PROBE_TYPES
    ensures PlainWord(typ)
  {
  }

  /** The types the agent knows are these six, each in every spelling, and no other text is one. */
  lemma RecognisedExactly(text: string, typ: string)
    ensures typ in {"icmp", "ping", "tcp", "http", "https", "dns"} && Spells(text, typ)
            <==> Recognised(text) && Canonical(text) == typ
  {
    assert PROBE_TYPES == {"icmp", "ping", "tcp", "http", "https", "dns"};
    if typ in PROBE_TYPES && Spells(text, typ) {
      var i: nat :| SpelledAt(text, typ, i);
      TypesAreWords(typ);
      SpelledIsCanonical(text, typ, i);
    }
    if Recognised(text) {
      TypesAreWords(Canonical(text));
      CanonicalIsSpelled(text);
    }
  }

  /** Trimming a piece does not touch what its colons divide. */
  lemma TrimNamed(name: string, rest: string)
    requires ':' !in name
    ensures Trim(name + ":" + rest) == TrimLeft(name) + ":" + TrimRight(rest)
    ensures Trim(TrimLeft(name)) == Trim(name) && Trim(TrimRight(rest)) == Trim(rest)
    ensures ':' !in TrimLeft(name)
  {
    TrimAround(name, ':', rest);
    var i := TrimLeftShape(name);
    assert forall c :: c in TrimLeft(name) ==> c in name;
  }

  lemma TrimRightNamed(text: string, host: string)
    ensures TrimRight(text + ":" + host) == text + ":" + TrimRight(host)
  {
    var j := TrimRightShape(host);
    assert Blank(host[j..]);
    assert text + ":" + host == (text + ":" + host[..j]) + host[j..];
    TrimRightBlank(text + ":" + host[..j], host[j..]);
  }

  /** Name, type and target, for every spelling of a type and whatever stands on its two sides; white space at
      their ends does not count. */
  lemma PieceWithType(name: string, text: string, host: string, typ: string)
    requires ':' !in name && typ in {"icmp", "ping", "tcp", "http", "https", "dns"} && Spells(text, typ)
    ensures ParsePart(name + ":" + text + ":" + host)
            == if Trim(name) == "" || Trim(host) == "" then None else Some(Probe(Trim(name), Trim(host), typ))
  {
    RecognisedExactly(text, typ);
    var i: nat :| SpelledAt(text, typ, i);
    TypesAreWords(typ);
    SpelledIsCanonical(text, typ, i);
    var rest := text + ":" + host;
    assert name + ":" + text + ":" + host == name + ":" + rest;
    TrimNamed(name, rest);
    TrimRightNamed(text, host);
    TrimSide(host);
    ThreeSegments(TrimLeft(name), text, TrimRight(host));
  }

  lemma ThreeSegments(name: string, text: string, host: string)
    requires ':' !in name && ':' !in text
    ensures SplitN(name + ":" + (text + ":" + host), ':', 3) == [name, text, host]
  {
    SplitNHead(name, ':', text + ":" + host, 3);
    SplitNHead(text, ':', host, 2);
  }

  /** Without a type, which is when no text between the first two colons spells one, everything behind the
      first colon is the target. */
  lemma PieceWithoutType(name: string, rest: string)
    requires ':' !in name
    requires ':' in rest ==>
               forall typ :: typ in {"icmp", "ping", "tcp", "http", "https", "dns"} ==> !Spells(Head(rest), typ)
    ensures ParsePart(name + ":" + rest)
            == if Trim(name) == "" || Trim(rest) == "" then None else Some(Probe(Trim(name), Trim(rest), ""))
  {
    TrimNamed(name, rest);
    var short := TrimRight(rest);
    assert Trim(name + ":" + rest) != "";
    SegmentsOfNamedPart(TrimLeft(name), short);
    var segs := SplitN(TrimLeft(name) + ":" + short, ':', 3);
    if ':' in short {
      HeadOfTrimmed(rest);
      RecognisedExactly(Head(rest), Canonical(Head(rest)));
      HeadAndTail(short);
      assert segs[1..] == [Head(short), AfterHead(short)];
    } else {
      assert segs[1..] == [short];
    }
  }

  lemma HeadOfTrimmed(rest: string)
    requires ':' in TrimRight(rest)
    ensures ':' in rest && Head(TrimRight(rest)) == Head(rest)
  {
    var j := TrimRightShape(rest);
    HeadOfPrefix(rest, j);
  }

  lemma HeadOfPrefix(s: string, j: nat)
    requires j <= |s| && ':' in s[..j]
    ensures ':' in s && Head(s[..j]) == Head(s)
  {
    var i := IndexOf(s[..j], ':');
    assert s[i] == ':' && s[..i] == s[..j][..i];
    assert s == s[..i] + ":" + s[i + 1..];
    IndexOfUnique(s[..i], ':', s[i + 1..]);
  }

  /** A piece without a colon is no probe. */
  lemma PieceWithoutColon(part: string)
    requires ':' !in part
    ensures ParsePart(part) == None
  {
    TrimShape(part);
    assert ':' !in Trim(part);
  }

  lemma SingleProbe(s: string, p: Probe)
    requires ',' !in s && s != "" && ParsePart(s) == Some(p)
    ensures Parse(s) == [p]
  {
    assert Split(s, ',') == [s];
    ItemsOne(s);
    DedupeDistinct([p]);
  }

  lemma TrimmedWord(s: string)
    requires s != "" && !IsSpace(s[0]) && !IsSpace(s[|s| - 1])
    ensures Trim(s) == s != ""
  {
    TrimShape(s);
  }

  lemma TcpText()
    ensures "web" + ":" + "tcp" + ":" + "10.0.0.1:443" == "web:tcp:10.0.0.1:443"
    ensures ',' !in "web:tcp:10.0.0.1:443" && ':' !in "web"
    ensures Trim("web") == "web" && Trim("10.0.0.1:443") == "10.0.0.1:443"
  {
    TrimmedWord("web");
    TrimmedWord("10.0.0.1:443");
  }

  lemma TcpProbe(name: string, host: string)
    requires ':' !in name && ',' !in name + ":" + "tcp" + ":" + host
    requires Trim(name) == name != "" && Trim(host) == host != ""
    ensures Parse(name + ":" + "tcp" + ":" + host) == [Probe(name, host, "tcp")]
  {
    assert SpelledAt("tcp", "tcp", 0);
    PieceWithType(name, "tcp", host, "tcp");
    SingleProbe(name + ":" + "tcp" + ":" + host, Probe(name, host, "tcp"));
  }

  /** A TCP probe of a port. */
  lemma TcpExample()
    ensures Parse("web:tcp:10.0.0.1:443") == [Probe("web", "10.0.0.1:443", "tcp")]
  {
    TcpText();
    TcpProbe("web", "10.0.0.1:443");
  }

  // ---------- what the printed form of one task parses to ----------

  predicate CleanName(n: string) {
    n != "" && Trimmed(n) && ',' !in n && ':' !in n && '|' !in n
  }

  predicate CleanHost(h: string) {
    h != "" && Trimmed(h) && ',' !in h
  }

  /** The text before the first colon, when there is one. */
  function Head(s: string): string {
    s[..IndexOf(s, ':')]
  }

  function AfterHead(s: string): string
    requires ':' in s
  {
    s[IndexOf(s, ':') + 1..]
  }

  /** Exactly the probes whose printed form keeps their meaning: a typed one must carry a type in its
      canonical spelling; an untyped one must not have a target that starts like a type. */
  predicate Faithful(p: Probe) {
    if p.typ != "" then p.typ in PROBE_TYPES
    else ':' in p.host ==> !Recognised(Head(p.host))
  }

  /** Where a string with a clean name in front splits. */
  lemma SegmentsOfNamedPart(name: string, rest: string)
    requires ':' !in name
    ensures SplitN(name + ":" + rest, ':', 3) ==
            if ':' in rest then [name, Head(rest), AfterHead(rest)] else [name, rest]
  {
    SplitNHead(name, ':', rest, 3);
    SplitNTwo(rest, ':');
  }

  lemma HeadAndTail(s: string)
    requires ':' in s
    ensures s == Head(s) + ":" + AfterHead(s)
    ensures Join([Head(s), AfterHead(s)], ':') == s
  {
    var segs := [Head(s), AfterHead(s)];
    assert segs[1..] == [AfterHead(s)];
  }

  /** A piece that starts with a clean name parses from its first two colons. */
  lemma ParseNamedPart(name: string, rest: string)
    requires CleanName(name)
    requires rest != "" && !IsSpace(rest[|rest| - 1])
    ensures ParsePart(name + ":" + rest) ==
            if ':' in rest && Recognised(Head(rest))
            then ProbeFrom(name, Trim(AfterHead(rest)), Canonical(Head(rest)))
            else ProbeFrom(name, Trim(rest), "")
  {
    var p := name + ":" + rest;
    assert p[0] == name[0] && p[|p| - 1] == rest[|rest| - 1];
    TrimShape(p);
    TrimShape(name);
    SegmentsOfNamedPart(name, rest);
    var segs := SplitN(p, ':', 3);
    if ':' in rest {
      HeadAndTail(rest);
      assert segs[1..] == [Head(rest), AfterHead(rest)];
    } else {
      assert segs[1..] == [rest];
    }
  }

  lemma {:induction false} PrintedRest(p: Probe) returns (rest: string)
    requires CleanName(p.name) && CleanHost(p.host)
    ensures PrintPart(p) == p.name + ":" + rest
    ensures rest == if p.typ != "" then p.typ + ":" + p.host else p.host
    ensures rest != "" && rest[|rest| - 1] == p.host[|p.host| - 1]
  {
    rest := if p.typ != "" then p.typ + ":" + p.host else p.host;
    if p.typ != "" {
      Regroup(p.name + ":", p.typ, ":", p.host);
    }
  }

  lemma TypeLetters(typ: string)
    requires typ in PROBE_TYPES
    ensures typ != "" && forall k :: 0 <= k < |typ| ==> 'a' <= typ[k] <= 'z'
  {
  }

  lemma LowerCaseIsPlain(typ: string)
    requires typ != "" && forall k :: 0 <= k < |typ| ==> 'a' <= typ[k] <= 'z'
    ensures Canonical(typ) == typ && ':' !in typ && ',' !in typ
  {
    assert Trimmed(typ);
    TrimShape(typ);
    assert forall k :: 0 <= k < |typ| ==> Lower(typ)[k] == typ[k];
  }

  lemma TypesArePlain(typ: string)
    requires typ in PROBE_TYPES
    ensures Canonical(typ) == typ && ':' !in typ && ',' !in typ && typ != ""
  {
    TypeLetters(typ);
    LowerCaseIsPlain(typ);
  }

  lemma HeadOfTyped(typ: string, host: string)
    requires ':' !in typ
    ensures Head(typ + ":" + host) == typ
    ensures ':' in typ + ":" + host && AfterHead(typ + ":" + host) == host
  {
    var rest := typ + ":" + host;
    IndexOfUnique(typ, ':', host);
    assert rest[|typ|] == ':';
    assert rest[..|typ|] == typ && rest[|typ| + 1..] == host;
  }

  /** A clean probe survives print and parse if and only if it is faithful. */
  lemma PartRoundTrip(p: Probe)
    requires CleanName(p.name) && CleanHost(p.host)
    ensures ParsePart(PrintPart(p)) == Some(p) <==> Faithful(p)
  {
    var rest := PrintedRest(p);
    ParseNamedPart(p.name, rest);
    TrimShape(p.host);
    if p.typ in PROBE_TYPES {
      TypesArePlain(p.typ);
      HeadOfTyped(p.typ, p.host);
    }
    if Recognised(Head(rest)) {
      TypesArePlain(Canonical(Head(rest)));
    }
  }

  lemma TrimSuffix(s: string, t: string)
    requires |t| <= |s| && s[|s| - |t|..] == t
    requires t != "" && !IsSpace(t[|t| - 1])
    requires ',' !in s
    ensures CleanHost(Trim(t))
  {
    TrimShape(t);
    assert t[|t| - 1] in t;
    assert forall c :: c in t ==> c in s;
  }

  lemma HeadIsShort(rest: string, k: nat)
    requires k < |rest| && rest[k] == ':'
    ensures ':' in rest && |Head(rest)| <= k
    ensures |AfterHead(rest)| == |rest| - 1 - |Head(rest)| && AfterHead(rest) == rest[|Head(rest)| + 1..]
  {
    var i := IndexOf(rest, ':');
    assert forall j :: 0 <= j < i ==> rest[j] in rest[..i];
  }

  /** Whatever its type, a clean typed probe parses to some probe of the same name, with a clean target
      and an empty or canonical type. */
  lemma PrintedShape(p: Probe)
    requires CleanName(p.name) && CleanHost(p.host) && p.typ != "" && ',' !in p.typ
    ensures ParsePart(PrintPart(p)).Some?
    ensures var q := ParsePart(PrintPart(p)).value;
            q.name == p.name && CleanHost(q.host) && (q.typ == "" || q.typ in PROBE_TYPES)
  {
    var rest := PrintedRest(p);
    ParseNamedPart(p.name, rest);
    HeadIsShort(rest, |p.typ|);
    TrimSuffix(rest, AfterHead(rest));
    TrimSuffix(rest, rest);
  }

  /** What stands behind the first colon of a printed type and target. */
  function TargetBehind(typ: string, host: string): string {
    if ':' in typ then AfterHead(typ) + ":" + host else host
  }

  lemma HeadOfPrinted(typ: string, host: string)
    ensures var rest := typ + ":" + host;
            ':' in rest && Head(rest) == Head(typ) && AfterHead(rest) == TargetBehind(typ, host)
  {
    if ':' in typ {
      HeadAndTail(typ);
      Regroup(Head(typ) + ":", AfterHead(typ), ":", host);
      assert typ + ":" + host == Head(typ) + ":" + TargetBehind(typ, host);
      HeadOfTyped(Head(typ), TargetBehind(typ, host));
    } else {
      HeadOfTyped(typ, host);
    }
  }

  lemma TrimKeepsEnd(s: string)
    requires s != "" && !IsSpace(s[|s| - 1])
    ensures Trim(s) != ""
  {
    TrimShape(s);
    assert s[|s| - 1] in s;
  }

  /** What a typed probe is read back as: a known type in its canonical spelling, but an unknown one as part
      of the target. Of a type with a colon the part before it counts, and the rest belongs to the target. */
  lemma ReadBack(p: Probe)
    requires CleanName(p.name) && CleanHost(p.host) && p.typ != ""
    ensures ParsePart(PrintPart(p))
            == Some(if Recognised(Head(p.typ))
                    then Probe(p.name, Trim(TargetBehind(p.typ, p.host)), Canonical(Head(p.typ)))
                    else Probe(p.name, Trim(p.typ + ":" + p.host), ""))
  {
    var rest := PrintedRest(p);
    ReadRest(p.name, p.typ, p.host, rest);
  }

  lemma ReadRest(name: string, typ: string, host: string, rest: string)
    requires CleanName(name) && CleanHost(host) && rest == typ + ":" + host
    ensures ParsePart(name + ":" + rest)
            == Some(if Recognised(Head(typ)) then Probe(name, Trim(TargetBehind(typ, host)), Canonical(Head(typ)))
                    else Probe(name, Trim(rest), ""))
  {
    ParseNamedPart(name, rest);
    HeadOfPrinted(typ, host);
    EndOfTarget(typ, host);
    TrimKeepsEnd(rest);
    TrimKeepsEnd(TargetBehind(typ, host));
  }

  lemma EndOfTarget(typ: string, host: string)
    requires host != ""
    ensures var target := TargetBehind(typ, host); target != "" && target[|target| - 1] == host[|host| - 1]
  {
  }

  lemma FooIsForeign()
    ensures !Recognised("foo") && Head("foo") == "foo"
  {
    LowerCaseIsPlain("foo");
    assert "foo"[0] == 'f';
  }

  lemma LetterIsClean(c: char)
    requires 'a' <= c <= 'z'
    ensures CleanName([c]) && CleanHost([c])
  {
  }

  lemma FooText()
    ensures Trim("foo" + ":" + "h") == "foo:h"
  {
    var s := "foo" + ":" + "h";
    assert s == "foo:h" && s[0] == 'f' && s[|s| - 1] == 'h';
    TrimShape(s);
  }

  /** The typed probe d of type foo and target h is read back as the untyped probe d of target foo:h. */
  lemma ReadBackExample()
    ensures ParsePart(PrintPart(Probe("d", "h", "foo"))) == Some(Probe("d", "foo:h", ""))
  {
    var p := Probe("d", "h", "foo");
    LetterIsClean('d');
    LetterIsClean('h');
    assert p.typ[0] == 'f' && p.typ[1] == p.typ[2] == 'o';
    FooIsForeign();
    FooText();
    ReadBack(p);
  }

  // ---------- whole lists ----------

  predicate Printable(ps: seq<Probe>) {
    forall p :: p in ps ==> CleanName(p.name) && CleanHost(p.host) && ',' !in p.typ
  }

  lemma {:induction false} PrintedParts(ps: seq<Probe>)
    requires forall p :: p in ps ==> p.name != "" && p.host != ""
    ensures |PrintParts(ps)| == |ps|
    ensures forall k :: 0 <= k < |ps| ==> PrintParts(ps)[k] == PrintPart(ps[k])
  {
    if ps == [] {
    } else {
      PrintedParts(ps[..|ps| - 1]);
    }
  }

  function Whole(ps: seq<Probe>): nat -> bool {
    (i: nat) => i < |ps| && ps[i].name != "" && ps[i].host != ""
  }

  lemma {:induction false} PrintedUpTo(ps: seq<Probe>, n: nat) returns (idx: seq<nat>)
    requires n <= |ps|
    ensures PlacesOf(idx, n, Whole(ps)) && PrintParts(ps[..n]) == MapSeq(PrintPart, Pick(ps, idx))
  {
    if n == 0 {
      idx := [];
    } else {
      idx := PrintedUpTo(ps, n - 1);
      assert ps[..n][..n - 1] == ps[..n - 1];
      PlacesSnoc(ps, idx, n - 1, Whole(ps));
      if Whole(ps)(n - 1) {
        MapConcat(PrintPart, Pick(ps, idx), [ps[n - 1]]);
        assert MapSeq(PrintPart, [ps[n - 1]]) == [PrintPart(ps[n - 1])];
        idx := idx + [n - 1];
      }
    }
  }

  lemma PrintedAs(p: Probe)
    ensures PrintPart(p) == p.name + (if p.typ == "" then "" else ":" + p.typ) + ":" + p.host
  {
    assert p.name + "" == p.name;
    assert p.name + (":" + p.typ) == p.name + ":" + p.typ;
  }

  /** What is printed for which tasks: those with a name and a target, in order, each as name and target with
      the type, if it has one, between them. */
  lemma PrintedExactly(ps: seq<Probe>) returns (idx: seq<nat>, parts: seq<string>)
    ensures Climbing(idx, |ps|) && forall i: nat :: i in idx <==> i < |ps| && ps[i].name != "" && ps[i].host != ""
    ensures Print(ps) == Join(parts, ',') && |parts| == |idx|
    ensures forall k :: 0 <= k < |idx| ==>
              var p := ps[idx[k]];
              parts[k] == p.name + (if p.typ == "" then "" else ":" + p.typ) + ":" + p.host
  {
    idx := PrintedUpTo(ps, |ps|);
    assert ps[..|ps|] == ps;
    parts := PrintParts(ps);
    assert forall i: nat :: i in idx <==> i < |ps| && Whole(ps)(i);
    forall k | 0 <= k < |idx|
      ensures var p := ps[idx[k]];
              parts[k] == p.name + (if p.typ == "" then "" else ":" + p.typ) + ":" + p.host
    {
      PrintedAs(ps[idx[k]]);
    }
  }

  lemma PrintedCommaFree(ps: seq<Probe>)
    requires Printable(ps)
    ensures |PrintParts(ps)| == |ps|
    ensures forall k :: 0 <= k < |ps| ==> PrintParts(ps)[k] == PrintPart(ps[k]) && ',' !in PrintParts(ps)[k]
  {
    PrintedParts(ps);
    forall k | 0 <= k < |ps| ensures ',' !in PrintPart(ps[k]) {
      assert ps[k] in ps;
    }
  }

  /** No piece is lost exactly when every piece parses. */
  lemma ItemsWhole(parts: seq<string>)
    ensures |Items(parts)| == |parts| <==> forall k :: 0 <= k < |parts| ==> ParsePart(parts[k]).Some?
    ensures |Items(parts)| == |parts| ==> forall k :: 0 <= k < |parts| ==> ParsePart(parts[k]) == Some(Items(parts)[k])
  {
    SomesWhole(Parsed(parts));
  }

  lemma ItemsOfJoin(parts: seq<string>)
    requires forall k :: 0 <= k < |parts| ==> ',' !in parts[k]
    ensures Items(Split(Join(parts, ','), ',')) == Items(parts)
  {
    if parts == [] {
      assert Split("", ',') == [""];
      ItemsOne("");
    } else {
      SplitJoin(parts, ',');
    }
  }

  lemma ParseIsDedupe(s: string)
    ensures Parse(s) == Dedupe(Items(Split(s, ',')))
  {
    assert Split("", ',') == [""];
    ItemsOne("");
  }

  lemma {:induction false} DedupeDistinct(ps: seq<Probe>)
    ensures |Dedupe(ps)| == |ps| ==> Dedupe(ps) == ps
    ensures (forall i, j :: 0 <= i < j < |ps| ==> Key(ps[i]) != Key(ps[j])) ==> Dedupe(ps) == ps
  {
    if ps == [] {
    } else {
      DedupeDistinct(ps[..|ps| - 1]);
      assert ps == ps[..|ps| - 1] + [ps[|ps| - 1]];
    }
  }

  lemma KeyInjective(p: Probe, q: Probe)
    requires '|' !in p.name && '|' !in q.name
    ensures Key(p) == Key(q) <==> p.name == q.name && p.host == q.host
  {
    if Key(p) == Key(q) {
      BarKeyLeft(p.name, p.host, q.name, q.host);
    }
  }

  lemma DistinctKeys(ps: seq<Probe>)
    requires Printable(ps)
    requires forall i, j :: 0 <= i < j < |ps| ==> ps[i].name != ps[j].name || ps[i].host != ps[j].host
    ensures Dedupe(ps) == ps
  {
    forall i, j | 0 <= i < j < |ps| ensures Key(ps[i]) != Key(ps[j]) {
      assert ps[i] in ps && ps[j] in ps;
      KeyInjective(ps[i], ps[j]);
    }
    DedupeDistinct(ps);
  }

  lemma PrintedItems(ps: seq<Probe>)
    requires Printable(ps)
    ensures Items(PrintParts(ps)) == ps <==> forall p :: p in ps ==> Faithful(p)
  {
    PrintedCommaFree(ps);
    var parts := PrintParts(ps);
    ItemsWhole(parts);
    forall k | 0 <= k < |ps| ensures ParsePart(parts[k]) == Some(ps[k]) <==> Faithful(ps[k]) {
      assert ps[k] in ps;
      PartRoundTrip(ps[k]);
    }
    assert (forall p :: p in ps ==> Faithful(p)) <==> forall k :: 0 <= k < |ps| ==> Faithful(ps[k]);
  }

  /** The wire round trip, exactly: a list of clean probes with distinct (name, target) pairs is read
      back unchanged and in order if and only if every probe in it is faithful. */
  lemma WireRoundTrip(ps: seq<Probe>)
    requires Printable(ps)
    requires forall i, j :: 0 <= i < j < |ps| ==> ps[i].name != ps[j].name || ps[i].host != ps[j].host
    ensures Parse(Print(ps)) == ps <==> forall p :: p in ps ==> Faithful(p)
  {
    PrintedCommaFree(ps);
    ParseIsDedupe(Print(ps));
    ItemsOfJoin(PrintParts(ps));
    DedupeDistinct(Items(PrintParts(ps)));
    DistinctKeys(ps);
    PrintedItems(ps);
  }

  /** What the agent reports: the served tasks, then its local list, first occurrence kept. */
  lemma ParseJoined(served: seq<Probe>, local: string)
    requires Printable(served)
    ensures Parse(Print(served) + "," + local) == Dedupe(Items(PrintParts(served)) + Items(Split(local, ',')))
  {
    PrintedCommaFree(served);
    ParseIsDedupe(Print(served) + "," + local);
    SplitConcat(Print(served), ',', local);
    ItemsConcat(Split(Print(served), ','), Split(local, ','));
    ItemsOfJoin(PrintParts(served));
  }
}
