/** The persisted alert rules (internal/store/alerts.go), how startup loads, seeds or overrides them, and
    the administrator's hooks that change manager and table together (cmd/server/main.go). */
module AlertRules {
  import opened Text
  import opened MuteWindows
  import opened Alerts

  // ---------- the table ----------

  /** Primary-key order, which is also the order of the load query. */
  predicate KeyLess(a: RuleKey, b: RuleKey) {
    Less(a.kind, b.kind) || (a.kind == b.kind && Less(a.node, b.node))
  }

  ghost predicate Sorted(rows: seq<Rule>) {
    forall i, j :: 0 <= i < j < |rows| ==> KeyLess(KeyOf(rows[i]), KeyOf(rows[j]))
  }

  ghost predicate UniqueKeys(rules: seq<Rule>) {
    forall i, j :: 0 <= i < j < |rules| ==> KeyOf(rules[i]) != KeyOf(rules[j])
  }

  /** Insert or replace by primary key. */
  function Saved(rows: seq<Rule>, r: Rule): seq<Rule> {
    if rows == [] then [r]
    else if KeyOf(rows[0]) == KeyOf(r) then [r] + rows[1..]
    else if KeyLess(KeyOf(r), KeyOf(rows[0])) then [r] + rows
    else [rows[0]] + Saved(rows[1..], r)
  }

  // ---------- list and table agree ----------

  /** The map a rule list denotes. */
  function RuleFor(rules: seq<Rule>, key: RuleKey): Option<Rule> {
    var i := Position(rules, key);
    if i < |rules| then Some(rules[i]) else None
  }

  /** The manager's list has unique keys, the table is in primary-key order, and both denote the same map. */
  ghost predicate Agree(list: seq<Rule>, rows: seq<Rule>) {
    && UniqueKeys(list)
    && Sorted(rows)
    && forall key :: RuleFor(list, key) == RuleFor(rows, key)
  }

  lemma KeyLessOrder(a: RuleKey, b: RuleKey, c: RuleKey)
    ensures !KeyLess(a, a)
    ensures KeyLess(a, b) || a == b || KeyLess(b, a)
    ensures KeyLess(a, b) && KeyLess(b, c) ==> KeyLess(a, c)
    ensures !(KeyLess(a, b) && KeyLess(b, a))
  {
    LessTotal(a.kind, a.kind);
    LessTotal(a.node, a.node);
    LessTotal(a.kind, b.kind);
    LessTotal(a.node, b.node);
    if KeyLess(a, b) && KeyLess(b, c) {
      if Less(a.kind, b.kind) && Less(b.kind, c.kind) {
        LessTransitive(a.kind, b.kind, c.kind);
      } else if a.kind == b.kind && b.kind == c.kind {
        LessTransitive(a.node, b.node, c.node);
      }
    }
  }

  lemma SortedIsUnique(rows: seq<Rule>)
    requires Sorted(rows)
    ensures UniqueKeys(rows)
  {
    forall i, j | 0 <= i < j < |rows| ensures KeyOf(rows[i]) != KeyOf(rows[j]) {
      KeyLessOrder(KeyOf(rows[i]), KeyOf(rows[j]), KeyOf(rows[j]));
    }
  }

  lemma RuleForHead(rules: seq<Rule>, key: RuleKey)
    requires rules != []
    ensures RuleFor(rules, key) == if KeyOf(rules[0]) == key then Some(rules[0]) else RuleFor(rules[1..], key)
  {
  }

  lemma {:induction false} SavedRuleFor(rows: seq<Rule>, r: Rule, key: RuleKey)
    requires Sorted(rows)
    ensures RuleFor(Saved(rows, r), key) == if KeyOf(r) == key then Some(r) else RuleFor(rows, key)
    decreases rows
  {
    var rows' := Saved(rows, r);
    RuleForHead(rows', key);
    if rows == [] {
    } else if KeyOf(rows[0]) == KeyOf(r) {
      assert rows'[1..] == rows[1..];
      RuleForHead(rows, key);
    } else if KeyLess(KeyOf(r), KeyOf(rows[0])) {
      assert rows'[1..] == rows;
    } else {
      assert rows'[1..] == Saved(rows[1..], r);
      SavedRuleFor(rows[1..], r, key);
      RuleForHead(rows, key);
    }
  }

  lemma {:induction false} SavedMembers(rows: seq<Rule>, r: Rule)
    ensures forall q :: q in Saved(rows, r) ==> q == r || q in rows
    decreases rows
  {
    if rows == [] {
    } else {
      SavedMembers(rows[1..], r);
    }
  }

  lemma PrependSorted(r: Rule, rows: seq<Rule>)
    requires Sorted(rows)
    requires forall q :: q in rows ==> KeyLess(KeyOf(r), KeyOf(q))
    ensures Sorted([r] + rows)
  {
  }

  lemma {:induction false} SavedSorted(rows: seq<Rule>, r: Rule)
    requires Sorted(rows)
    ensures Sorted(Saved(rows, r))
    decreases rows
  {
    if rows == [] {
    } else {
      var head, tail := rows[0], rows[1..];
      assert rows == [head] + tail;
      assert forall q :: q in tail ==> KeyLess(KeyOf(head), KeyOf(q));
      if KeyOf(head) == KeyOf(r) {
        PrependSorted(r, tail);
      } else if KeyLess(KeyOf(r), KeyOf(head)) {
        forall q | q in rows ensures KeyLess(KeyOf(r), KeyOf(q)) {
          KeyLessOrder(KeyOf(r), KeyOf(head), KeyOf(q));
        }
        PrependSorted(r, rows);
      } else {
        SavedSorted(tail, r);
        SavedMembers(tail, r);
        KeyLessOrder(KeyOf(head), KeyOf(r), KeyOf(r));
        PrependSorted(head, Saved(tail, r));
      }
    }
  }

  lemma PositionIs(rules: seq<Rule>, key: RuleKey, i: nat)
    requires i < |rules| && KeyOf(rules[i]) == key && forall k :: 0 <= k < i ==> KeyOf(rules[k]) != key
    ensures Position(rules, key) == i
  {
  }

  lemma WithRuleFor(rules: seq<Rule>, r: Rule, key: RuleKey)
    requires UniqueKeys(rules)
    ensures UniqueKeys(WithRule(rules, r))
    ensures RuleFor(WithRule(rules, r), key) == if KeyOf(r) == key then Some(r) else RuleFor(rules, key)
  {
    var i, rules' := Position(rules, KeyOf(r)), WithRule(rules, r);
    assert forall k :: 0 <= k < |rules| ==> KeyOf(rules'[k]) == KeyOf(rules[k]);
    if KeyOf(r) == key {
      PositionIs(rules', key, i);
    } else {
      var j := Position(rules, key);
      if j < |rules| {
        PositionIs(rules', key, j);
      }
    }
  }

  lemma RuleForMember(rules: seq<Rule>, key: RuleKey)
    ensures RuleFor(rules, key).None? <==> forall r :: r in rules ==> KeyOf(r) != key
    ensures RuleFor(rules, key).Some? ==> RuleFor(rules, key).value in rules && KeyOf(RuleFor(rules, key).value) == key
  {
  }

  lemma RuleForUnique(rules: seq<Rule>, r: Rule)
    requires UniqueKeys(rules) && r in rules
    ensures RuleFor(rules, KeyOf(r)) == Some(r)
  {
    var k :| 0 <= k < |rules| && rules[k] == r;
    PositionIs(rules, KeyOf(r), k);
  }

  lemma {:induction false} WithoutRuleUnique(rules: seq<Rule>, gone: RuleKey)
    requires UniqueKeys(rules)
    ensures UniqueKeys(WithoutRule(rules, gone))
  {
    if rules == [] {
    } else {
      var init, r := rules[..|rules| - 1], rules[|rules| - 1];
      WithoutRuleUnique(init, gone);
      FilterMembers(init, OtherThan(gone));
      var rest := WithoutRule(init, gone);
      forall i | 0 <= i < |rest| ensures KeyOf(rest[i]) != KeyOf(r) {
        assert rest[i] in rest;
      }
    }
  }

  lemma {:induction false} WithoutRuleSorted(rows: seq<Rule>, gone: RuleKey)
    requires Sorted(rows)
    ensures Sorted(WithoutRule(rows, gone))
  {
    if rows == [] {
    } else {
      var init, r := rows[..|rows| - 1], rows[|rows| - 1];
      WithoutRuleSorted(init, gone);
      FilterMembers(init, OtherThan(gone));
      var rest := WithoutRule(init, gone);
      forall i | 0 <= i < |rest| ensures KeyLess(KeyOf(rest[i]), KeyOf(r)) {
        assert rest[i] in rest;
      }
    }
  }

  lemma WithoutRuleFor(rules: seq<Rule>, gone: RuleKey, key: RuleKey)
    requires UniqueKeys(rules)
    ensures RuleFor(WithoutRule(rules, gone), key) == if gone == key then None else RuleFor(rules, key)
  {
    var rest := WithoutRule(rules, gone);
    FilterMembers(rules, OtherThan(gone));
    RuleForMember(rules, key);
    RuleForMember(rest, key);
    if RuleFor(rest, key).Some? {
      RuleForUnique(rules, RuleFor(rest, key).value);
    }
  }

  lemma SetKeepsAgreement(list: seq<Rule>, rows: seq<Rule>, r: Rule)
    requires Agree(list, rows)
    ensures Agree(WithRule(list, r), Saved(rows, r))
  {
    SavedSorted(rows, r);
    WithRuleFor(list, r, KeyOf(r));
    forall key ensures RuleFor(WithRule(list, r), key) == RuleFor(Saved(rows, r), key) {
      WithRuleFor(list, r, key);
      SavedRuleFor(rows, r, key);
    }
  }

  lemma DeleteKeepsAgreement(list: seq<Rule>, rows: seq<Rule>, gone: RuleKey)
    requires Agree(list, rows)
    ensures Agree(WithoutRule(list, gone), WithoutRule(rows, gone))
  {
    WithoutRuleUnique(list, gone);
    WithoutRuleSorted(rows, gone);
    SortedIsUnique(rows);
    forall key ensures RuleFor(WithoutRule(list, gone), key) == RuleFor(WithoutRule(rows, gone), key) {
      WithoutRuleFor(list, gone, key);
      WithoutRuleFor(rows, gone, key);
    }
  }

  // ---------- the statements ----------

  class RuleTable {
    /** The rows in primary-key order. */
    var rows: seq<Rule>

    ghost predicate Valid()
      reads this
    {
      Sorted(rows)
    }

    constructor ()
      ensures Valid() && rows == []
    {
      rows := [];
    }

    /** ORDER BY kind, node is the order of the primary key. */
    method LoadAlertRules() returns (out: seq<Rule>)
      requires Valid()
      ensures out == rows && UniqueKeys(out)
      ensures forall i, j :: 0 <= i < j < |out| ==>
                Less(out[i].kind, out[j].kind) || (out[i].kind == out[j].kind && Less(out[i].node, out[j].node))
    {
      out := [];
      for i := 0 to |rows|
        invariant out == rows[..i]
      {
        out := out + [rows[i]];
      }
      SortedIsUnique(rows);
    }

    method SaveAlertRule(r: Rule)
      requires Valid()
      modifies this
      ensures Valid() && rows == Saved(old(rows), r)
    {
      ghost var before := rows;
      SavedSorted(rows, r);
      var i := 0;
      while i < |rows| && KeyOf(rows[i]) != KeyOf(r) && !KeyLess(KeyOf(r), KeyOf(rows[i]))
        invariant i <= |rows| && rows == before
        invariant Saved(before, r) == before[..i] + Saved(before[i..], r)
      {
        SavedStep(rows, i, r);
        i := i + 1;
      }
      SavedHere(rows, i, r);
      if i < |rows| && KeyOf(rows[i]) == KeyOf(r) {
        rows := rows[..i] + [r] + rows[i + 1..];
      } else {
        rows := rows[..i] + [r] + rows[i..];
      }
    }

    method DeleteAlertRule(kind: string, node: string)
      requires Valid()
      modifies this
      ensures Valid() && rows == WithoutRule(old(rows), RuleKey(kind, node))
    {
      WithoutRuleSorted(rows, RuleKey(kind, node));
      var kept := [];
      for i := 0 to |rows|
        invariant rows == old(rows)
        invariant kept == WithoutRule(rows[..i], RuleKey(kind, node))
      {
        WithoutRuleSnoc(rows, i, RuleKey(kind, node));
        if !(rows[i].kind == kind && rows[i].node == node) {
          kept := kept + [rows[i]];
        }
      }
      assert rows[..|rows|] == rows;
      rows := kept;
    }
  }

  lemma SavedStep(rows: seq<Rule>, i: nat, r: Rule)
    requires i < |rows| && KeyOf(rows[i]) != KeyOf(r) && !KeyLess(KeyOf(r), KeyOf(rows[i]))
    ensures rows[..i] + Saved(rows[i..], r) == rows[..i + 1] + Saved(rows[i + 1..], r)
  {
    assert rows[i..][1..] == rows[i + 1..];
  }

  /** Where the loop stops, the rule replaces the row it found or goes in front of it. */
  lemma SavedHere(rows: seq<Rule>, i: nat, r: Rule)
    requires i < |rows| ==> KeyOf(rows[i]) == KeyOf(r) || KeyLess(KeyOf(r), KeyOf(rows[i]))
    requires i <= |rows|
    ensures rows[..i] + Saved(rows[i..], r) ==
            if i < |rows| && KeyOf(rows[i]) == KeyOf(r) then rows[..i] + [r] + rows[i + 1..]
                else rows[..i] + [r] + rows[i..]
  {
    var rest := rows[i..];
    if i < |rows| && KeyOf(rows[i]) == KeyOf(r) {
      assert rest[0] == rows[i] && Saved(rest, r) == [r] + rest[1..];
    } else {
      assert Saved(rest, r) == [r] + rest;
    }
  }

  // ---------- startup ----------

  function Bare(kind: string, threshold: real): Rule {
    Rule(kind, "*", threshold, "", [])
  }

  /** The rules an empty table is seeded with. */
  function Seeds(offline: bool, latencyMs: real): seq<Rule> {
    (if offline then [Bare("offline", 1.0)] else [])
    + (if latencyMs > 0.0 then [Bare("latency", latencyMs)] else [])
    + [Bare("loss", 100.0)]
  }

  /** The list startup hands to the manager: the loaded one, seeded when empty, with the global latency
      rule overridden when the flag is given. */
  function StartList(loaded: seq<Rule>, offline: bool, latencyMs: real): seq<Rule> {
    if loaded == [] then Seeds(offline, latencyMs)
    else if latencyMs > 0.0 then WithRule(loaded, Bare("latency", latencyMs))
    else loaded
  }

  function SaveAll(rows: seq<Rule>, rules: seq<Rule>): seq<Rule> {
    if rules == [] then rows else Saved(SaveAll(rows, rules[..|rules| - 1]), rules[|rules| - 1])
  }

  lemma SaveAllSnoc(rules: seq<Rule>, i: nat)
    requires i < |rules|
    ensures SaveAll([], rules[..i + 1]) == Saved(SaveAll([], rules[..i]), rules[i])
  {
    assert rules[..i + 1][..i] == rules[..i];
  }

  /** Seeding an empty table. */
  method SeedTable(table: RuleTable, offline: bool, latencyMs: real) returns (rules: seq<Rule>)
    requires table.rows == []
    modifies table
    ensures rules == Seeds(offline, latencyMs) && Agree(rules, table.rows)
  {
    rules := [];
    if offline { rules := rules + [Rule("offline", "*", 1.0, "", [])]; }
    if latencyMs > 0.0 { rules := rules + [Rule("latency", "*", latencyMs, "", [])]; }
    rules := rules + [Rule("loss", "*", 100.0, "", [])];
    SeedsUnique(offline, latencyMs);
    assert rules == Seeds(offline, latencyMs);
    for i := 0 to |rules|
      invariant table.Valid() && table.rows == SaveAll([], rules[..i])
    {
      SaveAllSnoc(rules, i);
      table.SaveAlertRule(rules[i]);
    }
    assert rules[..|rules|] == rules;
    SaveAllAgrees(rules);
  }

  /** The loop that overwrites the global latency rule in the loaded list, or appends it. */
  method OverrideRule(loaded: seq<Rule>, r: Rule) returns (rules: seq<Rule>)
    requires UniqueKeys(loaded)
    ensures rules == WithRule(loaded, r)
  {
    rules := loaded;
    var replaced := false;
    ghost var p := Position(loaded, KeyOf(r));
    for i := 0 to |rules|
      invariant |rules| == |loaded|
      invariant replaced == (p < i)
      invariant rules == if p < i then loaded[p := r] else loaded
    {
      if rules[i].kind == r.kind && rules[i].node == r.node {
        assert KeyOf(loaded[i]) == KeyOf(r);
        assert i == p;
        rules := rules[i := r];
        replaced := true;
      }
    }
    if !replaced {
      rules := rules + [r];
    }
  }

  /** Startup of the server, up to NewManager. */
  method Startup(table: RuleTable, offline: bool, latencyMs: real) returns (rules: seq<Rule>)
    requires table.Valid()
    modifies table
    ensures table.Valid() && rules == StartList(old(table.rows), offline, latencyMs)
    ensures Agree(rules, table.rows)
  {
    rules := table.LoadAlertRules();
    if |rules| == 0 {
      rules := SeedTable(table, offline, latencyMs);
    } else if latencyMs > 0.0 {
      var r := Rule("latency", "*", latencyMs, "", []);
      SetKeepsAgreement(rules, table.rows, r);
      table.SaveAlertRule(r);
      rules := OverrideRule(rules, r);
    }
  }

  lemma SeedsUnique(offline: bool, latencyMs: real)
    ensures UniqueKeys(Seeds(offline, latencyMs))
  {
    assert "offline"[0] == 'o' && "latency"[1] == 'a' && "loss"[1] == 'o' && "latency"[0] == "loss"[0] == 'l';
  }

  lemma SeedWords()
    ensures "offline" != "latency" && "offline" != "loss" && "latency" != "loss"
  {
    assert "offline"[0] == 'o' && "latency"[1] == 'a' && "loss"[1] == 'o' && "latency"[0] == "loss"[0] == 'l';
  }

  /** What the running server starts with, key by key: an empty table is seeded with bare global rules for what
      the flags ask for and for loss; otherwise the latency flag sets the global latency rule, and every other
      rule is the stored one. */
  lemma StartRule(rows: seq<Rule>, offline: bool, latencyMs: real, key: RuleKey)
    requires Sorted(rows)
    ensures RuleFor(StartList(rows, offline, latencyMs), key) ==
            if latencyMs > 0.0 && key == RuleKey("latency", "*") then Some(Rule("latency", "*", latencyMs, "", []))
            else if rows != [] then RuleFor(rows, key)
            else if offline && key == RuleKey("offline", "*") then Some(Rule("offline", "*", 1.0, "", []))
            else if key == RuleKey("loss", "*") then Some(Rule("loss", "*", 100.0, "", []))
            else None
  {
    if rows == [] {
      SeedRule(offline, latencyMs, key);
    } else {
      SortedIsUnique(rows);
      WithRuleFor(rows, Bare("latency", latencyMs), key);
    }
  }

  lemma SeedRule(offline: bool, latencyMs: real, key: RuleKey)
    ensures RuleFor(Seeds(offline, latencyMs), key) ==
            if latencyMs > 0.0 && key == RuleKey("latency", "*") then Some(Rule("latency", "*", latencyMs, "", []))
            else if offline && key == RuleKey("offline", "*") then Some(Rule("offline", "*", 1.0, "", []))
            else if key == RuleKey("loss", "*") then Some(Rule("loss", "*", 100.0, "", []))
            else None
  {
    var rules := Seeds(offline, latencyMs);
    SeedWords();
    SeedsUnique(offline, latencyMs);
    RuleForMember(rules, key);
    var a, b, c := Bare("offline", 1.0), Bare("latency", latencyMs), Bare("loss", 100.0);
    assert forall r :: r in rules <==> (offline && r == a) || (latencyMs > 0.0 && r == b) || r == c;
    RuleForUnique(rules, c);
    if offline {
      RuleForUnique(rules, a);
    }
    if latencyMs > 0.0 {
      RuleForUnique(rules, b);
    }
  }

  lemma {:induction false} SaveAllAgrees(rules: seq<Rule>)
    requires UniqueKeys(rules)
    ensures Agree(rules, SaveAll([], rules))
  {
    if rules == [] {
    } else {
      var init, r := rules[..|rules| - 1], rules[|rules| - 1];
      assert rules == init + [r];
      SaveAllAgrees(init);
      SetKeepsAgreement(init, SaveAll([], init), r);
      assert Position(init, KeyOf(r)) == |init|;
    }
  }

  // ---------- the administrator's hooks ----------

  datatype Edit = Put(rule: Rule) | Remove(key: RuleKey)

  method Hook(mgr: Manager, table: RuleTable, e: Edit)
    requires mgr.Valid() && Agree(mgr.Current().rules, table.rows)
    modifies mgr, mgr.backing, table
    ensures mgr.Valid() && (mgr.backing == old(mgr.backing) || fresh(mgr.backing))
    ensures Agree(mgr.Current().rules, table.rows)
    ensures mgr.Current().rules == EditList(old(mgr.Current().rules), e) && table.rows == EditRows(old(table.rows), e)
  {
    match e {
      case Put(r) =>
        SetKeepsAgreement(mgr.Current().rules, table.rows, r);
        mgr.SetRule(r);
        table.SaveAlertRule(r);
      case Remove(k) =>
        DeleteKeepsAgreement(mgr.Current().rules, table.rows, k);
        mgr.DeleteRule(k.kind, k.node);
        table.DeleteAlertRule(k.kind, k.node);
    }
  }

  function EditList(list: seq<Rule>, e: Edit): seq<Rule> {
    match e case Put(r) => WithRule(list, r) case Remove(k) => WithoutRule(list, k)
  }

  function EditRows(rows: seq<Rule>, e: Edit): seq<Rule> {
    match e case Put(r) => Saved(rows, r) case Remove(k) => WithoutRule(rows, k)
  }

  function ListAfter(list: seq<Rule>, edits: seq<Edit>): seq<Rule> {
    if edits == [] then list else EditList(ListAfter(list, edits[..|edits| - 1]), edits[|edits| - 1])
  }

  function RowsAfter(rows: seq<Rule>, edits: seq<Edit>): seq<Rule> {
    if edits == [] then rows else EditRows(RowsAfter(rows, edits[..|edits| - 1]), edits[|edits| - 1])
  }

  /** After startup and any serial sequence of hooks, list and table agree. */
  lemma {:induction false} HooksKeepAgreement(list: seq<Rule>, rows: seq<Rule>, edits: seq<Edit>)
    requires Agree(list, rows)
    ensures Agree(ListAfter(list, edits), RowsAfter(rows, edits))
  {
    if edits == [] {
    } else {
      var init, e := edits[..|edits| - 1], edits[|edits| - 1];
      HooksKeepAgreement(list, rows, init);
      match e
      case Put(r) => SetKeepsAgreement(ListAfter(list, init), RowsAfter(rows, init), r);
      case Remove(k) => DeleteKeepsAgreement(ListAfter(list, init), RowsAfter(rows, init), k);
    }
  }

  // ---------- restarting ----------

  /** The rule of a key, if it is there and matches. */
  function Applicable(rules: seq<Rule>, key: RuleKey, ev: Event): Option<Rule> {
    match RuleFor(rules, key)
    case Some(r) => if Matches(r, ev) then Some(r) else None
    case None => None
  }

  /** What an event meets of its two candidates, given which of them stands first. */
  function Met(own: Option<Rule>, glob: Option<Rule>, ownFirst: bool): Option<Rule> {
    if own.None? || (glob.Some? && !ownFirst) then glob else own
  }

  /** With unique keys at most two rules can match an event, the one for its node and the global one, and
      the earlier of them is met first. */
  lemma FirstOfTwo(rules: seq<Rule>, ev: Event)
    requires UniqueKeys(rules)
    ensures var own, glob := RuleKey(ev.kind, ev.node), RuleKey(ev.kind, "*");
            FirstMatch(rules, ev) ==
            Met(Applicable(rules, own, ev), Applicable(rules, glob, ev), Position(rules, own) < Position(rules, glob))
  {
    var i := FirstMatchAt(rules, ev);
    var p, q := Position(rules, RuleKey(ev.kind, ev.node)), Position(rules, RuleKey(ev.kind, "*"));
    if i < |rules| {
      PositionIs(rules, KeyOf(rules[i]), i);
    }
    assert p < i ==> !Matches(rules[p], ev);
    assert q < i ==> !Matches(rules[q], ev);
  }

  /** Does an event match a rule that an empty table is seeded with? */
  predicate Reseeded(offline: bool, latencyMs: real, ev: Event) {
    || (offline && ev.kind == "offline" && ev.value >= 1.0)
    || (latencyMs > 0.0 && ev.kind == "latency" && ev.value >= latencyMs)
    || (ev.kind == "loss" && ev.value >= 100.0)
  }

  /** The global rule an event can meet after a restart from a table with rows: the flag replaces it, for
      latency events, by a bare rule of the flag's threshold. */
  function GlobalAfter(rows: seq<Rule>, latencyMs: real, ev: Event): Option<Rule> {
    if latencyMs > 0.0 && ev.kind == "latency"
    then if ev.value >= latencyMs then Some(Bare("latency", latencyMs)) else None
    else Applicable(rows, RuleKey(ev.kind, "*"), ev)
  }

  /** Does the node's rule stand before the global one after a restart? In primary-key order it does if the
      node's name is below `*`; a global rule that the flag adds comes last. */
  predicate OwnFirstAfter(rows: seq<Rule>, ev: Event) {
    Less(ev.node, "*") || RuleFor(rows, RuleKey(ev.kind, "*")).None?
  }

  /** The condition under which a restart leaves the decision on an event alone. */
  predicate SameAfterRestart(list: seq<Rule>, rows: seq<Rule>, offline: bool, latencyMs: real, ev: Event) {
    if rows == [] then !Reseeded(offline, latencyMs, ev)
    else
      var own, glob := RuleKey(ev.kind, ev.node), RuleKey(ev.kind, "*");
      var before, after := Applicable(rows, glob, ev), GlobalAfter(rows, latencyMs, ev);
      if ev.node == "*" || Applicable(rows, own, ev).None? then before == after
      else
        var ownBefore := before.None? || Position(list, own) < Position(list, glob);
        var ownAfter := after.None? || OwnFirstAfter(rows, ev);
        ownBefore == ownAfter && (ownBefore || before == after)
  }

  lemma StartListUnique(rows: seq<Rule>, offline: bool, latencyMs: real)
    requires Sorted(rows)
    ensures UniqueKeys(StartList(rows, offline, latencyMs))
  {
    SortedIsUnique(rows);
    SeedsUnique(offline, latencyMs);
    if latencyMs > 0.0 {
      WithRuleFor(rows, Bare("latency", latencyMs), RuleKey("latency", "*"));
    }
  }

  /** Both candidates of an event after a restart from a table with rows. */
  lemma CandidatesAfter(rows: seq<Rule>, offline: bool, latencyMs: real, ev: Event)
    requires Sorted(rows) && rows != []
    ensures var after := StartList(rows, offline, latencyMs);
            && Applicable(after, RuleKey(ev.kind, "*"), ev) == GlobalAfter(rows, latencyMs, ev)
            && (ev.node != "*" ==>
                  Applicable(after, RuleKey(ev.kind, ev.node), ev) == Applicable(rows, RuleKey(ev.kind, ev.node), ev))
  {
    SortedIsUnique(rows);
    if latencyMs > 0.0 {
      WithRuleFor(rows, Bare("latency", latencyMs), RuleKey(ev.kind, "*"));
      WithRuleFor(rows, Bare("latency", latencyMs), RuleKey(ev.kind, ev.node));
    }
  }

  lemma SortedPositions(rows: seq<Rule>, ev: Event)
    requires Sorted(rows) && ev.node != "*"
    requires RuleFor(rows, RuleKey(ev.kind, ev.node)).Some? && RuleFor(rows, RuleKey(ev.kind, "*")).Some?
    ensures Position(rows, RuleKey(ev.kind, ev.node)) < Position(rows, RuleKey(ev.kind, "*")) <==> Less(ev.node, "*")
  {
    var i, j := Position(rows, RuleKey(ev.kind, ev.node)), Position(rows, RuleKey(ev.kind, "*"));
    LessTotal(ev.kind, ev.kind);
    if i < j {
      assert KeyLess(KeyOf(rows[i]), KeyOf(rows[j]));
    } else {
      assert KeyLess(KeyOf(rows[j]), KeyOf(rows[i]));
      LessTotal("*", ev.node);
    }
  }

  /** Replacing in place keeps every position, and an appended rule comes last. */
  lemma WithRulePosition(rules: seq<Rule>, r: Rule, key: RuleKey)
    ensures var i := Position(rules, key);
            Position(WithRule(rules, r), key) == if i < |rules| || key == KeyOf(r) then i else |WithRule(rules, r)|
  {
    var i, rules' := Position(rules, key), WithRule(rules, r);
    assert forall k :: 0 <= k < |rules| ==> KeyOf(rules'[k]) == KeyOf(rules[k]);
    if i < |rules'| && KeyOf(rules'[i]) == key {
      PositionIs(rules', key, i);
    }
  }

  lemma PositionsAfter(rows: seq<Rule>, offline: bool, latencyMs: real, ev: Event)
    requires Sorted(rows) && rows != [] && ev.node != "*"
    requires RuleFor(rows, RuleKey(ev.kind, ev.node)).Some? && GlobalAfter(rows, latencyMs, ev).Some?
    ensures var after := StartList(rows, offline, latencyMs);
            Position(after, RuleKey(ev.kind, ev.node)) < Position(after, RuleKey(ev.kind, "*"))
            <==> OwnFirstAfter(rows, ev)
  {
    if RuleFor(rows, RuleKey(ev.kind, "*")).Some? {
      SortedPositions(rows, ev);
    }
    if latencyMs > 0.0 {
      WithRulePosition(rows, Bare("latency", latencyMs), RuleKey(ev.kind, ev.node));
      WithRulePosition(rows, Bare("latency", latencyMs), RuleKey(ev.kind, "*"));
    }
  }

  lemma FirstAfterRestart(rows: seq<Rule>, offline: bool, latencyMs: real, ev: Event)
    requires Sorted(rows) && rows != []
    ensures var own := if ev.node == "*" then None else Applicable(rows, RuleKey(ev.kind, ev.node), ev);
            FirstMatch(StartList(rows, offline, latencyMs), ev)
            == Met(own, GlobalAfter(rows, latencyMs, ev), OwnFirstAfter(rows, ev))
  {
    StartListUnique(rows, offline, latencyMs);
    FirstOfTwo(StartList(rows, offline, latencyMs), ev);
    CandidatesAfter(rows, offline, latencyMs, ev);
    if ev.node != "*" && Applicable(rows, RuleKey(ev.kind, ev.node), ev).Some?
        && GlobalAfter(rows, latencyMs, ev).Some? {
      PositionsAfter(rows, offline, latencyMs, ev);
    }
  }

  lemma SeedsMatch(offline: bool, latencyMs: real, ev: Event)
    ensures FirstMatch(Seeds(offline, latencyMs), ev).Some? <==> Reseeded(offline, latencyMs, ev)
  {
    var a := if offline then [Bare("offline", 1.0)] else [];
    var b := if latencyMs > 0.0 then [Bare("latency", latencyMs)] else [];
    FirstMatchConcat(a + b, [Bare("loss", 100.0)], ev);
    FirstMatchConcat(a, b, ev);
  }

  /** A restart starts from the table, not from the list of the running manager: the rules come in
      primary-key order, an empty table is seeded again, and the flag overrides the global latency rule. An
      event then meets the same rule first as before if and only if the condition holds. */
  lemma RestartKeepsDecision(list: seq<Rule>, rows: seq<Rule>, offline: bool, latencyMs: real, ev: Event)
    requires Agree(list, rows)
    ensures FirstMatch(list, ev) == FirstMatch(StartList(rows, offline, latencyMs), ev)
            <==> SameAfterRestart(list, rows, offline, latencyMs, ev)
  {
    if rows == [] {
      AgreeEmpty(list);
      SeedsMatch(offline, latencyMs, ev);
    } else {
      FirstBefore(list, rows, ev);
      FirstAfterRestart(rows, offline, latencyMs, ev);
      if ev.node != "*" && Applicable(rows, RuleKey(ev.kind, ev.node), ev).Some? {
        OwnAndGlobalDiffer(rows, latencyMs, ev);
      }
    }
  }

  /** What an event meets in the running manager, told from the table and the list's order. */
  lemma FirstBefore(list: seq<Rule>, rows: seq<Rule>, ev: Event)
    requires Agree(list, rows)
    ensures var own, glob := RuleKey(ev.kind, ev.node), RuleKey(ev.kind, "*");
            FirstMatch(list, ev) ==
            Met(if ev.node == "*" then None else Applicable(rows, own, ev), Applicable(rows, glob, ev),
                Position(list, own) < Position(list, glob))
  {
    FirstOfTwo(list, ev);
    assert RuleFor(list, RuleKey(ev.kind, ev.node)) == RuleFor(rows, RuleKey(ev.kind, ev.node));
    assert RuleFor(list, RuleKey(ev.kind, "*")) == RuleFor(rows, RuleKey(ev.kind, "*"));
  }

  lemma AgreeEmpty(list: seq<Rule>)
    requires Agree(list, [])
    ensures list == []
  {
    var key := if list == [] then RuleKey("", "") else KeyOf(list[0]);
    assert RuleFor(list, key) == RuleFor([], key) == None;
  }

  /** The node's rule is never the global one, before or after. */
  lemma OwnAndGlobalDiffer(rows: seq<Rule>, latencyMs: real, ev: Event)
    requires ev.node != "*" && Applicable(rows, RuleKey(ev.kind, ev.node), ev).Some?
    ensures Applicable(rows, RuleKey(ev.kind, ev.node), ev) != Applicable(rows, RuleKey(ev.kind, "*"), ev)
    ensures Applicable(rows, RuleKey(ev.kind, ev.node), ev) != GlobalAfter(rows, latencyMs, ev)
  {
    RuleForMember(rows, RuleKey(ev.kind, ev.node));
    RuleForMember(rows, RuleKey(ev.kind, "*"));
    assert Applicable(rows, RuleKey(ev.kind, ev.node), ev).value.node == ev.node;
    var before, after := Applicable(rows, RuleKey(ev.kind, "*"), ev), GlobalAfter(rows, latencyMs, ev);
    assert before.Some? ==> before.value.node == "*";
    assert after.Some? ==> after.value.node == "*";
  }

  // ---------- decisions that a restart changes ----------

  /** Deleting every rule does not last: after a restart a lost probe alerts again. */
  lemma RestartSeedsAgain(offline: bool, latencyMs: real, ev: Event)
    requires ev.kind == "loss" && ev.value >= 100.0
    ensures FirstMatch([], ev) == None
    ensures FirstMatch(StartList([], offline, latencyMs), ev).Some?
  {
    SeedsMatch(offline, latencyMs, ev);
  }

  /** A global latency rule of 50 ms, restarted with 200 ms on the command line, no longer meets 100 ms. */
  lemma RestartOverrides(ev: Event)
    requires ev.kind == "latency" && ev.value == 100.0
    ensures var rows := [Bare("latency", 50.0)];
            FirstMatch(rows, ev).Some? && FirstMatch(StartList(rows, false, 200.0), ev).None?
  {
    var rows := [Bare("latency", 50.0)];
    assert Position(rows, RuleKey("latency", "*")) == 0;
    assert StartList(rows, false, 200.0) == [Bare("latency", 200.0)];
  }

  /** Two rules set through the hooks, the node's before the global one: the running manager decides by the
      node's rule, the restarted one by the global rule. */
  lemma RestartReorders(own: Rule, glob: Rule, ev: Event)
    requires own.kind == glob.kind == ev.kind && own.node == ev.node == "n" && glob.node == "*"
    requires ev.value >= own.threshold && ev.value >= glob.threshold
    ensures var edits := [Put(own), Put(glob)];
            && FirstMatch(ListAfter([], edits), ev) == Some(own)
            && FirstMatch(StartList(RowsAfter([], edits), false, 0.0), ev) == Some(glob)
  {
    var edits := [Put(own), Put(glob)];
    LessTotal(ev.kind, ev.kind);
    assert own.node[0] == 'n' && glob.node[0] == '*' && KeyLess(KeyOf(glob), KeyOf(own));
    var one := [Put(own)];
    assert edits[..1] == one && one[..0] == [];
    assert ListAfter([], one) == EditList(ListAfter([], one[..0]), one[0]) == [own];
    assert RowsAfter([], one) == EditRows(RowsAfter([], one[..0]), one[0]) == [own];
    assert ListAfter([], edits) == [own, glob];
    assert RowsAfter([], edits) == [glob, own];
  }
}
