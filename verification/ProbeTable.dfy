/** The `probe_tasks` table and the four statements that change it (internal/store/adapters.go,
    internal/store/store.go): the agent's upsert, the administrator's upsert and delete, and the seeding of
    demonstration tasks. */
module ProbeTable {
  import opened Text

  datatype Key = Key(client: string, name: string)

  datatype Row = Row(id: nat, client: string, target: string, typ: string, name: string, interval: real, enabled: bool)

  /** `mark` is the AUTOINCREMENT high-water mark: every upsert draws the next number from it, also one
      that ends up updating an existing row. */
  datatype Table = Table(rows: seq<Row>, mark: nat)

  const EMPTY: Table := Table([], 0)

  const DEFAULT_INTERVAL: real := 60.0

  /** The unique index. */
  function KeyOf(r: Row): Key {
    Key(r.client, r.name)
  }

  /** The position of the row with this key, or the number of rows. */
  function Find(rows: seq<Row>, key: Key): (i: nat)
    ensures i <= |rows|
    ensures i < |rows| ==> KeyOf(rows[i]) == key
    ensures forall k :: 0 <= k < i ==> KeyOf(rows[k]) != key
  {
    if rows == [] || KeyOf(rows[0]) == key then 0 else 1 + Find(rows[1..], key)
  }

  function Lookup(rows: seq<Row>, key: Key): Option<Row> {
    var i := Find(rows, key);
    if i < |rows| then Some(rows[i]) else None
  }

  // ---------- the statements ----------

  /** The row an upsert leaves behind on conflict: the old identity with the new contents, except that
      the agent's upsert keeps the old interval. */
  function Merge(kept: Row, made: Row, keepInterval: bool): Row {
    made.(id := kept.id, interval := if keepInterval then kept.interval else made.interval)
  }

  function Upsert(t: Table, made: Row, keepInterval: bool): Table {
    var i := Find(t.rows, KeyOf(made));
    if i < |t.rows| then Table(t.rows[i := Merge(t.rows[i], made, keepInterval)], t.mark + 1)
    else Table(t.rows + [made.(id := t.mark + 1)], t.mark + 1)
  }

  function AgentUpsert(t: Table, client: string, target: string, name: string, typ: string, interval: real,
                       enabled: bool): Table
  {
    Upsert(t, Row(0, client, target, typ, name, interval, enabled), true)
  }

  function NormalInterval(interval: real): real {
    if interval <= 0.0 then DEFAULT_INTERVAL else interval
  }

  function NormalType(typ: string): string {
    if typ == "" then "icmp" else typ
  }

  function AdminUpsert(t: Table, client: string, target: string, name: string, typ: string, interval: real,
                       enabled: bool): Table
  {
    Upsert(t, Row(0, client, target, NormalType(typ), name, NormalInterval(interval), enabled), false)
  }

  function OtherThan(key: Key): Row -> bool {
    (r: Row) => KeyOf(r) != key
  }

  function Without(rows: seq<Row>, key: Key): seq<Row> {
    Filter(rows, OtherThan(key))
  }

  function AdminDelete(t: Table, key: Key): Table {
    t.(rows := Without(t.rows, key))
  }

  /** Global rows and the client's own, in id order; disabled ones too. */
  predicate Visible(r: Row, client: string) {
    r.client == "*" || r.client == client
  }

  function VisibleFor(client: string): Row -> bool {
    (r: Row) => Visible(r, client)
  }

  function VisibleRows(rows: seq<Row>, client: string): seq<Row> {
    Filter(rows, VisibleFor(client))
  }

  /** INSERT OR IGNORE: an existing row stays as it is. */
  function InsertOrIgnore(t: Table, made: Row): Table {
    if Find(t.rows, KeyOf(made)) < |t.rows| then t.(mark := t.mark + 1)
    else Table(t.rows + [made.(id := t.mark + 1)], t.mark + 1)
  }

  /** The demonstration tasks, target and name: public DNS servers for every client. */
  const SEEDS: seq<(string, string)> := [
    ("223.5.5.5", "\U{963F}\U{91CC} DNS"),
    ("119.29.29.29", "\U{817E}\U{8BAF} DNS"),
    ("1.1.1.1", "Cloudflare DNS")
  ]

  /** A seeded task takes the column's default type. */
  function SeedRow(client: string, target: string, name: string): Row {
    Row(0, client, target, "ping", name, DEFAULT_INTERVAL, true)
  }

  function Seeded(t: Table, seeds: seq<(string, string)>): Table {
    if seeds == [] then t
    else InsertOrIgnore(Seeded(t, seeds[..|seeds| - 1]), SeedRow("*", seeds[|seeds| - 1].0, seeds[|seeds| - 1].1))
  }

  lemma SeededSnoc(t: Table, seeds: seq<(string, string)>, k: nat)
    requires k < |seeds|
    ensures Seeded(t, seeds[..k + 1]) == InsertOrIgnore(Seeded(t, seeds[..k]), SeedRow("*", seeds[k].0, seeds[k].1))
  {
    assert seeds[..k + 1][..k] == seeds[..k];
  }

  /** The table as the store keeps it. */
  class ProbeTasks {
    var rows: seq<Row>
    var mark: nat

    function State(): Table
      reads this
    {
      Table(rows, mark)
    }

    constructor ()
      ensures State() == EMPTY
    {
      rows, mark := [], 0;
    }

    method Conflict(key: Key) returns (i: nat)
      ensures i == Find(rows, key)
    {
      i := 0;
      while i < |rows| && KeyOf(rows[i]) != key
        invariant i <= |rows|
        invariant Find(rows, key) == i + Find(rows[i..], key)
      {
        assert rows[i..][1..] == rows[i + 1..];
        i := i + 1;
      }
    }

    method UpsertProbeTask(client: string, target: string, name: string, typ: string, interval: real, enabled: bool)
      modifies this
      ensures State() == AgentUpsert(old(State()), client, target, name, typ, interval, enabled)
    {
      var i := Conflict(Key(client, name));
      mark := mark + 1;
      if i < |rows| {
        rows := rows[i := rows[i].(target := target, typ := typ, enabled := enabled)];
      } else {
        rows := rows + [Row(mark, client, target, typ, name, interval, enabled)];
      }
    }

    method AdminUpsertProbeInterval(client: string, target: string, name: string, typ: string, interval: real,
                                    enabled: bool)
      modifies this
      ensures State() == AdminUpsert(old(State()), client, target, name, typ, interval, enabled)
    {
      var theType, theInterval := typ, interval;
      if theType == "" { theType := "icmp"; }
      if theInterval <= 0.0 { theInterval := 60.0; }
      var i := Conflict(Key(client, name));
      mark := mark + 1;
      if i < |rows| {
        rows := rows[i := rows[i].(target := target, typ := theType, interval := theInterval, enabled := enabled)];
      } else {
        rows := rows + [Row(mark, client, target, theType, name, theInterval, enabled)];
      }
    }

    method SeedProbeTasks()
      modifies this
      ensures State() == Seeded(old(State()), SEEDS)
    {
      SeedAll(SEEDS);
    }

    method SeedAll(seeds: seq<(string, string)>)
      modifies this
      ensures State() == Seeded(old(State()), seeds)
    {
      ghost var start := State();
      for k := 0 to |seeds|
        invariant State() == Seeded(start, seeds[..k])
      {
        SeededSnoc(start, seeds, k);
        var target, name := seeds[k].0, seeds[k].1;
        var i := Conflict(Key("*", name));
        mark := mark + 1;
        if i == |rows| {
          rows := rows + [Row(mark, "*", target, "ping", name, 60.0, true)];
        }
      }
      assert seeds[..|seeds|] == seeds;
    }

    method AdminDeleteProbe(client: string, name: string)
      modifies this
      ensures State() == AdminDelete(old(State()), Key(client, name))
    {
      var kept := [];
      for i := 0 to |rows|
        invariant rows == old(rows) && mark == old(mark)
        invariant kept == Without(rows[..i], Key(client, name))
      {
        assert rows[..i + 1][..i] == rows[..i];
        if !(rows[i].client == client && rows[i].name == name) {
          kept := kept + [rows[i]];
        }
      }
      assert rows[..|rows|] == rows;
      rows := kept;
    }

    method VisibleTo(client: string) returns (out: seq<Row>)
      ensures out == VisibleRows(rows, client)
      ensures forall r :: r in out <==> r in rows && (r.client == "*" || r.client == client)
    {
      out := [];
      for i := 0 to |rows|
        invariant out == VisibleRows(rows[..i], client)
      {
        assert rows[..i + 1][..i] == rows[..i];
        if rows[i].client == "*" || rows[i].client == client {
          out := out + [rows[i]];
        }
      }
      assert rows[..|rows|] == rows;
      FilterMembers(rows, VisibleFor(client));
    }
  }

  // ---------- what every statement keeps ----------

  ghost predicate Valid(t: Table) {
    && (forall i :: 0 <= i < |t.rows| ==> 0 < t.rows[i].id <= t.mark)
    && (forall i, j :: 0 <= i < j < |t.rows| ==> t.rows[i].id < t.rows[j].id)
    && (forall i, j :: 0 <= i < j < |t.rows| ==> KeyOf(t.rows[i]) != KeyOf(t.rows[j]))
  }

  /** Some row of the table has this id and this key. */
  ghost predicate HeldBefore(t: Table, id: nat, key: Key) {
    exists q :: q in t.rows && q.id == id && KeyOf(q) == key
  }

  /** Every row carries a number not drawn before, or is the (client, name) that already held it. */
  ghost predicate NoReuse(t: Table, t': Table) {
    forall r :: r in t'.rows ==> r.id > t.mark || HeldBefore(t, r.id, KeyOf(r))
  }

  lemma {:induction false} WithoutValid(t: Table, key: Key)
    requires Valid(t)
    ensures Valid(AdminDelete(t, key))
    decreases |t.rows|
  {
    if t.rows == [] {
    } else {
      var n := |t.rows| - 1;
      var init, last := t.rows[..n], t.rows[n];
      WithoutValid(t.(rows := init), key);
      FilterMembers(init, OtherThan(key));
      var rest := Without(init, key);
      forall i | 0 <= i < |rest| ensures rest[i].id < last.id && KeyOf(rest[i]) != KeyOf(last) {
        assert rest[i] in rest;
        var k :| 0 <= k < n && t.rows[k] == rest[i];
        assert KeyOf(t.rows[k]) != KeyOf(t.rows[n]);
      }
      if KeyOf(last) != key {
        AppendValid(Table(rest, t.mark), last);
      }
    }
  }

  lemma AppendValid(t: Table, r: Row)
    requires Valid(t) && 0 < r.id <= t.mark
    requires forall i :: 0 <= i < |t.rows| ==> t.rows[i].id < r.id && KeyOf(t.rows[i]) != KeyOf(r)
    ensures Valid(t.(rows := t.rows + [r]))
  {
    var rows := t.rows + [r];
    forall i, j | 0 <= i < j < |rows| ensures rows[i].id < rows[j].id && KeyOf(rows[i]) != KeyOf(rows[j]) {
      if j < |t.rows| {
        assert KeyOf(t.rows[i]) != KeyOf(t.rows[j]);
      }
    }
  }

  lemma UpsertShape(t: Table, made: Row, keepInterval: bool)
    ensures var rows', i := Upsert(t, made, keepInterval).rows, Find(t.rows, KeyOf(made));
            && |rows'| == (if i == |t.rows| then |t.rows| + 1 else |t.rows|)
            && (i == |t.rows| ==> rows'[i] == made.(id := t.mark + 1))
            && (i < |t.rows| ==> rows'[i] == Merge(t.rows[i], made, keepInterval))
            && (forall k :: 0 <= k < |t.rows| && k != i ==> rows'[k] == t.rows[k])
            && (forall k :: 0 <= k < |t.rows| ==> KeyOf(rows'[k]) == KeyOf(t.rows[k]) && rows'[k].id == t.rows[k].id)
  {
  }

  /** A table that keeps the identity of every row, and appends at most one row under a new key and the
      next number, stays valid. */
  lemma SameIdentities(t: Table, t': Table)
    requires Valid(t) && t'.mark == t.mark + 1
    requires |t.rows| <= |t'.rows| <= |t.rows| + 1
    requires forall k :: 0 <= k < |t.rows| ==> t'.rows[k].id == t.rows[k].id && KeyOf(t'.rows[k]) == KeyOf(t.rows[k])
    requires |t'.rows| > |t.rows| ==> t'.rows[|t.rows|].id == t'.mark
    requires |t'.rows| > |t.rows| ==> forall k :: 0 <= k < |t.rows| ==> KeyOf(t.rows[k]) != KeyOf(t'.rows[|t.rows|])
    ensures Valid(t') && NoReuse(t, t')
  {
    var n := |t.rows|;
    forall i, j | 0 <= i < j < |t'.rows|
      ensures t'.rows[i].id < t'.rows[j].id && KeyOf(t'.rows[i]) != KeyOf(t'.rows[j])
    {
      assert t'.rows[i].id == t.rows[i].id;
      if j < n {
        assert KeyOf(t.rows[i]) != KeyOf(t.rows[j]);
      } else {
        assert KeyOf(t.rows[i]) != KeyOf(t'.rows[n]);
      }
    }
    forall r | r in t'.rows && r.id <= t.mark ensures HeldBefore(t, r.id, KeyOf(r)) {
      var k :| 0 <= k < |t'.rows| && t'.rows[k] == r;
      assert t.rows[k] in t.rows;
    }
  }

  lemma UpsertValid(t: Table, made: Row, keepInterval: bool)
    requires Valid(t)
    ensures Valid(Upsert(t, made, keepInterval)) && NoReuse(t, Upsert(t, made, keepInterval))
  {
    UpsertShape(t, made, keepInterval);
    SameIdentities(t, Upsert(t, made, keepInterval));
  }

  lemma InsertOrIgnoreValid(t: Table, made: Row)
    requires Valid(t)
    ensures Valid(InsertOrIgnore(t, made)) && NoReuse(t, InsertOrIgnore(t, made))
  {
    SameIdentities(t, InsertOrIgnore(t, made));
  }

  /** Seeding keeps the row of every key that has one. */
  lemma InsertOrIgnoreLookup(t: Table, made: Row, key: Key)
    ensures var before, after := Lookup(t.rows, key), Lookup(InsertOrIgnore(t, made).rows, key);
            after == if before.None? && KeyOf(made) == key then Some(made.(id := t.mark + 1)) else before
  {
    if Find(t.rows, KeyOf(made)) == |t.rows| {
      UpsertLookup(t, made, true, key);
    }
  }

  /** What an upsert does to the row of each key. */
  lemma UpsertLookup(t: Table, made: Row, keepInterval: bool, key: Key)
    ensures var before, after := Lookup(t.rows, key), Lookup(Upsert(t, made, keepInterval).rows, key);
            if KeyOf(made) == key
            then after == match before {
                            case None => Some(made.(id := t.mark + 1))
                            case Some(r) => Some(Merge(r, made, keepInterval))
                          }
            else after == before
  {
    UpsertShape(t, made, keepInterval);
    var rows' := Upsert(t, made, keepInterval).rows;
    var j, j' := Find(t.rows, key), Find(rows', key);
    if j < |t.rows| {
      assert KeyOf(rows'[j]) == key;
      assert j' == j;
    } else {
      assert forall k :: 0 <= k < |t.rows| ==> KeyOf(rows'[k]) != key;
      assert j' >= |t.rows|;
    }
  }

  /** The agent's upsert, field by field: everything as reported, but id and interval of a row that was there
      before; and no other row changes. */
  lemma AgentRow(t: Table, client: string, target: string, name: string, typ: string, interval: real, enabled: bool)
    ensures var rows', key := AgentUpsert(t, client, target, name, typ, interval, enabled).rows, Key(client, name);
            var before, after := Lookup(t.rows, key), Lookup(rows', key);
            && (forall other :: other != key ==> Lookup(rows', other) == Lookup(t.rows, other))
            && after.Some? && after.value.client == client && after.value.name == name
            && after.value.target == target && after.value.typ == typ && after.value.enabled == enabled
            && (before.None? ==> after.value.id > t.mark && after.value.interval == interval)
            && (before.Some? ==> after.value.id == before.value.id && after.value.interval == before.value.interval)
  {
    var made := Row(0, client, target, typ, name, interval, enabled);
    forall key ensures KeyOf(made) == key || Lookup(Upsert(t, made, true).rows, key) == Lookup(t.rows, key) {
      UpsertLookup(t, made, true, key);
    }
    UpsertLookup(t, made, true, Key(client, name));
  }

  /** The administrator's upsert sets the interval too, and keeps only the id. */
  lemma AdminRow(t: Table, client: string, target: string, name: string, typ: string, interval: real, enabled: bool)
    ensures var rows', key := AdminUpsert(t, client, target, name, typ, interval, enabled).rows, Key(client, name);
            var before, after := Lookup(t.rows, key), Lookup(rows', key);
            && (forall other :: other != key ==> Lookup(rows', other) == Lookup(t.rows, other))
            && after.Some? && after.value.client == client && after.value.name == name
            && after.value.target == target && after.value.typ == (if typ == "" then "icmp" else typ)
            && after.value.interval == (if interval > 0.0 then interval else 60.0) && after.value.enabled == enabled
            && if before.Some? then after.value.id == before.value.id else after.value.id > t.mark
  {
    var made := Row(0, client, target, NormalType(typ), name, NormalInterval(interval), enabled);
    forall key ensures KeyOf(made) == key || Lookup(Upsert(t, made, false).rows, key) == Lookup(t.rows, key) {
      UpsertLookup(t, made, false, key);
    }
    UpsertLookup(t, made, false, Key(client, name));
  }

  function SeedAt(seeds: seq<(string, string)>, k: nat): Row
    requires k < |seeds|
  {
    Row(k + 1, "*", seeds[k].0, "ping", seeds[k].1, 60.0, true)
  }

  function SeedTable(seeds: seq<(string, string)>, n: nat): Table
    requires n <= |seeds|
  {
    Table(seq(n, k requires 0 <= k < n => SeedAt(seeds, k)), n)
  }

  /** A seed whose name is new is appended. */
  lemma SeedFits(seeds: seq<(string, string)>, n: nat)
    requires n < |seeds| && forall i, j :: 0 <= i < j < |seeds| ==> seeds[i].1 != seeds[j].1
    ensures InsertOrIgnore(SeedTable(seeds, n), SeedRow("*", seeds[n].0, seeds[n].1)) == SeedTable(seeds, n + 1)
  {
    var t, made := SeedTable(seeds, n), SeedRow("*", seeds[n].0, seeds[n].1);
    assert forall k :: 0 <= k < n ==> KeyOf(t.rows[k]).name == seeds[k].1;
    assert made.(id := n + 1) == SeedAt(seeds, n);
    assert t.rows + [SeedAt(seeds, n)] == SeedTable(seeds, n + 1).rows;
  }

  lemma {:induction false} SeededDistinct(seeds: seq<(string, string)>, n: nat)
    requires n <= |seeds| && forall i, j :: 0 <= i < j < |seeds| ==> seeds[i].1 != seeds[j].1
    ensures Seeded(EMPTY, seeds[..n]) == SeedTable(seeds, n)
  {
    if n == 0 {
      assert SeedTable(seeds, 0).rows == [];
    } else {
      SeededDistinct(seeds, n - 1);
      SeededSnoc(EMPTY, seeds, n - 1);
      SeedFits(seeds, n - 1);
    }
  }

  lemma SeedNames()
    ensures forall i, j :: 0 <= i < j < |SEEDS| ==> SEEDS[i].1 != SEEDS[j].1
  {
    assert SEEDS[0].1[0] == '\U{963F}' && SEEDS[1].1[0] == '\U{817E}' && SEEDS[2].1[0] == 'C';
  }

  /** What a fresh database is seeded with. */
  lemma SeededFresh()
    ensures Seeded(EMPTY, SEEDS).rows
            == [Row(1, "*", "223.5.5.5", "ping", "\U{963F}\U{91CC} DNS", 60.0, true),
                Row(2, "*", "119.29.29.29", "ping", "\U{817E}\U{8BAF} DNS", 60.0, true),
                Row(3, "*", "1.1.1.1", "ping", "Cloudflare DNS", 60.0, true)]
  {
    SeedNames();
    SeededDistinct(SEEDS, 3);
    assert SEEDS[..3] == SEEDS;
  }

  /** With unique keys any row of that key is the one a lookup finds. */
  lemma LookupUnique(t: Table, r: Row)
    requires Valid(t) && r in t.rows
    ensures Lookup(t.rows, KeyOf(r)) == Some(r)
  {
    var k :| 0 <= k < |t.rows| && t.rows[k] == r;
    var j := Find(t.rows, KeyOf(r));
    assert j <= k;
  }

  lemma LookupMember(rows: seq<Row>, key: Key)
    ensures Lookup(rows, key).None? <==> forall r :: r in rows ==> KeyOf(r) != key
    ensures Lookup(rows, key).Some? ==> Lookup(rows, key).value in rows && KeyOf(Lookup(rows, key).value) == key
  {
  }

  lemma DeleteLookup(t: Table, gone: Key, key: Key)
    requires Valid(t)
    ensures Lookup(AdminDelete(t, gone).rows, key) == if gone == key then None else Lookup(t.rows, key)
  {
    var t' := AdminDelete(t, gone);
    FilterMembers(t.rows, OtherThan(gone));
    WithoutValid(t, gone);
    LookupMember(t.rows, key);
    LookupMember(t'.rows, key);
    if Lookup(t'.rows, key).Some? {
      LookupUnique(t, Lookup(t'.rows, key).value);
    }
  }

  // ---------- whole runs ----------

  datatype Op =
    | AgentReport(key: Key, target: string, typ: string)
    | AdminSet(key: Key, target: string, typ: string, interval: real, enabled: bool)
    | AdminRemove(key: Key)
    | SeedTask(key: Key, target: string)

  /** An agent's report always upserts with 60 s, enabled, and an empty type read as icmp. */
  function Apply(t: Table, op: Op): Table {
    match op
    case AgentReport(k, target, typ) =>
      AgentUpsert(t, k.client, target, k.name, NormalType(typ), DEFAULT_INTERVAL, true)
    case AdminSet(k, target, typ, iv, on) => AdminUpsert(t, k.client, target, k.name, typ, iv, on)
    case AdminRemove(k) => AdminDelete(t, k)
    case SeedTask(k, target) => InsertOrIgnore(t, SeedRow(k.client, target, k.name))
  }

  function Run(t: Table, ops: seq<Op>): Table {
    if ops == [] then t else Apply(Run(t, ops[..|ops| - 1]), ops[|ops| - 1])
  }

  /** A seeding run is a run of the machine. */
  function SeedOps(seeds: seq<(string, string)>): seq<Op> {
    MapSeq((seed: (string, string)) => SeedTask(Key("*", seed.1), seed.0), seeds)
  }

  lemma {:induction false} SeededIsRun(t: Table, seeds: seq<(string, string)>)
    ensures Seeded(t, seeds) == Run(t, SeedOps(seeds))
  {
    if seeds == [] {
    } else {
      var init := seeds[..|seeds| - 1];
      SeededIsRun(t, init);
      assert SeedOps(seeds)[..|init|] == SeedOps(init);
    }
  }

  lemma ApplyValid(t: Table, op: Op)
    requires Valid(t)
    ensures Valid(Apply(t, op)) && t.mark <= Apply(t, op).mark && NoReuse(t, Apply(t, op))
  {
    match op
    case AgentReport(k, target, typ) =>
      UpsertValid(t, Row(0, k.client, target, NormalType(typ), k.name, DEFAULT_INTERVAL, true), true);
    case AdminSet(k, target, typ, iv, on) =>
      UpsertValid(t, Row(0, k.client, target, NormalType(typ), k.name, NormalInterval(iv), on), false);
    case AdminRemove(k) =>
      WithoutValid(t, k);
      FilterMembers(t.rows, OtherThan(k));
    case SeedTask(k, target) =>
      InsertOrIgnoreValid(t, SeedRow(k.client, target, k.name));
  }

  /** Over any interleaving (client, name) stays unique, and an id is never reused: a row found after
      the run either carries a number that had not been drawn before it, or is the same (client, name)
      that held that number at the start. */
  lemma {:induction false} IdsNeverReused(t: Table, ops: seq<Op>)
    requires Valid(t)
    ensures Valid(Run(t, ops)) && t.mark <= Run(t, ops).mark && NoReuse(t, Run(t, ops))
  {
    if ops != [] {
      var mid := Run(t, ops[..|ops| - 1]);
      IdsNeverReused(t, ops[..|ops| - 1]);
      ApplyValid(mid, ops[|ops| - 1]);
      forall r | r in Run(t, ops).rows && r.id <= t.mark ensures HeldBefore(t, r.id, KeyOf(r)) {
        assert HeldBefore(mid, r.id, KeyOf(r));
        var m :| m in mid.rows && m.id == r.id && KeyOf(m) == KeyOf(r);
        assert HeldBefore(t, m.id, KeyOf(m));
      }
    } else {
      assert forall r :: r in t.rows ==> HeldBefore(t, r.id, KeyOf(r));
    }
  }

  /** What one operation leaves as the interval of its key, given what it was. */
  function OwnedInterval(before: Option<real>, op: Op): Option<real> {
    match op
    case AgentReport(_, _, _) => if before.Some? then before else Some(DEFAULT_INTERVAL)
    case AdminSet(_, _, _, iv, _) => Some(NormalInterval(iv))
    case AdminRemove(_) => None
    case SeedTask(_, _) => if before.Some? then before else Some(DEFAULT_INTERVAL)
  }

  function IntervalOf(t: Table, key: Key): Option<real> {
    match Lookup(t.rows, key)
    case None => None
    case Some(r) => Some(r.interval)
  }

  lemma ApplyInterval(t: Table, op: Op, key: Key)
    requires Valid(t)
    ensures IntervalOf(Apply(t, op), key) ==
            if op.key == key then OwnedInterval(IntervalOf(t, key), op) else IntervalOf(t, key)
  {
    match op
    case AgentReport(k, target, typ) =>
      UpsertLookup(t, Row(0, k.client, target, NormalType(typ), k.name, DEFAULT_INTERVAL, true), true, key);
    case AdminSet(k, target, typ, iv, on) =>
      UpsertLookup(t, Row(0, k.client, target, NormalType(typ), k.name, NormalInterval(iv), on), false, key);
    case AdminRemove(k) =>
      DeleteLookup(t, k, key);
    case SeedTask(k, target) =>
      InsertOrIgnoreLookup(t, SeedRow(k.client, target, k.name), key);
  }

  /** Neither set nor removed by an administrator: only agent reports and seeding touch the key. */
  ghost predicate OnlyReports(ops: seq<Op>, key: Key) {
    forall op :: op in ops && op.key == key ==> op.AgentReport? || op.SeedTask?
  }

  ghost predicate Touched(ops: seq<Op>, key: Key) {
    exists op :: op in ops && op.key == key
  }

  lemma {:induction false} RunSplit(t: Table, a: seq<Op>, b: seq<Op>)
    ensures Run(t, a + b) == Run(Run(t, a), b)
  {
    if b == [] {
      assert a + b == a;
    } else {
      assert (a + b)[..|a + b| - 1] == a + b[..|b| - 1];
      RunSplit(t, a, b[..|b| - 1]);
    }
  }

  /** Agent reports and seeding never change the interval of a row that exists, and create a missing one
      with 60 s. */
  lemma {:induction false} ReportsKeepInterval(t: Table, ops: seq<Op>, key: Key)
    requires Valid(t) && OnlyReports(ops, key)
    ensures IntervalOf(Run(t, ops), key) ==
            if IntervalOf(t, key).Some? then IntervalOf(t, key)
            else if Touched(ops, key) then Some(60.0)
            else None
  {
    if ops == [] {
    } else {
      var init, last := ops[..|ops| - 1], ops[|ops| - 1];
      assert ops == init + [last];
      ReportsKeepInterval(t, init, key);
      IdsNeverReused(t, init);
      ApplyInterval(Run(t, init), last, key);
      assert Touched(ops, key) <==> Touched(init, key) || last.key == key;
    }
  }

  /** Right after the administrator's last operation on the key, or on the empty table. */
  lemma AfterAdmin(ops: seq<Op>, key: Key)
    requires ops != [] ==> var op := ops[|ops| - 1]; op.key == key && (op.AdminSet? || op.AdminRemove?)
    ensures IntervalOf(Run(EMPTY, ops), key)
            == if ops != [] && ops[|ops| - 1].AdminSet?
               then var interval := ops[|ops| - 1].interval; Some(if interval > 0.0 then interval else 60.0)
               else None
  {
    if ops == [] {
      assert Lookup(EMPTY.rows, key) == None;
    } else {
      IdsNeverReused(EMPTY, ops[..|ops| - 1]);
      ApplyInterval(Run(EMPTY, ops[..|ops| - 1]), ops[|ops| - 1], key);
    }
  }

  /** The last word on an interval, over any interleaving: `before` ends with the administrator's last set or
      delete of the key, or is empty when there was none. The interval is the value set there; for a key
      deleted or never set it is the 60 s of the report or the seeding that created the row, if one did. */
  lemma IntervalOwnership(before: seq<Op>, after: seq<Op>, key: Key)
    requires OnlyReports(after, key)
    requires before != [] ==> var op := before[|before| - 1]; op.key == key && (op.AdminSet? || op.AdminRemove?)
    ensures IntervalOf(Run(EMPTY, before + after), key) ==
            if before != [] && before[|before| - 1].AdminSet?
            then var interval := before[|before| - 1].interval; Some(if interval > 0.0 then interval else 60.0)
            else if Touched(after, key) then Some(60.0)
            else None
  {
    RunSplit(EMPTY, before, after);
    IdsNeverReused(EMPTY, before);
    AfterAdmin(before, key);
    ReportsKeepInterval(Run(EMPTY, before), after, key);
  }

  /** Nothing but seeding touches the key. */
  ghost predicate OnlySeeds(ops: seq<Op>, key: Key) {
    forall op :: op in ops && op.key == key ==> op.SeedTask?
  }

  lemma SeedKeepsRow(t: Table, op: Op, key: Key)
    requires Valid(t) && Lookup(t.rows, key).Some? && (op.key == key ==> op.SeedTask?)
    ensures Lookup(Apply(t, op).rows, key) == Lookup(t.rows, key)
  {
    match op
    case AgentReport(k, target, typ) =>
      UpsertLookup(t, Row(0, k.client, target, NormalType(typ), k.name, DEFAULT_INTERVAL, true), true, key);
    case AdminSet(k, target, typ, iv, on) =>
      UpsertLookup(t, Row(0, k.client, target, NormalType(typ), k.name, NormalInterval(iv), on), false, key);
    case AdminRemove(k) =>
      DeleteLookup(t, k, key);
    case SeedTask(k, target) =>
      InsertOrIgnoreLookup(t, SeedRow(k.client, target, k.name), key);
  }

  lemma {:induction false} SeedsKeepRow(t: Table, ops: seq<Op>, key: Key)
    requires Valid(t) && Lookup(t.rows, key).Some? && OnlySeeds(ops, key)
    ensures Lookup(Run(t, ops).rows, key) == Lookup(t.rows, key)
  {
    if ops == [] {
    } else {
      var init, last := ops[..|ops| - 1], ops[|ops| - 1];
      assert ops == init + [last];
      SeedsKeepRow(t, init, key);
      IdsNeverReused(t, init);
      SeedKeepsRow(Run(t, init), last, key);
    }
  }

  /** The last word on everything else, over any interleaving: target, type and enabled flag of a row are those
      of the last report or administrator's set of its key, unless it was deleted since. */
  lemma LastWriter(before: seq<Op>, op: Op, after: seq<Op>)
    requires (op.AgentReport? || op.AdminSet?) && OnlySeeds(after, op.key)
    ensures var row := Lookup(Run(EMPTY, before + [op] + after).rows, op.key);
            && row.Some? && row.value.client == op.key.client && row.value.name == op.key.name
            && row.value.target == op.target && row.value.typ == (if op.typ == "" then "icmp" else op.typ)
            && row.value.enabled == (op.AdminSet? ==> op.enabled)
  {
    var t := Run(EMPTY, before);
    assert (before + [op])[..|before|] == before;
    RunSplit(EMPTY, before + [op], after);
    IdsNeverReused(EMPTY, before + [op]);
    match op {
      case AgentReport(k, target, typ) =>
        AgentRow(t, k.client, target, k.name, NormalType(typ), DEFAULT_INTERVAL, true);
      case AdminSet(k, target, typ, iv, on) =>
        AdminRow(t, k.client, target, k.name, typ, iv, on);
    }
    SeedsKeepRow(Run(EMPTY, before + [op]), after, op.key);
  }
}
