/** The probe-configuration echo between server and agent: the server serves a node its global and own
    tasks, the agent prints them, appends its local list, parses the result with dedupe and reports it
    back, and the server upserts every reported probe under the node
    (cmd/server/main.go, cmd/agent/main.go, internal/api/agent.go, internal/store/adapters.go). */
module Echo {
  import opened Text
  import opened Wire
  import opened ProbeTable
  import opened Winner

  // ---------- one echo ----------

  function AsProbe(r: Row): Probe {
    Probe(r.name, r.target, r.typ)
  }

  function Served(rows: seq<Row>, uuid: string): seq<Probe> {
    MapSeq(AsProbe, VisibleRows(rows, uuid))
  }

  function Reported(rows: seq<Row>, uuid: string, local: string): seq<Probe> {
    Parse(Print(Served(rows, uuid)) + "," + local)
  }

  function Made(uuid: string, p: Probe): Row {
    Row(0, uuid, p.host, NormalType(p.typ), p.name, DEFAULT_INTERVAL, true)
  }

  function Receive(t: Table, uuid: string, p: Probe): Table {
    if p.name == "" || p.host == "" then t
    else AgentUpsert(t, uuid, p.host, p.name, NormalType(p.typ), DEFAULT_INTERVAL, true)
  }

  function ReceiveAll(t: Table, uuid: string, ps: seq<Probe>): Table {
    if ps == [] then t else Receive(ReceiveAll(t, uuid, ps[..|ps| - 1]), uuid, ps[|ps| - 1])
  }

  function EchoOnce(t: Table, uuid: string, local: string): Table {
    ReceiveAll(t, uuid, Reported(t.rows, uuid, local))
  }

  function EchoTimes(t: Table, uuid: string, local: string, n: nat): Table {
    Iterate(x => EchoOnce(x, uuid, local), t, n)
  }

  /** The probe loop of AgentEndpoint.ServeHTTP. */
  method ReceiveReport(store: ProbeTasks, uuid: string, probes: seq<Probe>)
    modifies store
    ensures store.State() == ReceiveAll(old(store.State()), uuid, probes)
  {
    for i := 0 to |probes|
      invariant store.State() == ReceiveAll(old(store.State()), uuid, probes[..i])
    {
      var pt := probes[i];
      assert probes[..i + 1][..i] == probes[..i];
      if pt.name == "" || pt.host == "" { continue; }
      var typ := pt.typ;
      if typ == "" { typ := "icmp"; }
      store.UpsertProbeTask(uuid, pt.host, pt.name, typ, 60.0, true);
    }
    assert probes[..|probes|] == probes;
  }

  /** The /agent/config handler's task list. */
  method ServeConfig(store: ProbeTasks, uuid: string) returns (tasks: seq<Probe>)
    ensures tasks == Served(store.rows, uuid)
    ensures var rows := VisibleRows(store.rows, uuid);
            |tasks| == |rows|
            && forall k :: 0 <= k < |rows| ==> tasks[k] == Probe(rows[k].name, rows[k].target, rows[k].typ)
  {
    var visible := store.VisibleTo(uuid);
    tasks := MapSeq(AsProbe, visible);
  }

  /** One turn of the agent's loop against the server. */
  method EchoTurn(store: ProbeTasks, uuid: string, local: string)
    modifies store
    ensures store.State() == EchoOnce(old(store.State()), uuid, local)
  {
    var tasks := ServeConfig(store, uuid);
    var remote := PrintRemoteProbes(tasks);
    var probes := ParseProbes(remote + "," + local);
    ReceiveReport(store, uuid, probes);
  }

  // ---------- what the protocol is run on ----------

  /** A row that can be put on the wire: a clean name and target, some type without a comma. The type
      need not be one the agent recognises. */
  predicate Servable(r: Row) {
    CleanName(r.name) && CleanHost(r.target) && r.typ != "" && ',' !in r.typ
  }

  function LocalItems(local: string): seq<Probe> {
    Items(Split(local, ','))
  }

  ghost predicate Ready(t: Table, uuid: string, local: string) {
    && uuid != "*"
    && Valid(t)
    && (forall r :: r in t.rows && Visible(r, uuid) ==> Servable(r))
    && (forall p :: p in LocalItems(local) ==> '|' !in p.name)
  }

  /** The probe as the agent reads a served row. */
  function Seen(r: Row): Probe {
    match ParsePart(PrintPart(AsProbe(r)))
    case Some(p) => p
    case None => AsProbe(r)
  }

  lemma SeenShape(r: Row)
    requires Servable(r)
    ensures ParsePart(PrintPart(AsProbe(r))) == Some(Seen(r))
    ensures Seen(r).name == r.name && CleanHost(Seen(r).host) && (Seen(r).typ == "" || Seen(r).typ in PROBE_TYPES)
  {
    PrintedShape(AsProbe(r));
  }

  /** A row of a canonical type, as the echo itself leaves them, is read back exactly. */
  lemma SeenExactly(r: Row)
    requires Servable(r) && r.typ in PROBE_TYPES
    ensures Seen(r) == AsProbe(r)
  {
    PartRoundTrip(AsProbe(r));
    SeenShape(r);
  }

  /** Everything the agent parses before dedupe: the visible rows as seen, then the local entries. */
  function Offered(rows: seq<Row>, uuid: string, local: string): seq<Probe> {
    MapSeq(Seen, VisibleRows(rows, uuid)) + LocalItems(local)
  }

  /** The wire carries exactly that. */
  lemma ReportedIsOffered(t: Table, uuid: string, local: string)
    requires Ready(t, uuid, local)
    ensures Reported(t.rows, uuid, local) == Dedupe(Offered(t.rows, uuid, local))
  {
    var vs := VisibleRows(t.rows, uuid);
    var served := Served(t.rows, uuid);
    FilterMembers(t.rows, VisibleFor(uuid));
    forall p | p in served ensures CleanName(p.name) && CleanHost(p.host) && ',' !in p.typ {
      var k :| 0 <= k < |served| && served[k] == p;
      assert vs[k] in vs;
    }
    ParseJoined(served, local);
    SeenParts(vs);
  }

  lemma SeenParts(vs: seq<Row>)
    requires forall r :: r in vs ==> Servable(r)
    ensures Items(PrintParts(MapSeq(AsProbe, vs))) == MapSeq(Seen, vs)
  {
    var served := MapSeq(AsProbe, vs);
    var parts := PrintParts(served);
    forall p | p in served ensures p.name != "" && p.host != "" {
      var k :| 0 <= k < |served| && served[k] == p;
      assert vs[k] in vs;
    }
    PrintedParts(served);
    forall k | 0 <= k < |vs| ensures ParsePart(parts[k]) == Some(Seen(vs[k])) {
      assert vs[k] in vs;
      SeenShape(vs[k]);
    }
    ItemsWhole(parts);
    assert Items(parts) == MapSeq(Seen, vs);
  }

  /** Local entries are clean because they were parsed from between commas. */
  lemma LocalShape(local: string)
    ensures forall p :: p in LocalItems(local) ==>
              p.name != "" && Trimmed(p.name) && ',' !in p.name && ':' !in p.name && CleanHost(p.host)
                  && (p.typ == "" || p.typ in PROBE_TYPES)
  {
    var parts := Split(local, ',');
    SomesMembers(Parsed(parts));
    forall p | p in LocalItems(local)
      ensures p.name != "" && Trimmed(p.name) && ',' !in p.name && ':' !in p.name && CleanHost(p.host)
              && (p.typ == "" || p.typ in PROBE_TYPES)
    {
      assert Some(p) in Parsed(parts);
      var k :| 0 <= k < |parts| && Parsed(parts)[k] == Some(p);
      PartShape(parts[k]);
    }
  }

  lemma PartShape(part: string)
    requires ',' !in part && ParsePart(part).Some?
    ensures var p := ParsePart(part).value;
            p.name != "" && Trimmed(p.name) && ',' !in p.name && ':' !in p.name && CleanHost(p.host)
                && (p.typ == "" || p.typ in PROBE_TYPES)
  {
    var s := Trim(part);
    TrimShape(part);
    SplitNThree(s, ':');
    var segs := SplitN(s, ':', 3);
    TrimShape(segs[0]);
    assert ':' !in Trim(segs[0]);
    if |segs| >= 3 {
      TrimShape(segs[2]);
    }
    TrimShape(Join(segs[1..], ':'));
  }

  // ---------- one echo, name by name ----------

  function OfName(name: string): Probe -> bool {
    (p: Probe) => p.name == name
  }

  function Named(ps: seq<Probe>, name: string): (r: seq<Probe>)
    ensures forall p :: p in r <==> p in ps && p.name == name
  {
    FilterMembers(ps, OfName(name));
    Filter(ps, OfName(name))
  }

  lemma NamedConcat(a: seq<Probe>, b: seq<Probe>, name: string)
    ensures Named(a + b, name) == Named(a, name) + Named(b, name)
  {
    FilterConcat(a, b, OfName(name));
  }

  lemma {:induction false} WinningMember(ps: seq<Probe>)
    requires ps != []
    ensures Winning(ps) in ps
  {
    if ps[..|ps| - 1] != [] && HasHost(ps[..|ps| - 1], ps[|ps| - 1].host) {
      WinningMember(ps[..|ps| - 1]);
    }
  }

  /** Probes as the parser hands them over. */
  ghost predicate Parsable(ps: seq<Probe>) {
    forall p :: p in ps ==> p.name != "" && p.host != "" && '|' !in p.name
  }

  /** `after` is the own row that reporting `ps` (all of one name) leaves in place of `before`. */
  ghost predicate Outcome(mark: nat, before: Option<Row>, ps: seq<Probe>, after: Option<Row>) {
    if ps == [] then after == before
    else
      && after.Some?
      && AsProbe(after.value) == Stored(Winning(ps))
      && after.value.enabled
      && match before {
           case None => after.value.id > mark && after.value.interval == 60.0
           case Some(r) => after.value.id == r.id && after.value.interval == r.interval
         }
  }

  lemma RepeatedKey(init: seq<Probe>, p: Probe)
    requires Parsable(init + [p])
    ensures Wire.Key(p) in Keys(init) <==> HasHost(Named(init, p.name), p.host)
  {
    assert p in init + [p];
    forall q | q in init ensures Wire.Key(q) == Wire.Key(p) <==> q.name == p.name && q.host == p.host {
      assert q in init + [p];
      KeyInjective(q, p);
    }
    if Wire.Key(p) in Keys(init) {
      var i :| 0 <= i < |init| && Wire.Key(init[i]) == Wire.Key(p);
      assert init[i] in Named(init, p.name);
    }
    if HasHost(Named(init, p.name), p.host) {
      var q :| q in Named(init, p.name) && q.host == p.host;
      var i :| 0 <= i < |init| && init[i] == q;
      assert Wire.Key(init[i]) == Wire.Key(p);
    }
  }

  lemma ReceiveOne(t: Table, uuid: string, p: Probe, name: string)
    requires p.name != "" && p.host != ""
    ensures var before, after := Lookup(t.rows, Key(uuid, name)), Lookup(Receive(t, uuid, p).rows, Key(uuid, name));
            if p.name == name then Outcome(t.mark, before, [p], after) else after == before
  {
    UpsertLookup(t, Made(uuid, p), true, Key(uuid, name));
    WinningPair(p, p);
  }

  /** What one reported probe does to the table: nothing without a name or a target; otherwise the node's row of
      the name takes target and type, icmp if it has none, and is enabled, under its id and interval or as a new
      row with a minute, and no other row changes. */
  lemma ReceivedProbe(t: Table, uuid: string, p: Probe)
    ensures p.name == "" || p.host == "" ==> Receive(t, uuid, p) == t
    ensures p.name != "" && p.host != "" ==>
              var rows', key := Receive(t, uuid, p).rows, Key(uuid, p.name);
              var before, after := Lookup(t.rows, key), Lookup(rows', key);
              && (forall other :: other != key ==> Lookup(rows', other) == Lookup(t.rows, other))
              && after.Some? && after.value.target == p.host && after.value.enabled
              && after.value.typ == (if p.typ == "" then "icmp" else p.typ)
              && (before.None? ==> after.value.id > t.mark && after.value.interval == 60.0)
              && (before.Some? ==> after.value.id == before.value.id && after.value.interval == before.value.interval)
  {
    if p.name != "" && p.host != "" {
      AgentRow(t, uuid, p.host, p.name, NormalType(p.typ), DEFAULT_INTERVAL, true);
    }
  }

  lemma WinningSnoc(seen: seq<Probe>, p: Probe)
    ensures Winning(seen + [p]) == if seen != [] && HasHost(seen, p.host) then Winning(seen) else p
  {
    assert (seen + [p])[..|seen|] == seen && (seen + [p])[|seen|] == p;
  }

  /** A repeated target is dropped, a new one is upserted over the outcome so far. */
  lemma OutcomeSnoc(mark: nat, before: Option<Row>, seen: seq<Probe>, mid: Option<Row>, p: Probe, midMark: nat,
                    after: Option<Row>)
    requires Outcome(mark, before, seen, mid) && mark <= midMark
    requires if HasHost(seen, p.host) then after == mid else Outcome(midMark, mid, [p], after)
    ensures Outcome(mark, before, seen + [p], after)
  {
    WinningSnoc(seen, p);
    WinningSnoc([], p);
    assert [] + [p] == [p];
    if HasHost(seen, p.host) {
      assert seen != [];
    }
  }

  lemma ReceiveDedupeSnoc(t: Table, uuid: string, init: seq<Probe>, p: Probe)
    ensures var mid := ReceiveAll(t, uuid, Dedupe(init));
            ReceiveAll(t, uuid, Dedupe(init + [p])) == if Wire.Key(p) in Keys(init) then mid else Receive(mid, uuid, p)
  {
    DedupeSnoc(init, p);
    assert (Dedupe(init) + [p])[..|Dedupe(init)|] == Dedupe(init);
  }

  /** The winner of each name is what the table holds afterwards. */
  lemma {:induction false} ReceivedName(t: Table, uuid: string, ps: seq<Probe>, name: string)
    requires Parsable(ps)
    ensures t.mark <= ReceiveAll(t, uuid, Dedupe(ps)).mark
    ensures Outcome(t.mark, Lookup(t.rows, Key(uuid, name)), Named(ps, name),
                    Lookup(ReceiveAll(t, uuid, Dedupe(ps)).rows, Key(uuid, name)))
  {
    if ps == [] {
    } else {
      var init, p := ps[..|ps| - 1], ps[|ps| - 1];
      assert ps == init + [p] && p in ps;
      ReceivedName(t, uuid, init, name);
      RepeatedKey(init, p);
      ReceiveDedupeSnoc(t, uuid, init, p);
      var mid := ReceiveAll(t, uuid, Dedupe(init));
      var end := ReceiveAll(t, uuid, Dedupe(ps));
      ReceiveOne(mid, uuid, p, name);
      if p.name == name {
        var key := Key(uuid, name);
        OutcomeSnoc(t.mark, Lookup(t.rows, key), Named(init, name), Lookup(mid.rows, key), p, mid.mark,
            Lookup(end.rows, key));
      }
    }
  }

  /** Receiving changes no other client's row, keeps every id and key in place, and appends only rows of
      this client under new numbers. */
  ghost predicate Extends(t: Table, uuid: string, t': Table) {
    && t.mark <= t'.mark
    && |t.rows| <= |t'.rows|
    && (forall k :: 0 <= k < |t.rows| ==> KeyOf(t'.rows[k]) == KeyOf(t.rows[k]))
    && (forall k :: 0 <= k < |t.rows| && t.rows[k].client != uuid ==> t'.rows[k] == t.rows[k])
    && (forall k :: |t.rows| <= k < |t'.rows| ==>
          t'.rows[k].client == uuid && t'.rows[k].enabled && t'.rows[k].id > t.mark)
  }

  lemma {:induction false} ReceivedRows(t: Table, uuid: string, ps: seq<Probe>)
    requires Valid(t)
    ensures Valid(ReceiveAll(t, uuid, ps)) && Extends(t, uuid, ReceiveAll(t, uuid, ps))
  {
    if ps == [] {
    } else {
      var init, p := ps[..|ps| - 1], ps[|ps| - 1];
      ReceivedRows(t, uuid, init);
      var mid := ReceiveAll(t, uuid, init);
      if p.name != "" && p.host != "" {
        UpsertShape(mid, Made(uuid, p), true);
        UpsertValid(mid, Made(uuid, p), true);
        ExtendsByOne(t, uuid, mid, Made(uuid, p));
      }
    }
  }

  lemma ExtendsByOne(t: Table, uuid: string, mid: Table, made: Row)
    requires Extends(t, uuid, mid) && made.client == uuid && made.enabled
    ensures Extends(t, uuid, Upsert(mid, made, true))
  {
    UpsertShape(mid, made, true);
    var i, t' := Find(mid.rows, KeyOf(made)), Upsert(mid, made, true);
    forall k | 0 <= k < |t.rows| && t.rows[k].client != uuid ensures t'.rows[k] == t.rows[k] {
      assert KeyOf(mid.rows[k]).client == KeyOf(t.rows[k]).client;
      assert k != i;
    }
  }

  lemma OtherClientsUnchanged(t: Table, uuid: string, t': Table, key: Key)
    requires Extends(t, uuid, t') && key.client != uuid
    ensures Lookup(t'.rows, key) == Lookup(t.rows, key)
  {
    var j, j' := Find(t.rows, key), Find(t'.rows, key);
    forall k | 0 <= k < |t'.rows| && KeyOf(t'.rows[k]) == key ensures k < |t.rows| && KeyOf(t.rows[k]) == key {
      assert KeyOf(t'.rows[k]).client == t'.rows[k].client;
    }
    if j < |t.rows| {
      assert KeyOf(t'.rows[j]) == key;
    }
  }

  // ---------- the served rows of one name ----------

  function Own(t: Table, uuid: string, name: string): Option<Row> {
    Lookup(t.rows, Key(uuid, name))
  }

  function Global(t: Table, name: string): Option<Row> {
    Lookup(t.rows, Key("*", name))
  }

  function SeenOpt(r: Option<Row>): Option<Probe> {
    match r
    case None => None
    case Some(row) => Some(Seen(row))
  }

  predicate Older(own: Option<Row>, glob: Option<Row>) {
    own.Some? && glob.Some? && own.value.id < glob.value.id
  }

  lemma LookupSnoc(init: seq<Row>, last: Row, key: Key)
    ensures Lookup(init + [last], key) ==
            if Lookup(init, key).Some? then Lookup(init, key)
            else if KeyOf(last) == key then Some(last) else None
  {
    var i := Find(init, key);
    var rows := init + [last];
    assert forall k :: 0 <= k < |init| ==> KeyOf(rows[k]) == KeyOf(init[k]);
    assert rows[|init|] == last;
    assert i < |init| ==> KeyOf(rows[i]) == key;
  }

  lemma ServedSnoc(init: seq<Row>, last: Row, uuid: string, name: string)
    requires Servable(last) || !Visible(last, uuid)
    ensures Named(MapSeq(Seen, VisibleRows(init + [last], uuid)), name) ==
            Named(MapSeq(Seen, VisibleRows(init, uuid)), name)
                + (if Visible(last, uuid) && last.name == name then [Seen(last)] else [])
  {
    assert (init + [last])[..|init|] == init;
    if Visible(last, uuid) {
      SeenShape(last);
      MapConcat(Seen, VisibleRows(init, uuid), [last]);
      assert MapSeq(Seen, [last]) == [Seen(last)];
      NamedConcat(MapSeq(Seen, VisibleRows(init, uuid)), [Seen(last)], name);
      NamedOne(Seen(last), name);
    }
  }

  /** Adding the youngest row to the pair of rows of its name. */
  lemma PairGrows(own: Option<Row>, glob: Option<Row>, last: Row)
    requires own.Some? ==> own.value.id < last.id
    requires glob.Some? ==> glob.value.id < last.id
    ensures own.None? ==> ServedPair(SeenOpt(Some(last)), SeenOpt(glob), Older(Some(last), glob)) ==
                          ServedPair(SeenOpt(own), SeenOpt(glob), Older(own, glob)) + [Seen(last)]
    ensures glob.None? ==> ServedPair(SeenOpt(own), SeenOpt(Some(last)), Older(own, Some(last))) ==
                           ServedPair(SeenOpt(own), SeenOpt(glob), Older(own, glob)) + [Seen(last)]
  {
  }

  function PairOf(rows: seq<Row>, uuid: string, name: string): seq<Probe> {
    var own, glob := Lookup(rows, Key(uuid, name)), Lookup(rows, Key("*", name));
    ServedPair(SeenOpt(own), SeenOpt(glob), Older(own, glob))
  }

  lemma PairSnoc(init: seq<Row>, last: Row, uuid: string, name: string)
    requires uuid != "*"
    requires forall r :: r in init ==> r.id < last.id && KeyOf(r) != KeyOf(last)
    ensures PairOf(init + [last], uuid, name) ==
            PairOf(init, uuid, name) + (if Visible(last, uuid) && last.name == name then [Seen(last)] else [])
  {
    var own, glob := Lookup(init, Key(uuid, name)), Lookup(init, Key("*", name));
    LookupMember(init, Key(uuid, name));
    LookupMember(init, Key("*", name));
    LookupSnoc(init, last, Key(uuid, name));
    LookupSnoc(init, last, Key("*", name));
    PairGrows(own, glob, last);
  }

  /** Of one name a node is served at most its own and the global row, in id order. */
  lemma {:induction false} ServedOfName(t: Table, uuid: string, name: string)
    requires uuid != "*" && Valid(t)
    requires forall r :: r in t.rows && Visible(r, uuid) ==> Servable(r)
    ensures Named(MapSeq(Seen, VisibleRows(t.rows, uuid)), name) == PairOf(t.rows, uuid, name)
    decreases |t.rows|
  {
    if t.rows == [] {
    } else {
      var n := |t.rows| - 1;
      var init, last := t.rows[..n], t.rows[n];
      assert t.rows == init + [last];
      assert last in t.rows;
      LastIsYoungest(t, last);
      ServedOfName(t.(rows := init), uuid, name);
      ServedSnoc(init, last, uuid, name);
      PairSnoc(init, last, uuid, name);
    }
  }

  lemma NamedOne(p: Probe, name: string)
    ensures Named([p], name) == if p.name == name then [p] else []
  {
    assert [p][..0] == [];
  }

  lemma LastIsYoungest(t: Table, last: Row)
    requires Valid(t) && t.rows != [] && last == t.rows[|t.rows| - 1]
    ensures Valid(t.(rows := t.rows[..|t.rows| - 1]))
    ensures forall r :: r in t.rows[..|t.rows| - 1] ==> r.id < last.id && KeyOf(r) != KeyOf(last)
  {
  }

  lemma OfferedOfName(t: Table, uuid: string, local: string, name: string)
    requires Ready(t, uuid, local)
    ensures var own, glob := Own(t, uuid, name), Global(t, name);
            Named(Offered(t.rows, uuid, local), name) ==
            ServedPair(SeenOpt(own), SeenOpt(glob), Older(own, glob)) + Named(LocalItems(local), name)
  {
    ServedOfName(t, uuid, name);
    NamedConcat(MapSeq(Seen, VisibleRows(t.rows, uuid)), LocalItems(local), name);
  }

  /** Everything offered is clean and carries an empty or a canonical type. */
  ghost predicate CleanProbe(p: Probe) {
    CleanName(p.name) && CleanHost(p.host) && (p.typ == "" || p.typ in PROBE_TYPES)
  }

  lemma OfferedShape(t: Table, uuid: string, local: string)
    requires Ready(t, uuid, local)
    ensures forall p :: p in Offered(t.rows, uuid, local) ==> CleanProbe(p)
    ensures Parsable(Offered(t.rows, uuid, local))
  {
    LocalShape(local);
    FilterMembers(t.rows, VisibleFor(uuid));
    var vs := VisibleRows(t.rows, uuid);
    var seen := MapSeq(Seen, vs);
    forall p | p in seen ensures CleanProbe(p) {
      var k :| 0 <= k < |seen| && seen[k] == p;
      assert vs[k] in vs;
      SeenShape(vs[k]);
    }
  }

  // ---------- the echo, name by name ----------

  /** `after` is a row as a report leaves it: typed canonically, enabled and servable, under the id and the
      interval of the row it replaced, if there was one. */
  ghost predicate SettledRow(before: Option<Row>, after: Option<Row>) {
    after.Some? && after.value.typ in PROBE_TYPES && after.value.enabled && Servable(after.value)
    && (before.Some? ==> after.value.id == before.value.id && after.value.interval == before.value.interval)
  }

  /** One echo takes a name's own row to the winner among everything offered under that name, and leaves
      the global row and their age order as they were. */
  lemma EchoName(t: Table, uuid: string, local: string, name: string)
    requires Ready(t, uuid, local)
    ensures var t' := EchoOnce(t, uuid, local);
            var own, glob, own' := Own(t, uuid, name), Global(t, name), Own(t', uuid, name);
            && Global(t', name) == glob
            && SeenOpt(own') == Next(SeenOpt(own), SeenOpt(glob), Older(own, glob), Named(LocalItems(local), name))
            && Older(own', glob) == Older(own, glob)
            && (own'.Some? ==> SettledRow(own, own'))
            && (own.Some? || glob.Some? || Named(LocalItems(local), name) != [] ==> own'.Some?)
  {
    var offered := Offered(t.rows, uuid, local);
    var own, glob := Own(t, uuid, name), Global(t, name);
    ReportedIsOffered(t, uuid, local);
    OfferedShape(t, uuid, local);
    OfferedOfName(t, uuid, local, name);
    var t' := EchoOnce(t, uuid, local);
    ReceivedRows(t, uuid, Reported(t.rows, uuid, local));
    OtherClientsUnchanged(t, uuid, t', Key("*", name));
    ReceivedName(t, uuid, offered, name);
    var all := Named(offered, name);
    LookupMember(t.rows, Key("*", name));
    LookupMember(t'.rows, Key(uuid, name));
    if all != [] {
      WinningMember(all);
      var w := Winning(all);
      assert w in offered;
      OutcomeSeen(w, Own(t', uuid, name).value);
    }
  }

  lemma OutcomeSeen(w: Probe, after: Row)
    requires CleanProbe(w) && AsProbe(after) == Stored(w)
    ensures Servable(after) && after.typ in PROBE_TYPES && Seen(after) == Stored(w)
  {
    TypesArePlain(after.typ);
    SeenExactly(after);
  }

  lemma EchoReady(t: Table, uuid: string, local: string)
    requires Ready(t, uuid, local)
    ensures Ready(EchoOnce(t, uuid, local), uuid, local)
  {
    var t' := EchoOnce(t, uuid, local);
    ReceivedRows(t, uuid, Reported(t.rows, uuid, local));
    forall r | r in t'.rows && Visible(r, uuid) ensures Servable(r) {
      LookupUnique(t', r);
      EchoName(t, uuid, local, r.name);
      if r.client == "*" {
        LookupMember(t.rows, Key("*", r.name));
      }
    }
  }

  // ---------- when the loop settles ----------

  function StandingOf(t: Table, uuid: string, name: string): Standing {
    Standing(SeenOpt(Global(t, name)), Older(Own(t, uuid, name), Global(t, name)))
  }

  datatype Forecast = Settles | Oscillates

  /** The loop's fate, told from the table and the local list before the first echo: it settles unless
      some name is contested. */
  ghost function ForecastOf(t: Table, uuid: string, local: string): Forecast {
    if forall name :: !ContestedName(StandingOf(t, uuid, name), Named(LocalItems(local), name))
    then Settles
    else Oscillates
  }

  /** An echo leaves the standing of every name as it was. */
  lemma StandingStays(t: Table, uuid: string, local: string, name: string)
    requires Ready(t, uuid, local)
    ensures StandingOf(EchoOnce(t, uuid, local), uuid, name) == StandingOf(t, uuid, name)
  {
    EchoName(t, uuid, local, name);
  }

  lemma NameUnchanged(t: Table, uuid: string, local: string, name: string)
    requires Ready(t, uuid, local)
    ensures var t1 := EchoOnce(t, uuid, local);
            Own(EchoOnce(t1, uuid, local), uuid, name) == Own(t1, uuid, name)
            <==> !ContestedName(StandingOf(t, uuid, name), Named(LocalItems(local), name))
  {
    var t1 := EchoOnce(t, uuid, local);
    var t2 := EchoOnce(t1, uuid, local);
    var own, glob := Own(t, uuid, name), Global(t, name);
    var own1, own2 := Own(t1, uuid, name), Own(t2, uuid, name);
    EchoReady(t, uuid, local);
    EchoName(t, uuid, local, name);
    EchoName(t1, uuid, local, name);
    NameSettles(SeenOpt(own), SeenOpt(glob), Older(own, glob), Named(LocalItems(local), name));
    if own1.Some? && own2.Some? {
      SeenExactly(own1.value);
      SeenExactly(own2.value);
      LookupMember(t1.rows, Key(uuid, name));
      LookupMember(t2.rows, Key(uuid, name));
    }
  }

  /** Tables whose lookups agree on every own key, one extending the other, hold the same rows. */
  lemma SameRows(t: Table, uuid: string, t': Table)
    requires Valid(t) && Valid(t') && Extends(t, uuid, t')
    ensures t'.rows == t.rows <==> forall name :: Own(t', uuid, name) == Own(t, uuid, name)
  {
    var added := if |t'.rows| > |t.rows| then Some(t'.rows[|t.rows|]) else None;
    if forall name :: Own(t', uuid, name) == Own(t, uuid, name) {
      forall k | 0 <= k < |t'.rows| && t'.rows[k].client == uuid ensures t'.rows[k] in t.rows {
        LookupUnique(t', t'.rows[k]);
        assert Own(t', uuid, t'.rows[k].name) == Own(t, uuid, t'.rows[k].name);
        LookupMember(t.rows, KeyOf(t'.rows[k]));
      }
      forall k | 0 <= k < |t.rows| ensures t'.rows[k] == t.rows[k] {
        if t.rows[k].client == uuid {
          assert KeyOf(t'.rows[k]) == KeyOf(t.rows[k]);
          LookupUnique(t, t.rows[k]);
          LookupUnique(t', t'.rows[k]);
          assert Own(t', uuid, t.rows[k].name) == Own(t, uuid, t.rows[k].name);
        }
      }
      assert added.None?;
      assert t'.rows == t.rows;
    }
  }

  lemma NamesUnchanged(t: Table, uuid: string, local: string)
    requires Ready(t, uuid, local)
    ensures var t1 := EchoOnce(t, uuid, local);
            (forall name :: Own(EchoOnce(t1, uuid, local), uuid, name) == Own(t1, uuid, name))
            <==> ForecastOf(t, uuid, local) == Settles
  {
    var t1 := EchoOnce(t, uuid, local);
    forall name
      ensures Own(EchoOnce(t1, uuid, local), uuid, name) == Own(t1, uuid, name)
              <==> !ContestedName(StandingOf(t, uuid, name), Named(LocalItems(local), name))
    {
      NameUnchanged(t, uuid, local, name);
    }
  }

  lemma EchoExtends(t: Table, uuid: string, local: string)
    requires Ready(t, uuid, local)
    ensures var t' := EchoOnce(t, uuid, local);
            Ready(t', uuid, local) && Valid(t') && Extends(t, uuid, t')
  {
    EchoReady(t, uuid, local);
    ReceivedRows(t, uuid, Reported(t.rows, uuid, local));
  }

  /** The second echo changes nothing exactly when no name is contested. */
  lemma EchoIdempotent(t: Table, uuid: string, local: string)
    requires Ready(t, uuid, local)
    ensures var t1 := EchoOnce(t, uuid, local);
            EchoOnce(t1, uuid, local).rows == t1.rows <==> ForecastOf(t, uuid, local) == Settles
  {
    var t1 := EchoOnce(t, uuid, local);
    EchoExtends(t, uuid, local);
    EchoExtends(t1, uuid, local);
    SameRows(t1, uuid, EchoOnce(t1, uuid, local));
    NamesUnchanged(t, uuid, local);
  }

  lemma EchoTimesKeeps(t: Table, uuid: string, local: string, n: nat, name: string)
    requires Ready(t, uuid, local)
    ensures Ready(EchoTimes(t, uuid, local, n), uuid, local)
    ensures StandingOf(EchoTimes(t, uuid, local, n), uuid, name) == StandingOf(t, uuid, name)
  {
    var step := (x: Table) => EchoOnce(x, uuid, local);
    ghost var ready := (x: Table) => Ready(x, uuid, local);
    var standing := (x: Table) => StandingOf(x, uuid, name);
    forall x: Table | ready(x) ensures ready(step(x)) && standing(step(x)) == standing(x) {
      EchoReady(x, uuid, local);
      StandingStays(x, uuid, local, name);
    }
    IterateKeeps(step, ready, standing, t, n);
    assert ready(EchoTimes(t, uuid, local, n));
    assert standing(EchoTimes(t, uuid, local, n)) == standing(t);
  }

  lemma ForecastByStanding(t: Table, uuid: string, local: string, t': Table)
    requires forall name :: StandingOf(t', uuid, name) == StandingOf(t, uuid, name)
    ensures ForecastOf(t', uuid, local) == ForecastOf(t, uuid, local)
  {
  }

  lemma EchoTimesForecast(t: Table, uuid: string, local: string, n: nat)
    requires Ready(t, uuid, local)
    ensures Ready(EchoTimes(t, uuid, local, n), uuid, local)
    ensures ForecastOf(EchoTimes(t, uuid, local, n), uuid, local) == ForecastOf(t, uuid, local)
  {
    var later := EchoTimes(t, uuid, local, n);
    EchoTimesKeeps(t, uuid, local, n, "");
    forall name ensures StandingOf(later, uuid, name) == StandingOf(t, uuid, name) {
      EchoTimesKeeps(t, uuid, local, n, name);
    }
    ForecastByStanding(t, uuid, local, later);
  }

  lemma EchoTimesTwice(t: Table, uuid: string, local: string, n: nat)
    ensures EchoTimes(t, uuid, local, n + 1) == EchoOnce(EchoTimes(t, uuid, local, n), uuid, local)
    ensures EchoTimes(t, uuid, local, n + 2)
            == EchoOnce(EchoOnce(EchoTimes(t, uuid, local, n), uuid, local), uuid, local)
  {
  }

  /** Convergence of the loop, for every table and local list: from the first echo on, every further echo
      leaves the rows unchanged if no name is contested, and every further echo changes them if one is. */
  lemma EchoSettles(t: Table, uuid: string, local: string, n: nat)
    requires Ready(t, uuid, local)
    ensures EchoTimes(t, uuid, local, n + 2).rows == EchoTimes(t, uuid, local, n + 1).rows
            <==> ForecastOf(t, uuid, local) == Settles
  {
    EchoTimesForecast(t, uuid, local, n);
    EchoTimesTwice(t, uuid, local, n);
    EchoIdempotent(EchoTimes(t, uuid, local, n), uuid, local);
  }

  /** A plain sufficient condition: local names pairwise distinct and none of them global. */
  lemma DistinctLocalNamesSettle(t: Table, uuid: string, local: string, n: nat)
    requires Ready(t, uuid, local)
    requires forall p, q :: p in LocalItems(local) && q in LocalItems(local) && p.name == q.name ==> p == q
    requires forall p :: p in LocalItems(local) ==> Global(t, p.name).None?
    ensures EchoTimes(t, uuid, local, n + 2).rows == EchoTimes(t, uuid, local, n + 1).rows
  {
    forall name ensures !ContestedName(StandingOf(t, uuid, name), Named(LocalItems(local), name)) {
      if p :| p in Named(LocalItems(local), name) {
        assert Global(t, p.name).None?;
      }
    }
    EchoSettles(t, uuid, local, n);
  }

  /** Without it the loop can oscillate for ever: the node's own row for a name is older than the global
      one, and the local list names a target that is not the global one. */
  lemma ThirdTargetOscillates(t: Table, uuid: string, local: string, y: Probe, n: nat)
    requires Ready(t, uuid, local) && y in LocalItems(local)
    requires Older(Own(t, uuid, y.name), Global(t, y.name)) && Foreign(y, SeenOpt(Global(t, y.name)))
    ensures EchoTimes(t, uuid, local, n + 2).rows != EchoTimes(t, uuid, local, n + 1).rows
  {
    assert y in Named(LocalItems(local), y.name);
    assert ContestedName(StandingOf(t, uuid, y.name), Named(LocalItems(local), y.name));
    EchoSettles(t, uuid, local, n);
  }

  lemma LetterRow(r: Row, name: char, target: char)
    requires r.name == [name] && r.target == [target] && r.typ == "icmp"
    requires 'a' <= name <= 'z' && 'a' <= target <= 'z'
    ensures Servable(r) && Seen(r).host == [target]
  {
    LetterIsClean(name);
    LetterIsClean(target);
    TypesArePlain("icmp");
    SeenExactly(r);
  }

  lemma LetterLocal()
    ensures LocalItems("d:y") == [Probe("d", "y", "")]
  {
    var y := Probe("d", "y", "");
    LetterIsClean('d');
    LetterIsClean('y');
    assert PrintPart(y) == "d:y";
    PartRoundTrip(y);
    ItemsOne("d:y");
  }

  const OWN_FIRST: Row := Row(1, "n", "x", "icmp", "d", 60.0, true)
  const GLOBAL_SECOND: Row := Row(2, "*", "g", "icmp", "d", 60.0, true)

  lemma TwoRowsReady(own: Row, glob: Row, local: string, y: Probe)
    requires own.client != "*" && glob.client == "*" && own.id == 1 && glob.id == 2
    requires Servable(own) && Servable(glob)
    requires LocalItems(local) == [y] && '|' !in y.name
    ensures Ready(Table([own, glob], 2), own.client, local)
  {
    var t := Table([own, glob], 2);
    TwoRowsValid(own, glob);
    assert forall r :: r in t.rows ==> r == own || r == glob;
    assert forall p :: p in LocalItems(local) ==> p == y;
  }

  lemma TwoRowsValid(own: Row, glob: Row)
    requires own.client != glob.client && own.id == 1 && glob.id == 2
    ensures Valid(Table([own, glob], 2))
  {
    assert KeyOf(own).client != KeyOf(glob).client;
  }

  lemma ExampleReady()
    ensures Ready(Table([OWN_FIRST, GLOBAL_SECOND], 2), "n", "d:y")
    ensures Seen(GLOBAL_SECOND).host == "g"
  {
    assert OWN_FIRST.client[0] == 'n' && GLOBAL_SECOND.client[0] == '*';
    LetterLocal();
    LetterIsClean('d');
    LetterRow(OWN_FIRST, 'd', 'x');
    LetterRow(GLOBAL_SECOND, 'd', 'g');
    TwoRowsReady(OWN_FIRST, GLOBAL_SECOND, "d:y", Probe("d", "y", ""));
  }

  /** Such a table and local list exist. */
  lemma OscillationExample(n: nat)
    ensures var t := Table([OWN_FIRST, GLOBAL_SECOND], 2);
            EchoTimes(t, "n", "d:y", n + 2).rows != EchoTimes(t, "n", "d:y", n + 1).rows
  {
    ExampleReady();
    LetterLocal();
    assert "y"[0] != "g"[0];
    var t := Table([OWN_FIRST, GLOBAL_SECOND], 2);
    LookupUnique(t, OWN_FIRST);
    LookupUnique(t, GLOBAL_SECOND);
    ThirdTargetOscillates(t, "n", "d:y", Probe("d", "y", ""), n);
  }

  // ---------- names with commas ----------

  function CommaName(a: char, b: char): string {
    [a] + "," + [b]
  }

  /** A probe named q, and one whose name ends in `,q`. */
  function OwnQ(c: char): Probe {
    Probe(['q'], [c], "icmp")
  }

  function GlobalQ(a: char, c: char): Probe {
    Probe(CommaName(a, 'q'), [c], "icmp")
  }

  lemma PlainPiece(b: char, c: char)
    requires 'a' <= b <= 'z' && 'a' <= c <= 'z'
    ensures var p := Probe([b], [c], "icmp"); Items(Split(PrintPart(p), ',')) == [p]
  {
    var p := Probe([b], [c], "icmp");
    LetterIsClean(b);
    LetterIsClean(c);
    TypesArePlain("icmp");
    PartRoundTrip(p);
    assert ',' !in PrintPart(p);
    assert Split(PrintPart(p), ',') == [PrintPart(p)];
    ItemsOne(PrintPart(p));
  }

  lemma LetterIsNothing(a: char)
    requires 'a' <= a <= 'z'
    ensures Items([[a]]) == []
  {
    LetterIsClean(a);
    TrimShape([a]);
    assert SplitN([a], ':', 3) == [[a]];
    ItemsOne([a]);
  }

  /** On the wire a name with a comma falls in two: the part before it is dropped, the part behind it is read
      as the name. */
  lemma CommaPiece(a: char, b: char, c: char)
    requires 'a' <= a <= 'z' && 'a' <= b <= 'z' && 'a' <= c <= 'z'
    ensures Items(Split(PrintPart(Probe(CommaName(a, b), [c], "icmp")), ',')) == [Probe([b], [c], "icmp")]
  {
    var whole := PrintPart(Probe([b], [c], "icmp"));
    assert PrintPart(Probe(CommaName(a, b), [c], "icmp")) == [a] + "," + whole;
    LetterIsClean(a);
    SplitHead([a], ',', whole);
    PlainPiece(b, c);
    LetterIsNothing(a);
    ItemsConcat([[a]], Split(whole, ','));
  }

  /** A node's own task q, and two global tasks whose names end in `,q`. */
  function CommaTable(c: char, mark: nat): Table {
    Table([Row(1, "n", [c], "icmp", "q", 60.0, true),
           Row(2, "*", "h", "icmp", CommaName('p', 'q'), 60.0, true),
           Row(3, "*", "k", "icmp", CommaName('r', 'q'), 60.0, true)], mark)
  }

  lemma CommaServed(c: char, mark: nat)
    ensures Served(CommaTable(c, mark).rows, "n") == [OwnQ(c), GlobalQ('p', 'h'), GlobalQ('r', 'k')]
  {
    var rows := CommaTable(c, mark).rows;
    FilterAll(rows, VisibleFor("n"));
    assert MapSeq(AsProbe, rows) == [OwnQ(c), GlobalQ('p', 'h'), GlobalQ('r', 'k')];
  }

  lemma PrintThree(a: Probe, b: Probe, c: Probe)
    requires a.name != "" && b.name != "" && c.name != "" && a.host != "" && b.host != "" && c.host != ""
    ensures Print([a, b, c]) == PrintPart(a) + "," + (PrintPart(b) + "," + PrintPart(c))
  {
    PrintedParts([a, b, c]);
    var parts := PrintParts([a, b, c]);
    assert parts == [PrintPart(a), PrintPart(b), PrintPart(c)];
    var rest := parts[1..];
    assert rest == [PrintPart(b), PrintPart(c)] && rest[1..] == [PrintPart(c)];
    assert Join(rest[1..], ',') == PrintPart(c);
    assert Join(rest, ',') == PrintPart(b) + "," + PrintPart(c);
  }

  lemma ItemsThree(a: string, b: string, c: string)
    ensures Items(Split(a + "," + (b + "," + c) + "," + "", ','))
            == Items(Split(a, ',')) + (Items(Split(b, ',')) + Items(Split(c, ',')))
  {
    SplitConcat(a + "," + (b + "," + c), ',', "");
    SplitConcat(a, ',', b + "," + c);
    SplitConcat(b, ',', c);
    assert Split("", ',') == [""];
    ItemsOne("");
    ItemsConcat(Split(a, ',') + (Split(b, ',') + Split(c, ',')), [""]);
    ItemsConcat(Split(a, ','), Split(b, ',') + Split(c, ','));
    ItemsConcat(Split(b, ','), Split(c, ','));
  }

  predicate Printed(p: Probe) {
    p.name != "" && p.host != ""
  }

  /** Three served tasks, each of which reads back as one probe. */
  lemma ReportedThree(rows: seq<Row>, uuid: string, a: Probe, b: Probe, c: Probe, x: Probe, y: Probe, z: Probe)
    requires Served(rows, uuid) == [a, b, c] && Printed(a) && Printed(b) && Printed(c)
    requires Items(Split(PrintPart(a), ',')) == [x] && Items(Split(PrintPart(b), ',')) == [y]
    requires Items(Split(PrintPart(c), ',')) == [z]
    ensures Reported(rows, uuid, "") == Dedupe([x, y, z])
  {
    PrintThree(a, b, c);
    ParseIsDedupe(Print([a, b, c]) + "," + "");
    ItemsThree(PrintPart(a), PrintPart(b), PrintPart(c));
    assert [x] + ([y] + [z]) == [x, y, z];
  }

  lemma PieceOfOwn(c: char)
    requires 'a' <= c <= 'z'
    ensures Items(Split(PrintPart(OwnQ(c)), ',')) == [OwnQ(c)]
  {
    PlainPiece('q', c);
  }

  lemma PieceOfGlobal(a: char, c: char)
    requires 'a' <= a <= 'z' && 'a' <= c <= 'z'
    ensures Items(Split(PrintPart(GlobalQ(a, c)), ',')) == [OwnQ(c)]
  {
    CommaPiece(a, 'q', c);
  }

  lemma ThreeQs(c: char, d: char, e: char)
    ensures MapSeq(OwnQ, [c, d, e]) == [OwnQ(c), OwnQ(d), OwnQ(e)]
  {
  }

  /** All three are reported under the name q. */
  lemma CommaReported(c: char, mark: nat)
    requires 'a' <= c <= 'z'
    ensures Reported(CommaTable(c, mark).rows, "n", "") == Dedupe(MapSeq(OwnQ, [c, 'h', 'k']))
  {
    var g, h := GlobalQ('p', 'h'), GlobalQ('r', 'k');
    CommaServed(c, mark);
    PieceOfOwn(c);
    PieceOfGlobal('p', 'h');
    PieceOfGlobal('r', 'k');
    ReportedThree(CommaTable(c, mark).rows, "n", OwnQ(c), g, h, OwnQ(c), OwnQ('h'), OwnQ('k'));
    ThreeQs(c, 'h', 'k');
  }

  lemma SameQ(c: char, d: char)
    ensures Wire.Key(OwnQ(c)) == Wire.Key(OwnQ(d)) <==> c == d
  {
    assert OwnQ(c).host[0] == c && OwnQ(d).host[0] == d;
    KeyInjective(OwnQ(c), OwnQ(d));
  }

  lemma KeysOfQs(ds: seq<char>, d: char)
    ensures Wire.Key(OwnQ(d)) in Keys(MapSeq(OwnQ, ds)) <==> d in ds
  {
    var ps := MapSeq(OwnQ, ds);
    forall i | 0 <= i < |ps| ensures Wire.Key(ps[i]) == Wire.Key(OwnQ(d)) <==> ds[i] == d {
      SameQ(ds[i], d);
    }
    if d in ds {
      var i :| 0 <= i < |ds| && ds[i] == d;
      assert Wire.Key(ps[i]) in Keys(ps);
    }
  }

  /** The first occurrence of each target. */
  function Firsts(ds: seq<char>): seq<char> {
    if ds == [] then []
    else
      var init, d := ds[..|ds| - 1], ds[|ds| - 1];
      if d in init then Firsts(init) else Firsts(init) + [d]
  }

  lemma {:induction false} DedupeQs(ds: seq<char>)
    ensures Dedupe(MapSeq(OwnQ, ds)) == MapSeq(OwnQ, Firsts(ds))
  {
    if ds == [] {
    } else {
      var init, d := ds[..|ds| - 1], ds[|ds| - 1];
      assert MapSeq(OwnQ, ds) == MapSeq(OwnQ, init) + [OwnQ(d)];
      DedupeQs(init);
      DedupeSnoc(MapSeq(OwnQ, init), OwnQ(d));
      KeysOfQs(init, d);
      assert MapSeq(OwnQ, Firsts(init) + [d]) == MapSeq(OwnQ, Firsts(init)) + [OwnQ(d)];
    }
  }

  lemma FirstsOfThree(c: char)
    ensures Firsts([c, 'h', 'k']) == if c == 'h' then ['h', 'k'] else if c == 'k' then ['k', 'h'] else [c, 'h', 'k']
  {
    assert [c, 'h', 'k'][..2] == [c, 'h'] && [c, 'h'][..1] == [c] && [c][..0] == [];
    assert Firsts([c]) == [c];
    assert Firsts([c, 'h']) == if c == 'h' then [c] else [c, 'h'];
  }

  lemma ReceiveQ(c: char, d: char, mark: nat)
    ensures Receive(CommaTable(c, mark), "n", OwnQ(d)) == CommaTable(d, mark + 1)
  {
    assert Find(CommaTable(c, mark).rows, Key("n", "q")) == 0;
  }

  lemma {:induction false} ReceiveQs(c: char, ds: seq<char>, mark: nat)
    requires ds != []
    ensures ReceiveAll(CommaTable(c, mark), "n", MapSeq(OwnQ, ds)) == CommaTable(ds[|ds| - 1], mark + |ds|)
  {
    var ps, init := MapSeq(OwnQ, ds), ds[..|ds| - 1];
    assert ps[..|ps| - 1] == MapSeq(OwnQ, init);
    if init == [] {
      ReceiveQ(c, ds[|ds| - 1], mark);
    } else {
      ReceiveQs(c, init, mark);
      ReceiveQ(init[|init| - 1], ds[|ds| - 1], mark + |init|);
    }
  }

  function NextChar(c: char): char {
    if c == 'k' then 'h' else 'k'
  }

  function NextMark(c: char, mark: nat): nat {
    mark + (if c == 'x' then 3 else 2)
  }

  /** One echo takes the own row to k, and from k to h. */
  lemma CommaEcho(c: char, mark: nat)
    requires c == 'x' || c == 'h' || c == 'k'
    ensures EchoOnce(CommaTable(c, mark), "n", "") == CommaTable(NextChar(c), NextMark(c, mark))
  {
    CommaReported(c, mark);
    DedupeQs([c, 'h', 'k']);
    FirstsOfThree(c);
    ReceiveQs(c, Firsts([c, 'h', 'k']), mark);
  }

  function CharAt(n: nat): char {
    if n == 0 then 'x' else if n % 2 == 1 then 'k' else 'h'
  }

  function MarkAt(n: nat): nat {
    if n == 0 then 3 else 4 + 2 * n
  }

  /** The table after n echoes. */
  function CommaState(n: nat): Table {
    CommaTable(CharAt(n), MarkAt(n))
  }

  lemma CommaStep(n: nat)
    ensures EchoOnce(CommaState(n), "n", "") == CommaState(n + 1)
  {
    var c, mark := CharAt(n), MarkAt(n);
    assert NextChar(c) == CharAt(n + 1) && NextMark(c, mark) == MarkAt(n + 1);
    CommaEcho(c, mark);
  }

  lemma CommaRun(n: nat)
    ensures EchoTimes(CommaTable('x', 3), "n", "", n) == CommaState(n)
  {
    var step := (x: Table) => EchoOnce(x, "n", "");
    forall k: nat ensures step(CommaState(k)) == CommaState(k + 1) {
      CommaStep(k);
    }
    IterateFollows(step, CommaState, n);
  }

  lemma CommaStatesDiffer(n: nat)
    ensures CommaState(n + 2).rows != CommaState(n + 1).rows
  {
    assert "k"[0] != "h"[0];
    assert CommaState(n + 2).rows[0].target != CommaState(n + 1).rows[0].target;
  }

  /** Why the names must be clean: no name of this table is contested, there is no local list, and yet the
      node's row goes from k to h and back for ever. */
  lemma CommaNamesOscillate(n: nat)
    ensures var t := CommaTable('x', 3);
            && Valid(t) && ForecastOf(t, "n", "") == Settles
            && EchoTimes(t, "n", "", n + 2).rows != EchoTimes(t, "n", "", n + 1).rows
  {
    CommaValid();
    CommaForecast();
    CommaRun(n + 1);
    CommaRun(n + 2);
    CommaStatesDiffer(n);
  }

  lemma ThreeRowsValid(a: Row, b: Row, c: Row)
    requires a.id == 1 && b.id == 2 && c.id == 3 && a.client != b.client && a.client != c.client && b.name != c.name
    ensures Valid(Table([a, b, c], 3))
  {
    assert KeyOf(a).client != KeyOf(b).client && KeyOf(a).client != KeyOf(c).client && KeyOf(b).name != KeyOf(c).name;
  }

  lemma CommaValid()
    ensures Valid(CommaTable('x', 3))
  {
    var rows := CommaTable('x', 3).rows;
    assert rows[0].client[0] == 'n' && rows[1].client[0] == rows[2].client[0] == '*';
    assert rows[1].name[0] == 'p' && rows[2].name[0] == 'r';
    ThreeRowsValid(rows[0], rows[1], rows[2]);
    assert rows == [rows[0], rows[1], rows[2]];
  }

  lemma CommaForecast()
    ensures ForecastOf(CommaTable('x', 3), "n", "") == Settles
  {
    assert Split("", ',') == [""];
    ItemsOne("");
    assert LocalItems("") == [];
  }

  // ---------- types that do not survive the wire ----------

  /** A row of a node that no global task and no local entry shares its name with: what one echo leaves of
      it is what the agent read, under the old id and interval. */
  lemma OwnRowEchoed(t: Table, uuid: string, local: string, r: Row)
    requires Ready(t, uuid, local) && r in t.rows && r.client == uuid
    requires Global(t, r.name).None? && Named(LocalItems(local), r.name) == []
    ensures Own(EchoOnce(t, uuid, local), uuid, r.name)
            == Some(r.(target := Seen(r).host, typ := NormalType(Seen(r).typ), enabled := true))
  {
    var t', own' := EchoOnce(t, uuid, local), Own(EchoOnce(t, uuid, local), uuid, r.name);
    LookupUnique(t, r);
    EchoName(t, uuid, local, r.name);
    WinningPair(Seen(r), Seen(r));
    assert [Seen(r)] + [] == [Seen(r)];
    LookupMember(t'.rows, Key(uuid, r.name));
    SeenShape(r);
    SeenExactly(own'.value);
  }

  /** A node's own task of one of the six types the agent knows, with nothing else of its name, comes back from
      every echo as it was, but enabled. */
  lemma KnownTypeStays(t: Table, uuid: string, local: string, r: Row)
    requires Ready(t, uuid, local) && r in t.rows && r.client == uuid
    requires Global(t, r.name).None? && Named(LocalItems(local), r.name) == []
    requires r.typ in {"icmp", "ping", "tcp", "http", "https", "dns"}
    ensures Own(EchoOnce(t, uuid, local), uuid, r.name) == Some(r.(enabled := true))
  {
    assert r.typ in PROBE_TYPES;
    OwnRowEchoed(t, uuid, local, r);
    SeenExactly(r);
  }

  /** A row as the wire leaves it: a known type in its canonical spelling, an unknown one in the target. */
  function Moved(r: Row): Row {
    if Recognised(Head(r.typ))
    then r.(target := Trim(TargetBehind(r.typ, r.target)), typ := Canonical(Head(r.typ)))
    else r.(target := Trim(r.typ + ":" + r.target), typ := "icmp")
  }

  /** A type in another spelling is put into the canonical one; a type the agent does not know moves into the
      target, and the row becomes an icmp probe of that. */
  lemma ForeignTypeMoves(t: Table, uuid: string, local: string, r: Row)
    requires Ready(t, uuid, local) && r in t.rows && r.client == uuid
    requires Global(t, r.name).None? && Named(LocalItems(local), r.name) == []
    ensures Own(EchoOnce(t, uuid, local), uuid, r.name)
            == Some(Moved(r).(enabled := true))
  {
    OwnRowEchoed(t, uuid, local, r);
    SeenBack(r);
    if Recognised(Head(r.typ)) {
      TypesArePlain(Canonical(Head(r.typ)));
    }
  }

  lemma SeenBack(r: Row)
    requires Servable(r)
    ensures Seen(r) == if Recognised(Head(r.typ))
                       then Probe(r.name, Trim(TargetBehind(r.typ, r.target)), Canonical(Head(r.typ)))
                       else Probe(r.name, Trim(r.typ + ":" + r.target), "")
  {
    ReadBack(AsProbe(r));
  }

  const FOREIGN: Row := Row(1, "n", "h", "foo", "d", 60.0, true)

  lemma ForeignReady()
    ensures Ready(Table([FOREIGN], 1), "n", "") && LocalItems("") == []
  {
    LetterIsClean('d');
    LetterIsClean('h');
    assert "n"[0] == 'n' && "*"[0] == '*';
    assert Split("", ',') == [""];
    ItemsOne("");
    assert forall r :: r in Table([FOREIGN], 1).rows ==> r == FOREIGN;
  }

  /** A task "d" of type foo and target h ends up, after one echo, as an icmp task of target foo:h. */
  lemma ForeignTypeExample()
    ensures Own(EchoOnce(Table([FOREIGN], 1), "n", ""), "n", "d") == Some(Row(1, "n", "foo:h", "icmp", "d", 60.0, true))
  {
    var t := Table([FOREIGN], 1);
    ForeignReady();
    LookupMember(t.rows, Key("*", "d"));
    assert "n"[0] == 'n' && "*"[0] == '*';
    ForeignTypeMoves(t, "n", "", FOREIGN);
    ForeignMoved();
  }

  lemma ForeignMoved()
    ensures Moved(FOREIGN) == Row(1, "n", "foo:h", "icmp", "d", 60.0, true)
  {
    FooIsForeign();
    FooText();
  }
}
