/** The two history tables, `status_history` and `probe_records` (internal/store/adapters.go,
    internal/store/retention.go, internal/store/records.go): inserts, retention, node deletion, the latest
    status per client, and the windowed queries. Rows stand in rowid order; times are compared as text. */
module History {
  import opened Text
  import opened Timestamps

  datatype Record<P> = Record(client: string, time: string, data: P)

  /** The measurements of one status report. */
  datatype Report = Report(values: seq<real>)

  /** One probe result; a negative value is a lost probe. */
  datatype Result = Result(taskId: int, value: real)

  // ---------- the statements ----------

  function NotOlder<P>(cutoff: string): Record<P> -> bool {
    (r: Record<P>) => !Less(r.time, cutoff)
  }

  function NotOf<P>(client: string): Record<P> -> bool {
    (r: Record<P>) => r.client != client
  }

  /** The newest row of each client: the last one in rowid order. */
  function Latest<P>(rows: seq<Record<P>>): map<string, Record<P>> {
    if rows == [] then map[] else Latest(rows[..|rows| - 1])[rows[|rows| - 1].client := rows[|rows| - 1]]
  }

  method DeleteOlder<P>(rows: seq<Record<P>>, cutoff: string) returns (kept: seq<Record<P>>, affected: nat)
    ensures kept == Filter(rows, NotOlder(cutoff)) && affected == |rows| - |kept|
  {
    kept, affected := [], 0;
    for i := 0 to |rows|
      invariant kept == Filter(rows[..i], NotOlder(cutoff)) && affected == i - |kept|
    {
      assert rows[..i + 1][..i] == rows[..i];
      if Less(rows[i].time, cutoff) {
        affected := affected + 1;
      } else {
        kept := kept + [rows[i]];
      }
    }
    assert rows[..|rows|] == rows;
  }

  class HistoryStore {
    var status: seq<Record<Report>>
    var probes: seq<Record<Result>>

    /** The uuids in the `nodes` table. */
    var nodes: set<string>

    /** Every client with a status is a node. */
    ghost predicate Registered()
      reads this
    {
      forall r :: r in status ==> r.client in nodes
    }

    constructor ()
      ensures Registered() && status == [] && probes == [] && nodes == {}
    {
      status, probes, nodes := [], [], {};
    }

    /** The key part of UpsertNode; the node's other fields are not modelled. */
    method UpsertNode(uuid: string)
      modifies this`nodes
      ensures nodes == old(nodes) + {uuid}
    {
      nodes := nodes + {uuid};
    }

    /** What the agent endpoint does with a report before its probes: the node is there before its status. */
    method ReceiveStatus(uuid: string, now: string, st: Report)
      modifies this`nodes, this`status
      ensures old(Registered()) ==> Registered()
      ensures nodes == old(nodes) + {uuid} && status == old(status) + [Record(uuid, now, st)]
    {
      UpsertNode(uuid);
      InsertStatus(uuid, now, st);
    }

    method InsertStatus(uuid: string, now: string, st: Report)
      modifies this`status
      ensures status == old(status) + [Record(uuid, now, st)]
    {
      status := status + [Record(uuid, now, st)];
    }

    method InsertProbe(client: string, taskId: int, time: string, value: real)
      modifies this`probes
      ensures probes == old(probes) + [Record(client, time, Result(taskId, value))]
    {
      probes := probes + [Record(client, time, Result(taskId, value))];
    }

    /** Purge; `cutoffOf(d)` is the text of the clock d days ago. It deletes exactly the rows older than the
        cutoff from both tables and returns how many those were. */
    method Purge(retainDays: int, cutoffOf: int -> string) returns (purged: nat)
      modifies this`status, this`probes
      ensures old(Registered()) ==> Registered()
      ensures var cutoff := cutoffOf(if retainDays <= 0 then 30 else retainDays);
              && status == Filter(old(status), NotOlder(cutoff))
              && probes == Filter(old(probes), NotOlder(cutoff))
      ensures purged == |old(status)| + |old(probes)| - |status| - |probes|
    {
      var days := retainDays;
      if days <= 0 { days := 30; }
      var cutoff := cutoffOf(days);
      var n, n2;
      FilterMembers(status, NotOlder(cutoff));
      status, n := DeleteOlder(status, cutoff);
      probes, n2 := DeleteOlder(probes, cutoff);
      purged := n + n2;
    }

    /** AdminDeleteNode: the node's status rows and the node go; its probe records stay. */
    method AdminDeleteNode(uuid: string)
      modifies this`status, this`nodes
      ensures old(Registered()) ==> Registered()
      ensures status == Filter(old(status), NotOf(uuid)) && nodes == old(nodes) - {uuid}
    {
      var kept := [];
      for i := 0 to |status|
        invariant status == old(status) && nodes == old(nodes)
        invariant kept == Filter(status[..i], NotOf(uuid))
      {
        assert status[..i + 1][..i] == status[..i];
        if status[i].client != uuid {
          kept := kept + [status[i]];
        }
      }
      assert status[..|status|] == status;
      FilterMembers(status, NotOf(uuid));
      status := kept;
      nodes := nodes - {uuid};
    }

    /** The status part of LatestStatus. */
    method LatestStatus() returns (out: map<string, Record<Report>>)
      ensures out == Latest(status)
    {
      out := map[];
      for i := 0 to |status|
        invariant out == Latest(status[..i])
      {
        assert status[..i + 1][..i] == status[..i];
        out := out[status[i].client := status[i]];
      }
      assert status[..|status|] == status;
    }
  }

  /** Row i is the client's row of the greatest rowid. */
  ghost predicate NewestRow<P>(rows: seq<Record<P>>, i: nat, client: string) {
    i < |rows| && rows[i].client == client && forall j :: i < j < |rows| ==> rows[j].client != client
  }

  /** `Latest` is the grouped query: a client has an entry exactly when it has a row, and the entry is its
      row of the greatest rowid. */
  lemma {:induction false} LatestIsMaxRowid<P>(rows: seq<Record<P>>, client: string)
    ensures client in Latest(rows) <==> exists r :: r in rows && r.client == client
    ensures client in Latest(rows) ==> exists i: nat :: NewestRow(rows, i, client)
    ensures forall i: nat :: NewestRow(rows, i, client) ==> client in Latest(rows) && Latest(rows)[client] == rows[i]
  {
    if rows == [] {
    } else {
      var n := |rows| - 1;
      var init, last := rows[..n], rows[n];
      assert rows == init + [last];
      LatestIsMaxRowid(init, client);
      if last.client == client {
        assert NewestRow(rows, n, client);
      } else {
        assert forall i: nat :: NewestRow(rows, i, client) <==> NewestRow(init, i, client);
      }
    }
  }

  // ---------- latest status over any run ----------

  datatype Op<P> = Insert(row: Record<P>) | Purge(cutoff: string) | DeleteNode(client: string)

  function Do<P>(rows: seq<Record<P>>, op: Op<P>): seq<Record<P>> {
    match op
    case Insert(r) => rows + [r]
    case Purge(cutoff) => Filter(rows, NotOlder(cutoff))
    case DeleteNode(c) => Filter(rows, NotOf(c))
  }

  function Run<P>(ops: seq<Op<P>>): seq<Record<P>> {
    if ops == [] then [] else Do(Run(ops[..|ops| - 1]), ops[|ops| - 1])
  }

  /** The clock does not go back between inserts. */
  ghost predicate SteadyClock<P>(ops: seq<Op<P>>) {
    forall i, j :: 0 <= i < j < |ops| && ops[i].Insert? && ops[j].Insert? ==> AtMost(ops[i].row.time, ops[j].row.time)
  }

  ghost predicate InTimeOrder<P>(rows: seq<Record<P>>) {
    forall i, j :: 0 <= i < j < |rows| ==> AtMost(rows[i].time, rows[j].time)
  }

  lemma {:induction false} FilterInOrder<P>(rows: seq<Record<P>>, keep: Record<P> -> bool)
    requires InTimeOrder(rows)
    ensures InTimeOrder(Filter(rows, keep))
  {
    if rows == [] {
    } else {
      var n := |rows| - 1;
      var init, last := rows[..n], rows[n];
      FilterInOrder(init, keep);
      FilterMembers(init, keep);
      var rest := Filter(init, keep);
      forall i | 0 <= i < |rest| ensures AtMost(rest[i].time, last.time) {
        assert rest[i] in rest;
        var k :| 0 <= k < n && init[k] == rest[i];
        assert AtMost(rows[k].time, rows[n].time);
      }
    }
  }

  /** Rows stem from inserts and stand in time order. */
  lemma {:induction false} RunInOrder<P>(ops: seq<Op<P>>)
    requires SteadyClock(ops)
    ensures InTimeOrder(Run(ops))
    ensures forall r :: r in Run(ops) ==> Insert(r) in ops
  {
    if ops == [] {
    } else {
      var init, op := ops[..|ops| - 1], ops[|ops| - 1];
      assert ops == init + [op];
      RunInOrder(init);
      var rows := Run(init);
      match op
      case Insert(r) =>
        forall i | 0 <= i < |rows| ensures AtMost(rows[i].time, r.time) {
          assert Insert(rows[i]) in init;
          var k :| 0 <= k < |init| && init[k] == Insert(rows[i]);
          assert ops[k] == Insert(rows[i]) && ops[|ops| - 1] == op;
        }
      case Purge(cutoff) =>
        FilterInOrder(rows, NotOlder(cutoff));
        FilterMembers(rows, NotOlder(cutoff));
        assert forall r :: r in Run(ops) ==> r in rows;
      case DeleteNode(c) =>
        FilterInOrder(rows, NotOf(c));
        FilterMembers(rows, NotOf(c));
    }
  }

  function NotOlderEntries<P>(m: map<string, Record<P>>, cutoff: string): map<string, Record<P>> {
    map c | c in m && !Less(m[c].time, cutoff) :: m[c]
  }

  lemma {:induction false} LatestMembers<P>(rows: seq<Record<P>>)
    ensures forall c :: c in Latest(rows) ==> Latest(rows)[c] in rows && Latest(rows)[c].client == c
  {
    if rows == [] {
    } else {
      LatestMembers(rows[..|rows| - 1]);
    }
  }

  /** Retention and "latest" commute, because the rows are in time order: a purge either keeps a client's
      newest row or removes every row of the client. */
  lemma {:induction false} LatestOfPurged<P>(rows: seq<Record<P>>, cutoff: string)
    requires InTimeOrder(rows)
    ensures Latest(Filter(rows, NotOlder(cutoff))) == NotOlderEntries(Latest(rows), cutoff)
  {
    if rows == [] {
    } else {
      var n := |rows| - 1;
      var init, last := rows[..n], rows[n];
      LatestOfPurged(init, cutoff);
      assert rows == init + [last];
      FilterSnoc(init, last, NotOlder(cutoff));
      if Less(last.time, cutoff) {
        NothingSurvives(rows, cutoff);
      } else {
        LatestSnoc(Filter(init, NotOlder(cutoff)), last);
        EntriesWith(Latest(init), last, cutoff);
      }
    }
  }

  lemma EntriesWith<P>(m: map<string, Record<P>>, r: Record<P>, cutoff: string)
    requires !Less(r.time, cutoff)
    ensures NotOlderEntries(m[r.client := r], cutoff) == NotOlderEntries(m, cutoff)[r.client := r]
  {
  }

  lemma NothingSurvives<P>(rows: seq<Record<P>>, cutoff: string)
    requires InTimeOrder(rows) && rows != [] && Less(rows[|rows| - 1].time, cutoff)
    ensures Filter(rows, NotOlder(cutoff)) == [] && NotOlderEntries(Latest(rows), cutoff) == map[]
  {
    var last := rows[|rows| - 1];
    forall r | r in rows ensures Less(r.time, cutoff) {
      var k :| 0 <= k < |rows| && rows[k] == r;
      if k < |rows| - 1 {
        assert AtMost(r.time, last.time);
        AtMostThenLess(r.time, last.time, cutoff);
      }
    }
    FilterNone(rows, NotOlder(cutoff));
    LatestMembers(rows);
  }

  lemma AtMostThenLess(a: string, b: string, c: string)
    requires AtMost(a, b) && Less(b, c)
    ensures Less(a, c)
  {
    LessTotal(a, b);
    if a != b {
      LessTransitive(a, b, c);
    }
  }

  lemma {:induction false} LatestWithout<P>(rows: seq<Record<P>>, client: string)
    ensures Latest(Filter(rows, NotOf(client))) == Latest(rows) - {client}
  {
    if rows == [] {
    } else {
      var init, last := rows[..|rows| - 1], rows[|rows| - 1];
      LatestWithout(init, client);
      assert rows == init + [last];
      FilterSnoc(init, last, NotOf(client));
      LatestSnoc(init, last);
      LatestSnoc(Filter(init, NotOf(client)), last);
      WithoutKey(Latest(init), last, client);
    }
  }

  lemma WithoutKey<P>(m: map<string, Record<P>>, r: Record<P>, client: string)
    ensures m[r.client := r] - {client}
            == if r.client == client then m - {client} else (m - {client})[r.client := r]
  {
  }

  lemma LatestSnoc<P>(rows: seq<Record<P>>, r: Record<P>)
    ensures Latest(rows + [r]) == Latest(rows)[r.client := r]
  {
    assert (rows + [r])[..|rows|] == rows;
  }

  /** A store that kept only one row per client. */
  function DoLatest<P>(m: map<string, Record<P>>, op: Op<P>): map<string, Record<P>> {
    match op
    case Insert(r) => m[r.client := r]
    case Purge(cutoff) => NotOlderEntries(m, cutoff)
    case DeleteNode(c) => m - {c}
  }

  function RunLatest<P>(ops: seq<Op<P>>): map<string, Record<P>> {
    if ops == [] then map[] else DoLatest(RunLatest(ops[..|ops| - 1]), ops[|ops| - 1])
  }

  /** The history table answers "latest" exactly like a store of one row per client. */
  lemma {:induction false} LatestOverRuns<P>(ops: seq<Op<P>>)
    requires SteadyClock(ops)
    ensures Latest(Run(ops)) == RunLatest(ops)
  {
    if ops == [] {
    } else {
      var init, op := ops[..|ops| - 1], ops[|ops| - 1];
      LatestOverRuns(init);
      RunInOrder(init);
      match op
      case Insert(r) => LatestSnoc(Run(init), r);
      case Purge(cutoff) => LatestOfPurged(Run(init), cutoff);
      case DeleteNode(c) => LatestWithout(Run(init), c);
    }
  }

  /** The k-th operation inserted the client's newest report: it has no later report and was not deleted. */
  ghost predicate NewestReport<P>(ops: seq<Op<P>>, k: nat, client: string) {
    && k < |ops| && ops[k].Insert? && ops[k].row.client == client
    && forall j :: k < j < |ops| ==> !(ops[j].Insert? && ops[j].row.client == client) && ops[j] != DeleteNode(client)
  }

  ghost predicate NotPurged<P>(ops: seq<Op<P>>, k: nat)
    requires k < |ops| && ops[k].Insert?
  {
    forall j :: k < j < |ops| && ops[j].Purge? ==> !Less(ops[k].row.time, ops[j].cutoff)
  }

  /** In every run a client's latest status is its most recently inserted report, or it has no entry at
      all: never an older report. It has one exactly when that report came after the last deletion of the
      node and is not older than any cutoff purged since. */
  lemma {:induction false} LatestIsNewestReport<P>(ops: seq<Op<P>>, client: string)
    requires SteadyClock(ops)
    ensures client in Latest(Run(ops)) <==> exists k: nat :: NewestReport(ops, k, client) && NotPurged(ops, k)
    ensures forall k: nat :: NewestReport(ops, k, client) && client in Latest(Run(ops)) ==>
              Latest(Run(ops))[client] == ops[k].row
  {
    LatestOverRuns(ops);
    RunLatestExplained(ops, client);
  }

  lemma {:induction false} RunLatestExplained<P>(ops: seq<Op<P>>, client: string)
    ensures client in RunLatest(ops) <==> exists k: nat :: NewestReport(ops, k, client) && NotPurged(ops, k)
    ensures forall k: nat :: NewestReport(ops, k, client) && client in RunLatest(ops) ==>
              RunLatest(ops)[client] == ops[k].row
  {
    if ops == [] {
    } else {
      var n := |ops| - 1;
      var init, op := ops[..n], ops[n];
      RunLatestExplained(init, client);
      forall k: nat | k < n ensures
        NewestReport(ops, k, client)
        <==> NewestReport(init, k, client) && !(op.Insert? && op.row.client == client) && op != DeleteNode(client)
      {
        NewestEarlier(ops, k, client);
      }
      forall k: nat | k < n && ops[k].Insert? ensures
        NotPurged(ops, k) <==> NotPurged(init, k) && (op.Purge? ==> !Less(ops[k].row.time, op.cutoff))
      {
        NotPurgedEarlier(ops, k);
      }
      if op.Insert? && op.row.client == client {
        assert NewestReport(ops, n, client) && NotPurged(ops, n);
      } else if k: nat :| NewestReport(init, k, client) && NotPurged(init, k) {
        assert RunLatest(init)[client] == init[k].row;
      }
    }
  }

  lemma NewestEarlier<P>(ops: seq<Op<P>>, k: nat, client: string)
    requires k + 1 < |ops|
    ensures var init, op := ops[..|ops| - 1], ops[|ops| - 1];
            NewestReport(ops, k, client)
            <==> NewestReport(init, k, client) && !(op.Insert? && op.row.client == client) && op != DeleteNode(client)
  {
    var init := ops[..|ops| - 1];
    assert forall j :: 0 <= j < |init| ==> init[j] == ops[j];
  }

  lemma NotPurgedEarlier<P>(ops: seq<Op<P>>, k: nat)
    requires k + 1 < |ops| && ops[k].Insert?
    ensures var init, op := ops[..|ops| - 1], ops[|ops| - 1];
            NotPurged(ops, k) <==> NotPurged(init, k) && (op.Purge? ==> !Less(ops[k].row.time, op.cutoff))
  {
    var init := ops[..|ops| - 1];
    assert forall j :: 0 <= j < |init| ==> init[j] == ops[j];
  }

  /** A steady clock, told by the stamps it prints. */
  lemma StampedRunsAreSteady<P>(ops: seq<Op<P>>, stamps: seq<Stamp>, zone: string)
    requires |stamps| == |ops| && forall k :: 0 <= k < |ops| ==> Valid(stamps[k])
    requires forall k :: 0 <= k < |ops| && ops[k].Insert? ==> ops[k].row.time == Print(stamps[k], zone)
    requires forall i, j :: 0 <= i < j < |ops| ==> Instant(stamps[i]) <= Instant(stamps[j])
    ensures SteadyClock(ops)
  {
    forall i, j | 0 <= i < j < |ops| && ops[i].Insert? && ops[j].Insert?
      ensures AtMost(ops[i].row.time, ops[j].row.time)
    {
      PrintOrder(stamps[i], stamps[j], zone);
    }
  }

  /** With stamped rows a purge keeps exactly the rows not before the cutoff's instant. */
  lemma PurgeByTime<P>(rows: seq<Record<P>>, r: Record<P>, at: Stamp, cutoff: Stamp, zone: string)
    requires Valid(at) && Valid(cutoff) && r.time == Print(at, zone)
    ensures r in Filter(rows, NotOlder(Print(cutoff, zone))) <==> r in rows && Instant(at) >= Instant(cutoff)
  {
    FilterMembers(rows, NotOlder(Print(cutoff, zone)));
    PrintOrder(at, cutoff, zone);
  }

  /** Every time in the rows is a stamp's printed text, and `stampOf` reads it back. */
  ghost predicate Stamped<P>(rows: seq<Record<P>>, stampOf: string -> Stamp, zone: string) {
    forall r :: r in rows ==> Valid(stampOf(r.time)) && r.time == Print(stampOf(r.time), zone)
  }

  function At<P>(r: Record<P>, stampOf: string -> Stamp): int {
    Instant(stampOf(r.time))
  }

  /** Comparing the texts of two stamped rows is comparing their instants. */
  lemma StampedOrder<P>(rows: seq<Record<P>>, stampOf: string -> Stamp, zone: string, q: Record<P>, r: Record<P>)
    requires Stamped(rows, stampOf, zone) && q in rows && r in rows
    ensures Less(q.time, r.time) <==> At(q, stampOf) < At(r, stampOf)
    ensures AtMost(q.time, r.time) <==> At(q, stampOf) <= At(r, stampOf)
    ensures q.time == r.time <==> At(q, stampOf) == At(r, stampOf)
  {
    PrintOrder(stampOf(q.time), stampOf(r.time), zone);
    PrintOrder(stampOf(r.time), stampOf(q.time), zone);
    LessTotal(q.time, r.time);
  }
}
