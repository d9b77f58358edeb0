/** The windowed history queries (internal/store/records.go): everything since a cutoff, ascending by time,
    the first `limit` rows. Rows of one time stand in rowid order. */
module Queries {
  import opened Text
  import opened Timestamps
  import opened History

  function InsertAsc<P>(rows: seq<Record<P>>, r: Record<P>): seq<Record<P>> {
    if rows == [] || AtMost(rows[|rows| - 1].time, r.time) then rows + [r]
    else InsertAsc(rows[..|rows| - 1], r) + [rows[|rows| - 1]]
  }

  /** ORDER BY time ASC, stable. */
  function SortAsc<P>(rows: seq<Record<P>>): seq<Record<P>> {
    if rows == [] then [] else InsertAsc(SortAsc(rows[..|rows| - 1]), rows[|rows| - 1])
  }

  lemma {:induction false} InsertAscMembers<P>(rows: seq<Record<P>>, r: Record<P>)
    ensures multiset(InsertAsc(rows, r)) == multiset(rows) + multiset{r}
    ensures forall q :: q in InsertAsc(rows, r) ==> q == r || q in rows
  {
    if rows == [] || AtMost(rows[|rows| - 1].time, r.time) {
    } else {
      assert rows == rows[..|rows| - 1] + [rows[|rows| - 1]];
      InsertAscMembers(rows[..|rows| - 1], r);
    }
  }

  lemma AppendInOrder<P>(rows: seq<Record<P>>, r: Record<P>)
    requires InTimeOrder(rows) && forall q :: q in rows ==> AtMost(q.time, r.time)
    ensures InTimeOrder(rows + [r])
  {
    assert forall k :: 0 <= k < |rows| ==> rows[k] in rows;
  }

  lemma LastIsLatest<P>(rows: seq<Record<P>>)
    requires rows != [] && InTimeOrder(rows)
    ensures forall q :: q in rows ==> AtMost(q.time, rows[|rows| - 1].time)
  {
    LessTotal(rows[|rows| - 1].time, rows[|rows| - 1].time);
  }

  lemma {:induction false} InsertAscOrdered<P>(rows: seq<Record<P>>, r: Record<P>)
    requires InTimeOrder(rows)
    ensures InTimeOrder(InsertAsc(rows, r))
  {
    if rows == [] {
    } else {
      var init, last := rows[..|rows| - 1], rows[|rows| - 1];
      assert rows == init + [last];
      LastIsLatest(rows);
      if AtMost(last.time, r.time) {
        forall q | q in rows ensures AtMost(q.time, r.time) {
          AtMostTransitive(q.time, last.time, r.time);
        }
        AppendInOrder(rows, r);
      } else {
        InsertAscOrdered(init, r);
        InsertAscMembers(init, r);
        LessTotal(r.time, last.time);
        AppendInOrder(InsertAsc(init, r), last);
      }
    }
  }

  lemma {:induction false} SortAscShape<P>(rows: seq<Record<P>>)
    ensures InTimeOrder(SortAsc(rows)) && multiset(SortAsc(rows)) == multiset(rows) && |SortAsc(rows)| == |rows|
  {
    if rows == [] {
    } else {
      var n := |rows| - 1;
      assert rows == rows[..n] + [rows[n]];
      SortAscShape(rows[..n]);
      InsertAscOrdered(SortAsc(rows[..n]), rows[n]);
      InsertAscMembers(SortAsc(rows[..n]), rows[n]);
    }
    assert |multiset(SortAsc(rows))| == |multiset(rows)|;
  }

  /** Rows inserted by a steady clock are in order already. */
  lemma {:induction false} SortAscOfOrdered<P>(rows: seq<Record<P>>)
    requires InTimeOrder(rows)
    ensures SortAsc(rows) == rows
  {
    if rows == [] {
    } else {
      var n := |rows| - 1;
      SortAscOfOrdered(rows[..n]);
      assert rows == rows[..n] + [rows[n]];
      assert n > 0 ==> AtMost(rows[n - 1].time, rows[n].time);
    }
  }

  function Take<T>(xs: seq<T>, limit: nat): seq<T> {
    if |xs| <= limit then xs else xs[..limit]
  }

  /** The rows the WHERE clause selects. */
  function Window<P>(rows: seq<Record<P>>, cutoff: string, keep: Record<P> -> bool): seq<Record<P>> {
    Filter(Filter(rows, NotOlder(cutoff)), keep)
  }

  function Since<P>(rows: seq<Record<P>>, cutoff: string, keep: Record<P> -> bool, limit: nat): seq<Record<P>> {
    Take(SortAsc(Window(rows, cutoff, keep)), limit)
  }

  function OfClient<P>(client: string): Record<P> -> bool {
    (r: Record<P>) => client == "" || r.client == client
  }

  function OfClientAndTask(client: string, taskId: int): Record<Result> -> bool {
    (r: Record<Result>) => (client == "" || r.client == client) && (taskId <= 0 || r.data.taskId == taskId)
  }

  /** What a caller may rely on: rows of the window only, each as often as it is there, in time order and
      within the limit; and rows of the window are missing only if the limit is reached, and none of them is
      older than a row that is there. */
  ghost predicate Selected<P(!new)>(out: seq<Record<P>>, rows: seq<Record<P>>, cutoff: string,
                                    keep: Record<P> -> bool, limit: nat)
  {
    && InTimeOrder(out) && |out| <= limit && multiset(out) <= multiset(rows)
    && (forall r :: r in out ==> !Less(r.time, cutoff) && keep(r))
    && (forall r :: r in rows && !Less(r.time, cutoff) && keep(r) && r !in out ==>
          |out| == limit && forall q :: q in out ==> AtMost(q.time, r.time))
  }

  lemma SinceSelected<P(!new)>(rows: seq<Record<P>>, cutoff: string, keep: Record<P> -> bool, limit: nat)
    ensures Selected(Since(rows, cutoff, keep, limit), rows, cutoff, keep, limit)
  {
    var out, lost, window := Since(rows, cutoff, keep, limit), Cut(rows, cutoff, keep, limit),
                             Window(rows, cutoff, keep);
    SinceExactly(rows, cutoff, keep, limit);
    FilterMembers(rows, NotOlder(cutoff));
    FilterMembers(Filter(rows, NotOlder(cutoff)), keep);
    FilterMultiset(rows, NotOlder(cutoff));
    FilterMultiset(Filter(rows, NotOlder(cutoff)), keep);
    forall r | r in rows && !Less(r.time, cutoff) && keep(r) && r !in out ensures r in lost {
      assert r in multiset(window);
    }
  }

  lemma {:induction false} FilterMultiset<P>(rows: seq<Record<P>>, keep: Record<P> -> bool)
    ensures multiset(Filter(rows, keep)) <= multiset(rows)
  {
    if rows == [] {
    } else {
      var init, last := rows[..|rows| - 1], rows[|rows| - 1];
      assert rows == init + [last];
      FilterMultiset(init, keep);
    }
  }

  /** RecordsSince; `cutoffOf(h)` is the text of the clock h hours ago. */
  method RecordsSince(store: HistoryStore, client: string, hours: int, limit: int, cutoffOf: int -> string)
    returns (out: seq<Record<Report>>)
    ensures var cutoff, l := cutoffOf(if hours > 0 then hours else 1), if 0 < limit <= 5000 then limit else 1000;
            && out == Since(store.status, cutoff, OfClient(client), l)
            && Selected(out, store.status, cutoff, (r: Record<Report>) => client == "" || r.client == client, l)
  {
    var h, l := hours, limit;
    if h <= 0 { h := 1; }
    if l <= 0 || l > 5000 { l := 1000; }
    SinceSelected(store.status, cutoffOf(h), OfClient(client), l);
    out := Since(store.status, cutoffOf(h), OfClient(client), l);
  }

  /** ProbeRecordsSince. */
  method ProbeRecordsSince(store: HistoryStore, client: string, taskId: int, hours: int, limit: int,
                           cutoffOf: int -> string)
    returns (out: seq<Record<Result>>)
    ensures var cutoff, l := cutoffOf(if hours > 0 then hours else 1), if 0 < limit <= 20000 then limit else 5000;
            && out == Since(store.probes, cutoff, OfClientAndTask(client, taskId), l)
            && Selected(out, store.probes, cutoff,
                        (r: Record<Result>) =>
                          (client == "" || r.client == client) && (taskId <= 0 || r.data.taskId == taskId), l)
  {
    var h, l := hours, limit;
    if h <= 0 { h := 1; }
    if l <= 0 || l > 20000 { l := 5000; }
    SinceSelected(store.probes, cutoffOf(h), OfClientAndTask(client, taskId), l);
    out := Since(store.probes, cutoffOf(h), OfClientAndTask(client, taskId), l);
  }

  /** The rows of the window that the limit cuts off. */
  function Cut<P>(rows: seq<Record<P>>, cutoff: string, keep: Record<P> -> bool, limit: nat): seq<Record<P>> {
    var sorted := SortAsc(Window(rows, cutoff, keep));
    sorted[|Take(sorted, limit)|..]
  }

  lemma TakeOrdered<P>(sorted: seq<Record<P>>, limit: nat)
    requires InTimeOrder(sorted)
    ensures var out, lost := Take(sorted, limit), sorted[|Take(sorted, limit)|..];
            && sorted == out + lost && (lost == [] <==> |sorted| <= limit)
            && InTimeOrder(out)
            && forall q, r :: q in out && r in lost ==> AtMost(q.time, r.time)
  {
    var out := Take(sorted, limit);
    var lost := sorted[|out|..];
    forall q, r | q in out && r in lost ensures AtMost(q.time, r.time) {
      var i :| 0 <= i < |out| && out[i] == q;
      var j :| 0 <= j < |lost| && lost[j] == r;
      assert sorted[i] == q && sorted[|out| + j] == r;
    }
  }

  lemma {:induction false} FilterTwice<P>(rows: seq<Record<P>>, p: Record<P> -> bool, q: Record<P> -> bool,
                                          both: Record<P> -> bool)
    requires forall r :: r in rows ==> (both(r) <==> p(r) && q(r))
    ensures Filter(Filter(rows, p), q) == Filter(rows, both)
  {
    if rows == [] {
    } else {
      var init, last := rows[..|rows| - 1], rows[|rows| - 1];
      assert rows == init + [last];
      FilterTwice(init, p, q, both);
      FilterSnoc(Filter(init, p), last, q);
    }
  }

  /** The window holds the rows that are not older than the cutoff and pass, as they stand. */
  lemma WindowExactly<P>(rows: seq<Record<P>>, cutoff: string, keep: Record<P> -> bool) returns (idx: seq<nat>)
    ensures Climbing(idx, |rows|) && Window(rows, cutoff, keep) == Pick(rows, idx)
    ensures forall i: nat :: i in idx <==> i < |rows| && !Less(rows[i].time, cutoff) && keep(rows[i])
  {
    var both := (r: Record<P>) => !Less(r.time, cutoff) && keep(r);
    FilterTwice(rows, NotOlder(cutoff), keep, both);
    idx := FilterPlaces(rows, both);
  }

  lemma WindowMembers<P>(rows: seq<Record<P>>, cutoff: string, keep: Record<P> -> bool)
    ensures forall r :: r in SortAsc(Window(rows, cutoff, keep)) ==> r in rows && !Less(r.time, cutoff) && keep(r)
  {
    var window := Window(rows, cutoff, keep);
    SortAscShape(window);
    FilterMembers(rows, NotOlder(cutoff));
    FilterMembers(Filter(rows, NotOlder(cutoff)), keep);
    forall r | r in SortAsc(window) ensures r in window {
      assert r in multiset(SortAsc(window));
    }
  }

  /** The answer is in time order and holds only rows of the window; answer and cut-off rows together are
      the window; nothing is cut off exactly when the window fits the limit; and no cut-off row is older
      than a returned one, so an overfull window loses its newest rows. */
  lemma SinceExactly<P>(rows: seq<Record<P>>, cutoff: string, keep: Record<P> -> bool, limit: nat)
    ensures var out, lost := Since(rows, cutoff, keep, limit), Cut(rows, cutoff, keep, limit);
            var window := Window(rows, cutoff, keep);
            && InTimeOrder(out)
            && (forall r :: r in out ==> r in rows && !Less(r.time, cutoff) && keep(r))
            && multiset(out) + multiset(lost) == multiset(window)
            && (lost == [] <==> |window| <= limit)
            && (forall q, r :: q in out && r in lost ==> AtMost(q.time, r.time))
  {
    var sorted := SortAsc(Window(rows, cutoff, keep));
    SortAscShape(Window(rows, cutoff, keep));
    WindowMembers(rows, cutoff, keep);
    TakeOrdered(sorted, limit);
    assert multiset(sorted) == multiset(Take(sorted, limit)) + multiset(Cut(rows, cutoff, keep, limit));
  }

  /** On rows inserted by a steady clock the query needs no sorting: it answers with the first rows of the
      window as they stand. */
  lemma SinceOfOrdered<P>(rows: seq<Record<P>>, cutoff: string, keep: Record<P> -> bool, limit: nat)
    requires InTimeOrder(rows)
    ensures Since(rows, cutoff, keep, limit) == Take(Window(rows, cutoff, keep), limit)
  {
    FilterInOrder(rows, NotOlder(cutoff));
    FilterInOrder(Filter(rows, NotOlder(cutoff)), keep);
    SortAscOfOrdered(Window(rows, cutoff, keep));
  }

  /** On stamped rows the query selects by instant and answers in the order of instants. */
  lemma SinceByInstant<P>(rows: seq<Record<P>>, cutoff: Stamp, keep: Record<P> -> bool, limit: nat,
                          stampOf: string -> Stamp, zone: string)
    requires Stamped(rows, stampOf, zone) && Valid(cutoff)
    ensures forall r :: r in Window(rows, Print(cutoff, zone), keep)
                        <==> r in rows && At(r, stampOf) >= Instant(cutoff) && keep(r)
    ensures var out := Since(rows, Print(cutoff, zone), keep, limit);
            forall i, j :: 0 <= i < j < |out| ==> At(out[i], stampOf) <= At(out[j], stampOf)
  {
    var text := Print(cutoff, zone);
    FilterMembers(rows, NotOlder(text));
    FilterMembers(Filter(rows, NotOlder(text)), keep);
    forall r | r in rows ensures Less(r.time, text) <==> At(r, stampOf) < Instant(cutoff) {
      PrintOrder(stampOf(r.time), cutoff, zone);
    }
    SinceExactly(rows, text, keep, limit);
    var out := Since(rows, text, keep, limit);
    forall i, j | 0 <= i < j < |out| ensures At(out[i], stampOf) <= At(out[j], stampOf) {
      assert out[i] in out && out[j] in out;
      StampedOrder(rows, stampOf, zone, out[i], out[j]);
    }
  }
}
