/** The batched ping aggregation (`pingSummaries`): one grouped query over all probe records and one pass
    over its rows replace a query per node and task (internal/store/adapters.go). */
module PingSummaries {
  import opened Text
  import opened Stats
  import opened Timestamps
  import opened History
  import opened Queries
  import opened PingViews

  const WINDOW: nat := 150

  datatype ProbeTask = ProbeTask(id: int, client: string, name: string, enabled: bool)

  /** A row of the grouped query. */
  datatype Sample = Sample(client: string, taskId: int, value: real)

  // ---------- the simple form ----------

  predicate Of(r: Record<Result>, client: string, id: int) {
    r.client == client && r.data.taskId == id
  }

  /** ORDER BY time DESC, rowid DESC, for two rows given by their rowids. */
  predicate Newer(records: seq<Record<Result>>, i: nat, j: nat)
    requires i < |records| && j < |records|
  {
    Less(records[j].time, records[i].time) || (records[i].time == records[j].time && i > j)
  }

  predicate InRange(records: seq<Record<Result>>, idx: seq<nat>) {
    forall k :: 0 <= k < |idx| ==> idx[k] < |records|
  }

  function InsertRank(records: seq<Record<Result>>, ranked: seq<nat>, n: nat): (r: seq<nat>)
    requires n < |records| && InRange(records, ranked)
    ensures InRange(records, r)
    ensures forall x :: x in r <==> x in ranked || x == n
  {
    if ranked == [] || Newer(records, n, ranked[0]) then [n] + ranked
    else
      var rest := InsertRank(records, ranked[1..], n);
      assert ranked == [ranked[0]] + ranked[1..];
      [ranked[0]] + rest
  }

  /** The rowids below n of one (client, task), newest first. */
  function Ranked(records: seq<Record<Result>>, n: nat, client: string, id: int): (ranked: seq<nat>)
    requires n <= |records|
    ensures InRange(records, ranked)
    ensures forall x: nat :: x in ranked <==> x < n && Of(records[x], client, id)
  {
    if n == 0 then []
    else
      var rest := Ranked(records, n - 1, client, id);
      if Of(records[n - 1], client, id) then InsertRank(records, rest, n - 1) else rest
  }

  function ValueAt(records: seq<Record<Result>>, i: nat): real {
    if i < |records| then records[i].data.value else 0.0
  }

  function ValuesAt(records: seq<Record<Result>>, idx: seq<nat>): seq<real> {
    MapSeq((i: nat) => ValueAt(records, i), idx)
  }

  /** The values of one (client, task), newest first, at most 150: what a query per pair would return. */
  function Newest(records: seq<Record<Result>>, client: string, id: int): seq<real> {
    ValuesAt(records, Take(Ranked(records, |records|, client, id), WINDOW))
  }

  /** A list of rowids in the order of the query. */
  ghost predicate Descending(records: seq<Record<Result>>, idx: seq<nat>) {
    && InRange(records, idx)
    && (forall a, b :: 0 <= a < b < |idx| ==> Newer(records, idx[a], idx[b]))
  }

  lemma NewerOrder(records: seq<Record<Result>>, i: nat, j: nat, k: nat)
    requires i < |records| && j < |records| && k < |records|
    ensures !Newer(records, i, i)
    ensures i != j ==> Newer(records, i, j) || Newer(records, j, i)
    ensures Newer(records, i, j) && Newer(records, j, k) ==> Newer(records, i, k)
    ensures !(Newer(records, i, j) && Newer(records, j, i))
  {
    LessTotal(records[i].time, records[j].time);
    LessTotal(records[i].time, records[i].time);
    if Newer(records, i, j) && Newer(records, j, k) && Less(records[k].time, records[j].time)
        && Less(records[j].time, records[i].time) {
      LessTransitive(records[k].time, records[j].time, records[i].time);
    }
  }

  lemma {:induction false} InsertDescending(records: seq<Record<Result>>, ranked: seq<nat>, n: nat)
    requires n < |records| && n !in ranked && Descending(records, ranked)
    ensures Descending(records, InsertRank(records, ranked, n))
  {
    if ranked == [] {
    } else {
      var head, tail := ranked[0], ranked[1..];
      assert ranked == [head] + tail;
      if Newer(records, n, head) {
        forall x | x in tail ensures Newer(records, n, x) {
          NewerOrder(records, n, head, x);
        }
      } else {
        assert head in ranked;
        NewerOrder(records, head, n, n);
        InsertDescending(records, tail, n);
        assert forall x :: x in InsertRank(records, tail, n) ==> Newer(records, head, x);
      }
    }
  }

  /** The next rowid goes into a descending list of smaller ones. */
  lemma InsertNext(records: seq<Record<Result>>, ranked: seq<nat>, n: nat)
    requires n < |records| && Descending(records, ranked) && forall x :: x in ranked ==> x < n
    ensures Descending(records, InsertRank(records, ranked, n))
  {
    assert n !in ranked;
    InsertDescending(records, ranked, n);
  }

  lemma {:induction false} RankedDescending(records: seq<Record<Result>>, n: nat, client: string, id: int)
    requires n <= |records|
    ensures Descending(records, Ranked(records, n, client, id))
  {
    var k := 0;
    while k < n
      invariant k <= n
      invariant Descending(records, Ranked(records, k, client, id))
    {
      if Of(records[k], client, id) {
        InsertNext(records, Ranked(records, k, client, id), k);
      }
      k := k + 1;
    }
  }

  /** With probes recorded in time order the newest values are simply the last 150 recorded, read backwards. */
  lemma NewestOfSteadyClock(records: seq<Record<Result>>, client: string, id: int)
    requires InTimeOrder(records)
    ensures Newest(records, client, id) == Take(Reverse(Values(Filter(records, OfPair(client, id)))), WINDOW)
  {
    RankedOfSteadyClock(records, |records|, client, id);
    assert records[..|records|] == records;
  }

  function OfPair(client: string, id: int): Record<Result> -> bool {
    (r: Record<Result>) => Of(r, client, id)
  }

  lemma {:induction false} RankedOfSteadyClock(records: seq<Record<Result>>, n: nat, client: string, id: int)
    requires InTimeOrder(records) && n <= |records|
    ensures ValuesAt(records, Ranked(records, n, client, id))
            == Reverse(Values(Filter(records[..n], OfPair(client, id))))
  {
    if n > 0 {
      RankedOfSteadyClock(records, n - 1, client, id);
      RankedNext(records, n - 1, client, id);
    } else {
      assert records[..0] == [];
    }
  }

  lemma RankedNext(records: seq<Record<Result>>, n: nat, client: string, id: int)
    requires InTimeOrder(records) && n < |records|
    ensures ValuesAt(records, Ranked(records, n + 1, client, id)) ==
            (if Of(records[n], client, id) then [records[n].data.value] else [])
                + ValuesAt(records, Ranked(records, n, client, id))
    ensures Reverse(Values(Filter(records[..n + 1], OfPair(client, id)))) ==
            (if Of(records[n], client, id) then [records[n].data.value] else [])
                + Reverse(Values(Filter(records[..n], OfPair(client, id))))
  {
    assert records[..n + 1] == records[..n] + [records[n]];
    FilterSnoc(records[..n], records[n], OfPair(client, id));
    if Of(records[n], client, id) {
      var ranked := Ranked(records, n, client, id);
      assert forall k :: 0 <= k < |ranked| ==> ranked[k] in ranked;
      InsertedFirst(records, ranked, n);
      ValuesAtFirst(records, Ranked(records, n, client, id), n);
      ReversedFirst(Filter(records[..n], OfPair(client, id)), records[n]);
    }
  }

  lemma InsertedFirst(records: seq<Record<Result>>, ranked: seq<nat>, n: nat)
    requires InTimeOrder(records) && n < |records| && forall k :: 0 <= k < |ranked| ==> ranked[k] < n
    ensures InsertRank(records, ranked, n) == [n] + ranked
  {
    if ranked != [] {
      LessTotal(records[ranked[0]].time, records[n].time);
    }
  }

  lemma ValuesAtFirst(records: seq<Record<Result>>, ranked: seq<nat>, n: nat)
    ensures ValuesAt(records, [n] + ranked) == [ValueAt(records, n)] + ValuesAt(records, ranked)
  {
  }

  lemma ReversedFirst(kept: seq<Record<Result>>, last: Record<Result>)
    ensures Reverse(Values(kept + [last])) == [last.data.value] + Reverse(Values(kept))
  {
    assert Values(kept + [last]) == Values(kept) + [last.data.value];
    ReverseSnoc(Values(kept), last.data.value);
  }

  predicate Visible(t: ProbeTask, client: string) {
    t.enabled && (t.client == "*" || t.client == client)
  }

  // ---------- the grouped query ----------

  /** ROW_NUMBER() OVER (PARTITION BY client, task_id ORDER BY time DESC, rowid DESC). */
  function RowNumber(records: seq<Record<Result>>, i: nat): nat
    requires i < |records|
  {
    |NotOlderThan(records, i)|
  }

  function NotOlderThan(records: seq<Record<Result>>, i: nat): set<nat>
    requires i < |records|
  {
    set j: nat | j < |records| && Of(records[j], records[i].client, records[i].data.taskId)
        && (j == i || Newer(records, j, i))
  }

  function SampleAt(records: seq<Record<Result>>, i: nat): Sample
    requires i < |records|
  {
    Sample(records[i].client, records[i].data.taskId, records[i].data.value)
  }

  /** `rows` answers the query: they stem from rowids `idx`, which are those of row number at most 150, and
      the rows of one partition come in the order of their row numbers. The order of the partitions is left
      open. */
  ghost predicate Answers(records: seq<Record<Result>>, idx: seq<nat>, rows: seq<Sample>) {
    && |rows| == |idx|
    && (forall k :: 0 <= k < |idx| ==> idx[k] < |records| && rows[k] == SampleAt(records, idx[k]))
    && (forall i: nat :: i in idx <==> i < |records| && RowNumber(records, i) <= WINDOW)
    && (forall a, b :: 0 <= a < b < |idx| && rows[a].client == rows[b].client && rows[a].taskId == rows[b].taskId ==>
          RowNumber(records, idx[a]) < RowNumber(records, idx[b]))
  }

  function Ranking(records: seq<Record<Result>>): nat -> int {
    (i: nat) => if i < |records| then RowNumber(records, i) else 0
  }

  /** A duplicate-free list has as many members as places. */
  lemma {:induction false} Members(xs: seq<nat>, s: set<nat>)
    requires forall x :: x in s <==> x in xs
    requires forall a, b :: 0 <= a < b < |xs| ==> xs[a] != xs[b]
    ensures |s| == |xs|
  {
    if xs == [] {
    } else {
      var init, x := xs[..|xs| - 1], xs[|xs| - 1];
      assert xs == init + [x];
      Members(init, s - {x});
    }
  }

  /** The k-th of the ranked rows has row number k + 1. */
  lemma RowNumberOfRanked(records: seq<Record<Result>>, client: string, id: int, k: nat)
    requires k < |Ranked(records, |records|, client, id)|
    ensures RowNumber(records, Ranked(records, |records|, client, id)[k]) == k + 1
  {
    var ranked := Ranked(records, |records|, client, id);
    RankedDescending(records, |records|, client, id);
    var i, upTo := ranked[k], ranked[..k + 1];
    assert i in ranked && Of(records[i], client, id);
    forall a, b | 0 <= a < b < |upTo| ensures upTo[a] != upTo[b] {
      NewerOrder(records, ranked[a], ranked[b], ranked[b]);
    }
    forall j: nat ensures j in NotOlderThan(records, i) <==> j in upTo {
      if j in ranked {
        var b :| 0 <= b < |ranked| && ranked[b] == j;
        NewerOrder(records, i, j, j);
        if b <= k {
          assert upTo[b] == j;
        }
      }
    }
    Members(upTo, NotOlderThan(records, i));
  }

  function OfPairAt(records: seq<Record<Result>>, client: string, id: int): nat -> bool {
    (i: nat) => i < |records| && Of(records[i], client, id)
  }

  /** The rowids of one pair among the rows. */
  function Picked(records: seq<Record<Result>>, idx: seq<nat>, client: string, id: int): seq<nat> {
    Filter(idx, OfPairAt(records, client, id))
  }

  ghost predicate ClimbingOf(records: seq<Record<Result>>, idx: seq<nat>, client: string, id: int) {
    && InRange(records, idx)
    && (forall a, b :: 0 <= a < b < |idx| && Of(records[idx[a]], client, id) && Of(records[idx[b]], client, id) ==>
          RowNumber(records, idx[a]) < RowNumber(records, idx[b]))
  }

  lemma PickedFromEarlier(records: seq<Record<Result>>, idx: seq<nat>, x: nat, client: string, id: int)
    requires ClimbingOf(records, idx + [x], client, id)
    ensures ClimbingOf(records, idx, client, id) && x < |records|
    ensures Of(records[x], client, id) ==>
              forall y :: y in Picked(records, idx, client, id) ==> Ranking(records)(y) < Ranking(records)(x)
  {
    var all := idx + [x];
    assert forall k :: 0 <= k < |idx| ==> all[k] == idx[k];
    assert all[|idx|] == x;
    FilterMembers(idx, OfPairAt(records, client, id));
    forall y | y in Picked(records, idx, client, id) && Of(records[x], client, id)
      ensures Ranking(records)(y) < Ranking(records)(x)
    {
      var k :| 0 <= k < |idx| && idx[k] == y;
      assert all[k] == y;
    }
  }

  lemma {:induction false} PickedClimbs(records: seq<Record<Result>>, idx: seq<nat>, client: string, id: int)
    requires ClimbingOf(records, idx, client, id)
    ensures RankedBy(Ranking(records), Picked(records, idx, client, id))
  {
    if idx == [] {
    } else {
      var init, x := idx[..|idx| - 1], idx[|idx| - 1];
      assert idx == init + [x];
      PickedFromEarlier(records, init, x, client, id);
      PickedClimbs(records, init, client, id);
      AppendTop(Ranking(records), Picked(records, init, client, id), x);
    }
  }

  ghost predicate RankedBy(rank: nat -> int, xs: seq<nat>) {
    forall a, b :: 0 <= a < b < |xs| ==> rank(xs[a]) < rank(xs[b])
  }

  lemma AppendTop(rank: nat -> int, xs: seq<nat>, x: nat)
    requires RankedBy(rank, xs)
    ensures (forall y :: y in xs ==> rank(y) < rank(x)) ==> RankedBy(rank, xs + [x])
  {
  }

  lemma LastIsTop(rank: nat -> int, xs: seq<nat>, ys: seq<nat>)
    requires RankedBy(rank, xs) && RankedBy(rank, ys) && xs != [] && ys != []
    requires forall x :: x in xs <==> x in ys
    ensures xs[|xs| - 1] == ys[|ys| - 1]
  {
    var x, y := xs[|xs| - 1], ys[|ys| - 1];
    assert x in xs && y in ys;
    var a :| 0 <= a < |xs| && xs[a] == y;
    var b :| 0 <= b < |ys| && ys[b] == x;
  }

  lemma WithoutLast(rank: nat -> int, xs: seq<nat>)
    requires RankedBy(rank, xs) && xs != []
    ensures RankedBy(rank, xs[..|xs| - 1])
    ensures forall x :: x in xs[..|xs| - 1] <==> x in xs && x != xs[|xs| - 1]
  {
    assert xs == xs[..|xs| - 1] + [xs[|xs| - 1]];
  }

  /** Two lists of the same members, both climbing by one rank, are equal. */
  lemma {:induction false} SameByRank(rank: nat -> int, xs: seq<nat>, ys: seq<nat>)
    requires RankedBy(rank, xs) && RankedBy(rank, ys)
    requires forall x :: x in xs <==> x in ys
    ensures xs == ys
  {
    assert xs != [] ==> xs[0] in xs;
    assert ys != [] ==> ys[0] in ys;
    if xs == [] {
    } else {
      LastIsTop(rank, xs, ys);
      WithoutLast(rank, xs);
      WithoutLast(rank, ys);
      var xs', ys' := xs[..|xs| - 1], ys[..|ys| - 1];
      forall x: nat ensures x in xs' <==> x in ys' {
        assert x in xs' <==> x in xs && x != xs[|xs| - 1];
        assert x in ys' <==> x in ys && x != ys[|ys| - 1];
      }
      SameByRank(rank, xs', ys');
      assert xs == xs[..|xs| - 1] + [xs[|xs| - 1]] && ys == ys[..|ys| - 1] + [ys[|ys| - 1]];
    }
  }

  /** The values of one pair among the rows. */
  function RowsOf(rows: seq<Sample>, client: string, id: int): seq<real> {
    if rows == [] then []
    else
      var rest, r := RowsOf(rows[..|rows| - 1], client, id), rows[|rows| - 1];
      if r.client == client && r.taskId == id then rest + [r.value] else rest
  }

  lemma {:induction false} RowsOfPicked(records: seq<Record<Result>>, idx: seq<nat>, rows: seq<Sample>, client: string,
                                        id: int)
    requires |rows| == |idx| && InRange(records, idx)
    requires forall k :: 0 <= k < |idx| ==> rows[k] == SampleAt(records, idx[k])
    ensures RowsOf(rows, client, id) == ValuesAt(records, Picked(records, idx, client, id))
  {
    if idx == [] {
    } else {
      var init, x := idx[..|idx| - 1], idx[|idx| - 1];
      assert x in idx && forall y :: y in init ==> y in idx;
      RowsOfPicked(records, init, rows[..|rows| - 1], client, id);
    }
  }

  /** The ranked rows of row number at most 150 are the first 150. */
  lemma FirstRanks(records: seq<Record<Result>>, client: string, id: int)
    ensures var ranked := Ranked(records, |records|, client, id);
            && RankedBy(Ranking(records), Take(ranked, WINDOW))
            && forall x :: x in Take(ranked, WINDOW) <==> x in ranked && Ranking(records)(x) <= WINDOW
  {
    var ranked, rank := Ranked(records, |records|, client, id), Ranking(records);
    forall k | 0 <= k < |ranked| ensures rank(ranked[k]) == k + 1 {
      RowNumberOfRanked(records, client, id, k);
    }
    var first := Take(ranked, WINDOW);
    forall x | x in ranked && rank(x) <= WINDOW ensures x in first {
      var k :| 0 <= k < |ranked| && ranked[k] == x;
      assert first[k] == x;
    }
  }

  lemma PickedIsNewest(records: seq<Record<Result>>, idx: seq<nat>, client: string, id: int)
    requires forall i: nat :: i in idx <==> i < |records| && RowNumber(records, i) <= WINDOW
    requires ClimbingOf(records, idx, client, id)
    ensures Picked(records, idx, client, id) == Take(Ranked(records, |records|, client, id), WINDOW)
  {
    PickedClimbs(records, idx, client, id);
    FirstRanks(records, client, id);
    FilterMembers(idx, OfPairAt(records, client, id));
    var picked, first := Picked(records, idx, client, id), Take(Ranked(records, |records|, client, id), WINDOW);
    forall x: nat ensures x in picked <==> x in first {
      assert x in first <==> x in Ranked(records, |records|, client, id) && Ranking(records)(x) <= WINDOW;
    }
    SameByRank(Ranking(records), picked, first);
  }

  /** One batch holds, for every pair, exactly what the pair's own query would return. */
  lemma BatchedIsNewest(records: seq<Record<Result>>, idx: seq<nat>, rows: seq<Sample>, client: string, id: int)
    requires Answers(records, idx, rows)
    ensures RowsOf(rows, client, id) == Newest(records, client, id)
  {
    assert forall k :: 0 <= k < |idx| && Of(records[idx[k]], client, id) ==>
                         rows[k].client == client && rows[k].taskId == id;
    PickedIsNewest(records, idx, client, id);
    RowsOfPicked(records, idx, rows, client, id);
  }

  lemma {:induction false} InsertRankLength(records: seq<Record<Result>>, ranked: seq<nat>, n: nat)
    requires n < |records| && InRange(records, ranked)
    ensures |InsertRank(records, ranked, n)| == |ranked| + 1
  {
    if ranked == [] || Newer(records, n, ranked[0]) {
    } else {
      InsertRankLength(records, ranked[1..], n);
    }
  }

  lemma {:induction false} RankedLength(records: seq<Record<Result>>, n: nat, client: string, id: int)
    requires n <= |records|
    ensures |Ranked(records, n, client, id)| == |Filter(records[..n], OfPair(client, id))|
  {
    if n == 0 {
    } else {
      RankedLength(records, n - 1, client, id);
      assert records[..n] == records[..n - 1] + [records[n - 1]];
      FilterSnoc(records[..n - 1], records[n - 1], OfPair(client, id));
      if Of(records[n - 1], client, id) {
        InsertRankLength(records, Ranked(records, n - 1, client, id), n - 1);
      }
    }
  }

  /** How many rows of a pair an answer holds: all of them, but not more than 150. */
  lemma BatchSize(records: seq<Record<Result>>, idx: seq<nat>, rows: seq<Sample>, client: string, id: int,
                  places: seq<nat>)
    requires Answers(records, idx, rows) && Climbing(places, |records|)
    requires forall i: nat :: i in places <==>
               i < |records| && records[i].client == client && records[i].data.taskId == id
    ensures |RowsOf(rows, client, id)| == if |places| <= 150 then |places| else 150
  {
    BatchedIsNewest(records, idx, rows, client, id);
    RankedLength(records, |records|, client, id);
    assert records[..|records|] == records;
    var kept := FilterPlaces(records, OfPair(client, id));
    SamePlaces(kept, places, |records|);
  }

  lemma SamePlaces(a: seq<nat>, b: seq<nat>, n: nat)
    requires Climbing(a, n) && Climbing(b, n) && forall i: nat :: i in a <==> i in b
    ensures a == b
  {
    SameByRank((i: nat) => i as int, a, b);
  }

  /** The k-th row of a pair, counted from zero, is a record of the pair that has k newer ones: later by time, or
      recorded later at the same time. */
  lemma BatchOrder(records: seq<Record<Result>>, idx: seq<nat>, rows: seq<Sample>, client: string, id: int, k: nat)
    returns (i: nat, newer: set<nat>)
    requires Answers(records, idx, rows) && k < |RowsOf(rows, client, id)|
    ensures i < |records| && records[i].client == client && records[i].data.taskId == id
    ensures RowsOf(rows, client, id)[k] == records[i].data.value
    ensures forall j: nat :: j in newer <==>
              j < |records| && records[j].client == client && records[j].data.taskId == id
              && (Less(records[i].time, records[j].time) || (records[j].time == records[i].time && j > i))
    ensures |newer| == k
  {
    BatchedIsNewest(records, idx, rows, client, id);
    i := NewestAt(records, client, id, k);
    newer := NotOlderThan(records, i) - {i};
    LessTotal(records[i].time, records[i].time);
  }

  lemma NewestAt(records: seq<Record<Result>>, client: string, id: int, k: nat) returns (i: nat)
    requires k < |Newest(records, client, id)|
    ensures i < |records| && Of(records[i], client, id) && Newest(records, client, id)[k] == records[i].data.value
    ensures RowNumber(records, i) == k + 1
  {
    var ranked := Ranked(records, |records|, client, id);
    i := ranked[k];
    assert i in ranked;
    RowNumberOfRanked(records, client, id, k);
  }

  // ---------- every table has an answer ----------

  /** All rowids below n, newest first. */
  function AllRanked(records: seq<Record<Result>>, n: nat): (ranked: seq<nat>)
    requires n <= |records|
    ensures InRange(records, ranked)
    ensures forall x: nat :: x in ranked <==> x < n
  {
    if n == 0 then [] else InsertRank(records, AllRanked(records, n - 1), n - 1)
  }

  lemma {:induction false} AllDescending(records: seq<Record<Result>>, n: nat)
    requires n <= |records|
    ensures Descending(records, AllRanked(records, n))
  {
    if n == 0 {
    } else {
      AllDescending(records, n - 1);
      InsertNext(records, AllRanked(records, n - 1), n - 1);
    }
  }

  lemma {:induction false} FilterDescending(records: seq<Record<Result>>, idx: seq<nat>, keep: nat -> bool)
    requires Descending(records, idx)
    ensures Descending(records, Filter(idx, keep))
  {
    if idx == [] {
    } else {
      var init, x := idx[..|idx| - 1], idx[|idx| - 1];
      FilterDescending(records, init, keep);
      FilterMembers(init, keep);
      var rest := Filter(init, keep);
      forall a | 0 <= a < |rest| ensures Newer(records, rest[a], x) {
        assert rest[a] in rest;
        var k :| 0 <= k < |init| && init[k] == rest[a];
      }
    }
  }

  /** Of two rows of one partition the newer one has the smaller row number. */
  lemma NewerIsLower(records: seq<Record<Result>>, i: nat, j: nat)
    requires i < |records| && j < |records| && Newer(records, i, j)
    requires Of(records[i], records[j].client, records[j].data.taskId)
    ensures RowNumber(records, i) < RowNumber(records, j)
  {
    var a, b := NotOlderThan(records, i), NotOlderThan(records, j);
    forall k | k in a ensures k in b && k != j {
      NewerOrder(records, k, i, j);
      NewerOrder(records, i, j, j);
    }
    assert j in b;
    assert |b - a| + |a| == |b| by {
      assert a * b == a && a + b == b && a - b == {};
    }
    assert j in b - a;
  }

  function Within(records: seq<Record<Result>>): nat -> bool {
    (i: nat) => i < |records| && RowNumber(records, i) <= WINDOW
  }

  lemma DescendingAnswers(records: seq<Record<Result>>, idx: seq<nat>, rows: seq<Sample>)
    requires Descending(records, idx) && forall i: nat :: i in idx <==> i < |records| && RowNumber(records, i) <= WINDOW
    requires |rows| == |idx| && forall k :: 0 <= k < |idx| ==> rows[k] == SampleAt(records, idx[k])
    ensures Answers(records, idx, rows)
  {
    forall a, b | 0 <= a < b < |idx| && rows[a].client == rows[b].client && rows[a].taskId == rows[b].taskId
      ensures RowNumber(records, idx[a]) < RowNumber(records, idx[b])
    {
      NewerIsLower(records, idx[a], idx[b]);
    }
  }

  /** The query has an answer on every table, so what is said of all answers is said of every table. */
  lemma AnswerExists(records: seq<Record<Result>>)
    ensures exists idx, rows :: Answers(records, idx, rows)
  {
    var all := AllRanked(records, |records|);
    var idx := Filter(all, Within(records));
    AllDescending(records, |records|);
    FilterDescending(records, all, Within(records));
    FilterMembers(all, Within(records));
    forall i: nat ensures i in idx <==> i < |records| && RowNumber(records, i) <= WINDOW {
      assert i in all <==> i < |records|;
    }
    var rows := seq(|idx|, k requires 0 <= k < |idx| => SampleAt(records, idx[k]));
    DescendingAnswers(records, idx, rows);
  }

  /** On stamped rows the order of the query is by instant, the later rowid first among equals. */
  lemma NewerByInstant(records: seq<Record<Result>>, stampOf: string -> Stamp, zone: string, i: nat, j: nat)
    requires Stamped(records, stampOf, zone) && i < |records| && j < |records|
    ensures Newer(records, i, j)
            <==> History.At(records[i], stampOf) > History.At(records[j], stampOf)
                 || (History.At(records[i], stampOf) == History.At(records[j], stampOf) && i > j)
  {
    StampedOrder(records, stampOf, zone, records[j], records[i]);
  }

  // ---------- one pass over the rows ----------

  function At(series: map<string, seq<real>>, key: string): seq<real> {
    if key in series then series[key] else []
  }

  /** The grouping loop with its `client|id` keys: no two pairs share a key. */
  method GroupRows(rows: seq<Sample>) returns (series: map<string, seq<real>>)
    ensures forall client, id :: At(series, ClientKey(client, id)) == RowsOf(rows, client, id)
  {
    series := map[];
    for i := 0 to |rows|
      invariant forall client, id :: At(series, ClientKey(client, id)) == RowsOf(rows[..i], client, id)
    {
      var r := rows[i];
      var key := r.client + "|" + Itoa(r.taskId);
      ghost var before := series;
      series := series[key := At(series, key) + [r.value]];
      forall client, id ensures At(series, ClientKey(client, id)) == RowsOf(rows[..i + 1], client, id) {
        GroupStep(before, series, rows, i, client, id);
      }
    }
    assert rows[..|rows|] == rows;
  }

  lemma GroupStep(before: map<string, seq<real>>, after: map<string, seq<real>>, rows: seq<Sample>, i: nat,
                  client: string, id: int)
    requires i < |rows|
    requires At(before, ClientKey(client, id)) == RowsOf(rows[..i], client, id)
    requires var key := ClientKey(rows[i].client, rows[i].taskId);
             after == before[key := At(before, key) + [rows[i].value]]
    ensures At(after, ClientKey(client, id)) == RowsOf(rows[..i + 1], client, id)
  {
    var r := rows[i];
    assert rows[..i + 1][..i] == rows[..i];
    if ClientKey(r.client, r.taskId) == ClientKey(client, id) {
      ClientKeyInjective(r.client, r.taskId, client, id);
    }
  }

  // ---------- the result ----------

  ghost predicate DistinctIds(tasks: seq<ProbeTask>) {
    forall i, j :: 0 <= i < j < |tasks| ==> tasks[i].id != tasks[j].id
  }

  ghost predicate HasTask(tasks: seq<ProbeTask>, client: string, key: string) {
    exists t :: t in tasks && t.enabled && (t.client == "*" || t.client == client) && key == Itoa(t.id)
  }

  function EntryFor(t: ProbeTask, client: string, series: map<string, seq<real>>): Summary {
    Summarize(t.name, At(series, ClientKey(client, t.id)))
  }

  /** One client's entries against the grouped series. */
  ghost predicate Filled(m: map<string, Summary>, tasks: seq<ProbeTask>, client: string, series: map<string, seq<real>>)
  {
    && (forall key :: key in m <==> HasTask(tasks, client, key))
    && (forall t :: t in tasks && Visible(t, client) ==>
          Itoa(t.id) in m && m[Itoa(t.id)] == EntryFor(t, client, series))
  }

  lemma HasTaskSnoc(init: seq<ProbeTask>, t: ProbeTask, client: string, key: string)
    ensures HasTask(init + [t], client, key)
            <==> HasTask(init, client, key) || (Visible(t, client) && key == Itoa(t.id))
  {
    assert t in init + [t];
  }

  lemma FilledSnoc(m: map<string, Summary>, init: seq<ProbeTask>, t: ProbeTask, client: string,
                   series: map<string, seq<real>>)
    requires Filled(m, init, client, series)
    requires forall u :: u in init ==> u.id != t.id
    ensures var m' := if Visible(t, client) then m[Itoa(t.id) := EntryFor(t, client, series)] else m;
            Filled(m', init + [t], client, series)
  {
    var m' := if Visible(t, client) then m[Itoa(t.id) := EntryFor(t, client, series)] else m;
    forall key ensures key in m' <==> HasTask(init + [t], client, key) {
      HasTaskSnoc(init, t, client, key);
    }
    forall u | u in init + [t] && Visible(u, client)
      ensures Itoa(u.id) in m' && m'[Itoa(u.id)] == EntryFor(u, client, series)
    {
      if u != t {
        assert u in init;
        if Itoa(u.id) == Itoa(t.id) {
          ItoaInjective(u.id, t.id);
        }
      }
    }
  }

  /** The inner loop: one client's entries. */
  method ClientSummaries(client: string, tasks: seq<ProbeTask>, series: map<string, seq<real>>)
    returns (m: map<string, Summary>)
    requires DistinctIds(tasks)
    ensures Filled(m, tasks, client, series)
  {
    m := map[];
    for i := 0 to |tasks|
      invariant Filled(m, tasks[..i], client, series)
    {
      var t := tasks[i];
      assert tasks[..i + 1] == tasks[..i] + [t];
      FilledSnoc(m, tasks[..i], t, client, series);
      if !(t.enabled && (t.client == "*" || t.client == client)) { continue; }
      var p := SummarizePing(t.name, At(series, client + "|" + Itoa(t.id)));
      m := m[Itoa(t.id) := p];
    }
    assert tasks[..|tasks|] == tasks;
  }

  function EntriesOf(out: map<string, map<string, Summary>>, client: string): map<string, Summary> {
    if client in out then out[client] else map[]
  }

  /** One client's entries: a summary for each enabled task visible to the client, under the task's id, and
      nothing else; each summarises the 150 newest values of exactly that client and task. */
  ghost predicate Complete(m: map<string, Summary>, tasks: seq<ProbeTask>, records: seq<Record<Result>>, client: string)
  {
    && (forall key :: key in m <==> HasTask(tasks, client, key))
    && (forall t :: t in tasks && t.enabled && (t.client == "*" || t.client == client) ==>
          Itoa(t.id) in m && m[Itoa(t.id)] == Summarize(t.name, Newest(records, client, t.id)))
  }

  lemma FilledIsComplete(m: map<string, Summary>, tasks: seq<ProbeTask>, records: seq<Record<Result>>, idx: seq<nat>,
                         rows: seq<Sample>,
                         client: string, series: map<string, seq<real>>)
    requires Filled(m, tasks, client, series) && Answers(records, idx, rows)
    requires forall id :: At(series, ClientKey(client, id)) == RowsOf(rows, client, id)
    ensures Complete(m, tasks, records, client)
  {
    forall t | t in tasks && Visible(t, client)
      ensures Itoa(t.id) in m && m[Itoa(t.id)] == Summarize(t.name, Newest(records, client, t.id))
    {
      BatchedIsNewest(records, idx, rows, client, t.id);
    }
  }

  /** Every client asked for has the entries it should, and no other client has any. */
  ghost predicate AllGood(out: map<string, map<string, Summary>>, clients: seq<string>,
                          good: (string, map<string, Summary>) -> bool)
  {
    && (forall c :: c in clients ==> good(c, EntriesOf(out, c)))
    && (forall c :: c in out ==> c in clients && out[c] != map[])
  }

  lemma AllGoodSnoc(out: map<string, map<string, Summary>>, init: seq<string>, client: string, m: map<string, Summary>,
                    good: (string, map<string, Summary>) -> bool)
    requires AllGood(out, init, good) && client !in init && good(client, m)
    ensures AllGood(if |m| > 0 then out[client := m] else out, init + [client], good)
  {
    var out' := if |m| > 0 then out[client := m] else out;
    assert EntriesOf(out', client) == m;
    forall c | c in init + [client] ensures good(c, EntriesOf(out', c)) {
      if c != client {
        assert c in init && EntriesOf(out', c) == EntriesOf(out, c);
      }
    }
  }

  /** pingSummaries refines the simple form: every client asked for gets its complete entries, and no other
      client, nor one without entries, gets any. */
  method ComputeSummaries(tasks: seq<ProbeTask>, ghost records: seq<Record<Result>>, ghost idx: seq<nat>,
                          rows: seq<Sample>, clients: seq<string>)
    returns (out: map<string, map<string, Summary>>)
    requires DistinctIds(tasks)
    requires forall i, j :: 0 <= i < j < |clients| ==> clients[i] != clients[j]
    requires Answers(records, idx, rows)
    ensures forall c :: c in clients ==> Complete(EntriesOf(out, c), tasks, records, c)
    ensures forall c :: c in out ==> c in clients && out[c] != map[]
  {
    var series := GroupRows(rows);
    ghost var good := (c: string, m: map<string, Summary>) => Complete(m, tasks, records, c);
    out := map[];
    for i := 0 to |clients|
      invariant AllGood(out, clients[..i], good)
    {
      var client := clients[i];
      assert clients[..i + 1] == clients[..i] + [client];
      var m := ClientSummaries(client, tasks, series);
      FilledIsComplete(m, tasks, records, idx, rows, client, series);
      AllGoodSnoc(out, clients[..i], client, m, good);
      if |m| > 0 {
        out := out[client := m];
      }
    }
    assert clients[..|clients|] == clients;
    AllComplete(out, tasks, records, clients, good);
  }

  lemma AllComplete(out: map<string, map<string, Summary>>, tasks: seq<ProbeTask>, records: seq<Record<Result>>,
                    clients: seq<string>, good: (string, map<string, Summary>) -> bool)
    requires AllGood(out, clients, good)
    requires forall c, m :: good(c, m) ==> Complete(m, tasks, records, c)
    ensures forall c :: c in clients ==> Complete(EntriesOf(out, c), tasks, records, c)
    ensures forall c :: c in out ==> c in clients && out[c] != map[]
  {
    forall c | c in clients ensures Complete(EntriesOf(out, c), tasks, records, c) {
      assert good(c, EntriesOf(out, c));
    }
  }
}
