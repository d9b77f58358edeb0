/** The probe scheduler's tick loop (internal/probe/scheduler.go): which probes each tick hands over for
    execution. Times and intervals are nanoseconds. */
module Scheduler {
  import opened Text
  import opened Throttle

  const SECOND: int := 1_000_000_000
  const DEFAULT_PERIOD: int := 60 * SECOND

  datatype Task = Task(id: int, name: string, typ: string, target: string, interval: int, enabled: bool)

  /** A call of `schedule`. */
  datatype Dispatch = Dispatch(client: string, task: Task, at: int)

  datatype State = State(lastRun: map<string, int>, dispatched: seq<Dispatch>)

  const START: State := State(map[], [])

  /** What one tick sees: its time, the clients from the store (None when that query failed) and the task
      list of each client (None when that query failed). */
  datatype Input = Input(now: int, stored: Option<seq<string>>, tasksOf: string -> Option<seq<Task>>)

  function Period(t: Task): int {
    if t.interval <= 0 then DEFAULT_PERIOD else t.interval
  }

  // ---------- clients ----------

  /** First occurrences, without the empty name. */
  function Distinct(cs: seq<string>): (r: seq<string>)
    ensures forall c :: c in r <==> c in cs && c != ""
    ensures forall i, j :: 0 <= i < j < |r| ==> r[i] != r[j]
  {
    if cs == [] then []
    else
      var init, c := cs[..|cs| - 1], cs[|cs| - 1];
      assert cs == init + [c];
      if c == "" || c in init then Distinct(init) else Distinct(init) + [c]
  }

  function Stored(stored: Option<seq<string>>): seq<string> {
    match stored
    case Some(cs) => cs
    case None => []
  }

  lemma DistinctSnoc(cs: seq<string>, i: nat)
    requires i < |cs|
    ensures Distinct(cs[..i + 1]) ==
            if cs[i] == "" || cs[i] in Distinct(cs[..i]) then Distinct(cs[..i]) else Distinct(cs[..i]) + [cs[i]]
  {
    assert cs[..i + 1][..i] == cs[..i];
  }

  /** A name that is not empty and stands there for the first time. */
  function FirstTime(cs: seq<string>): nat -> bool {
    (i: nat) => i < |cs| && cs[i] != "" && cs[i] !in cs[..i]
  }

  lemma {:induction false} DistinctUpTo(cs: seq<string>, n: nat) returns (idx: seq<nat>)
    requires n <= |cs|
    ensures PlacesOf(idx, n, FirstTime(cs)) && Distinct(cs[..n]) == Pick(cs, idx)
  {
    if n == 0 {
      idx := [];
    } else {
      idx := DistinctUpTo(cs, n - 1);
      DistinctSnoc(cs, n - 1);
      PlacesSnoc(cs, idx, n - 1, FirstTime(cs));
      if FirstTime(cs)(n - 1) {
        idx := idx + [n - 1];
      }
    }
  }

  /** The clients come in the order in which their names stand there first. */
  lemma DistinctInOrder(cs: seq<string>) returns (idx: seq<nat>)
    ensures Climbing(idx, |cs|) && Distinct(cs) == Pick(cs, idx)
    ensures forall i: nat :: i in idx <==> i < |cs| && cs[i] != "" && cs[i] !in cs[..i]
  {
    idx := DistinctUpTo(cs, |cs|);
    assert cs[..|cs|] == cs;
    assert forall i: nat :: i in idx <==> i < |cs| && FirstTime(cs)(i);
  }

  /** `clients()`: the stored clients, then the fixed extra ones. */
  method Clients(stored: Option<seq<string>>, extra: seq<string>) returns (out: seq<string>)
    ensures out == Distinct(Stored(stored) + extra) && forall i, j :: 0 <= i < j < |out| ==> out[i] != out[j]
    ensures forall c :: c in out <==> c != "" && ((stored.Some? && c in stored.value) || c in extra)
  {
    var all := (match stored case Some(cs) => cs case None => []) + extra;
    var seen: set<string> := {};
    out := [];
    for i := 0 to |all|
      invariant out == Distinct(all[..i])
      invariant forall c :: c in seen <==> c in out
    {
      var c := all[i];
      DistinctSnoc(all, i);
      if c != "" && c !in seen {
        seen := seen + {c};
        out := out + [c];
      }
    }
    assert all[..|all|] == all;
  }

  // ---------- one tick ----------

  /** An enabled task of a client met at some time: a chance for its key to run. */
  function Chances(client: string, tasks: seq<Task>, now: int): seq<Dispatch> {
    if tasks == [] then []
    else
      var init, t := tasks[..|tasks| - 1], tasks[|tasks| - 1];
      if t.enabled then Chances(client, init, now) + [Dispatch(client, t, now)] else Chances(client, init, now)
  }

  lemma {:induction false} ChancesShape(client: string, tasks: seq<Task>, now: int)
    ensures forall d :: d in Chances(client, tasks, now) <==>
              d.client == client && d.at == now && d.task in tasks && d.task.enabled
  {
    if tasks == [] {
    } else {
      ChancesShape(client, tasks[..|tasks| - 1], now);
      assert tasks == tasks[..|tasks| - 1] + [tasks[|tasks| - 1]];
    }
  }

  function TasksOf(i: Input, client: string): seq<Task> {
    match i.tasksOf(client)
    case Some(ts) => ts
    case None => []
  }

  /** All chances of one tick, client by client. */
  function TickChances(i: Input, clients: seq<string>): seq<Dispatch> {
    if clients == [] then []
    else
      var init, client := clients[..|clients| - 1], clients[|clients| - 1];
      TickChances(i, init) + Chances(client, TasksOf(i, client), i.now)
  }

  function KeyOf(d: Dispatch): string {
    ClientKey(d.client, d.task.id)
  }

  function Last(lastRun: map<string, int>, key: string): Option<int> {
    if key in lastRun then Some(lastRun[key]) else None
  }

  /** Taking one chance. */
  function Take(s: State, d: Dispatch): State {
    if Due(Last(s.lastRun, KeyOf(d)), d.at, Period(d.task))
    then State(s.lastRun[KeyOf(d) := d.at], s.dispatched + [d])
    else s
  }

  function TakeAll(s: State, ds: seq<Dispatch>): State {
    if ds == [] then s else Take(TakeAll(s, ds[..|ds| - 1]), ds[|ds| - 1])
  }

  function Tick(s: State, i: Input, extra: seq<string>): State {
    TakeAll(s, TickChances(i, Distinct(Stored(i.stored) + extra)))
  }

  lemma {:induction false} TakeAllConcat(s: State, a: seq<Dispatch>, b: seq<Dispatch>)
    ensures TakeAll(s, a + b) == TakeAll(TakeAll(s, a), b)
  {
    if b == [] {
      assert a + b == a;
    } else {
      assert (a + b)[..|a + b| - 1] == a + b[..|b| - 1];
      TakeAllConcat(s, a, b[..|b| - 1]);
    }
  }

  /** One more task in the inner loop. */
  lemma ChancesStep(s: State, client: string, tasks: seq<Task>, k: nat, now: int)
    requires k < |tasks|
    ensures var done := TakeAll(s, Chances(client, tasks[..k], now));
            TakeAll(s, Chances(client, tasks[..k + 1], now)) ==
            if tasks[k].enabled then Take(done, Dispatch(client, tasks[k], now)) else done
  {
    var before, d := Chances(client, tasks[..k], now), Dispatch(client, tasks[k], now);
    assert tasks[..k + 1][..k] == tasks[..k];
    assert (before + [d])[..|before|] == before;
  }

  /** One more client in the outer loop. */
  lemma TickStep(s: State, i: Input, clients: seq<string>, k: nat)
    requires k < |clients|
    ensures TakeAll(s, TickChances(i, clients[..k + 1])) ==
            TakeAll(TakeAll(s, TickChances(i, clients[..k])), Chances(clients[k], TasksOf(i, clients[k]), i.now))
  {
    assert clients[..k + 1][..k] == clients[..k];
    TakeAllConcat(s, TickChances(i, clients[..k]), Chances(clients[k], TasksOf(i, clients[k]), i.now));
  }

  class ProbeScheduler {
    const extra: seq<string>
    var lastRun: map<string, int>
    var dispatched: seq<Dispatch>

    function Current(): State
      reads this
    {
      State(lastRun, dispatched)
    }

    constructor (extra: seq<string>)
      ensures Current() == START && this.extra == extra
    {
      this.extra := extra;
      lastRun, dispatched := map[], [];
    }

    /** The inner loop over one client's tasks. */
    method RunClient(client: string, tasks: seq<Task>, now: int)
      modifies this
      ensures Current() == TakeAll(old(Current()), Chances(client, tasks, now))
    {
      ghost var start := Current();
      for k := 0 to |tasks|
        invariant Current() == TakeAll(start, Chances(client, tasks[..k], now))
      {
        var t := tasks[k];
        ChancesStep(start, client, tasks, k, now);
        if !t.enabled { continue; }
        var interval := t.interval;
        if interval <= 0 { interval := 60 * SECOND; }
        var key := client + "|" + Itoa(t.id);
        if key in lastRun && now - lastRun[key] < interval { continue; }
        lastRun := lastRun[key := now];
        dispatched := dispatched + [Dispatch(client, t, now)];
      }
      assert tasks[..|tasks|] == tasks;
    }

    /** One tick of `loop`. */
    method RunTick(i: Input)
      modifies this
      ensures Current() == Tick(old(Current()), i, extra)
    {
      var clients := Clients(i.stored, extra);
      for k := 0 to |clients|
        invariant Current() == TakeAll(old(Current()), TickChances(i, clients[..k]))
      {
        var client := clients[k];
        TickStep(old(Current()), i, clients, k);
        var tasks := i.tasksOf(client);
        if tasks.None? { continue; }
        RunClient(client, tasks.value, i.now);
      }
      assert clients[..|clients|] == clients;
    }
  }

  // ---------- one key ----------

  predicate Of(d: Dispatch, client: string, id: int) {
    d.client == client && d.task.id == id
  }

  /** The chances of one (client, task id), as attempts of a throttle. */
  function AttemptsOf(ds: seq<Dispatch>, client: string, id: int): seq<Attempt> {
    if ds == [] then []
    else
      var init, d := ds[..|ds| - 1], ds[|ds| - 1];
      var rest := AttemptsOf(init, client, id);
      if Of(d, client, id) then rest + [AttemptAt(d)] else rest
  }

  function AttemptAt(d: Dispatch): Attempt {
    Attempt(d.at, d.at, Period(d.task))
  }

  lemma {:induction false} AttemptsShape(ds: seq<Dispatch>, client: string, id: int)
    ensures forall d :: d in ds && Of(d, client, id) ==> AttemptAt(d) in AttemptsOf(ds, client, id)
    ensures forall x :: x in AttemptsOf(ds, client, id) ==>
              exists d :: d in ds && Of(d, client, id) && x == AttemptAt(d)
  {
    if ds == [] {
    } else {
      var init, d := ds[..|ds| - 1], ds[|ds| - 1];
      assert ds == init + [d];
      AttemptsShape(init, client, id);
      forall x | x in AttemptsOf(ds, client, id) ensures exists e :: e in ds && Of(e, client, id) && x == AttemptAt(e) {
        if x in AttemptsOf(init, client, id) {
          var e :| e in init && Of(e, client, id) && x == AttemptAt(e);
          assert e in ds;
        } else {
          assert x == AttemptAt(d) && d in ds;
        }
      }
    }
  }

  lemma {:induction false} AttemptsConcat(a: seq<Dispatch>, b: seq<Dispatch>, client: string, id: int)
    ensures AttemptsOf(a + b, client, id) == AttemptsOf(a, client, id) + AttemptsOf(b, client, id)
  {
    if b == [] {
      assert a + b == a;
    } else {
      assert (a + b)[..|a + b| - 1] == a + b[..|b| - 1];
      AttemptsConcat(a, b[..|b| - 1], client, id);
    }
  }

  lemma AttemptsOne(d: Dispatch, client: string, id: int)
    ensures AttemptsOf([d], client, id) == if Of(d, client, id) then [AttemptAt(d)] else []
  {
    assert [d][..0] == [];
  }

  /** For one key the state has dispatched, and remembers, what the throttle lets through of some attempts. */
  ghost predicate Tracks(s: State, client: string, id: int, xs: seq<Attempt>) {
    && AttemptsOf(s.dispatched, client, id) == Fired(xs)
    && Last(s.lastRun, ClientKey(client, id)) == LastStamp(Fired(xs))
  }

  lemma OwnChanceTracked(s: State, client: string, id: int, xs: seq<Attempt>, d: Dispatch)
    requires Tracks(s, client, id, xs) && Of(d, client, id)
    ensures Tracks(Take(s, d), client, id, xs + [AttemptAt(d)])
  {
    assert (xs + [AttemptAt(d)])[..|xs|] == xs;
    AttemptsConcat(s.dispatched, [d], client, id);
    AttemptsOne(d, client, id);
  }

  /** No two (client, id) pairs share an entry of `lastRun`. */
  lemma OtherChanceTracked(s: State, client: string, id: int, xs: seq<Attempt>, d: Dispatch)
    requires Tracks(s, client, id, xs) && !Of(d, client, id)
    ensures Tracks(Take(s, d), client, id, xs)
  {
    AttemptsConcat(s.dispatched, [d], client, id);
    AttemptsOne(d, client, id);
    if KeyOf(d) == ClientKey(client, id) {
      ClientKeyInjective(d.client, d.task.id, client, id);
    }
  }

  /** The loop is, key by key, a throttle: the dispatches of a (client, id) pair are exactly the attempts its
      throttle lets through, and its entry of `lastRun` is the last of them. */
  lemma {:induction false} KeyIsThrottled(ds: seq<Dispatch>, client: string, id: int)
    ensures Tracks(TakeAll(START, ds), client, id, AttemptsOf(ds, client, id))
  {
    if ds == [] {
    } else {
      var init, d := ds[..|ds| - 1], ds[|ds| - 1];
      KeyIsThrottled(init, client, id);
      if Of(d, client, id) {
        OwnChanceTracked(TakeAll(START, init), client, id, AttemptsOf(init, client, id), d);
      } else {
        OtherChanceTracked(TakeAll(START, init), client, id, AttemptsOf(init, client, id), d);
      }
    }
  }

  // ---------- whole runs ----------

  /** All chances of a run, tick by tick. */
  function RunChances(ticks: seq<Input>, extra: seq<string>): seq<Dispatch> {
    if ticks == [] then []
    else
      var init, i := ticks[..|ticks| - 1], ticks[|ticks| - 1];
      RunChances(init, extra) + TickChances(i, Distinct(Stored(i.stored) + extra))
  }

  function Run(ticks: seq<Input>, extra: seq<string>): State {
    if ticks == [] then START else Tick(Run(ticks[..|ticks| - 1], extra), ticks[|ticks| - 1], extra)
  }

  lemma {:induction false} RunIsTakeAll(ticks: seq<Input>, extra: seq<string>)
    ensures Run(ticks, extra) == TakeAll(START, RunChances(ticks, extra))
  {
    if ticks == [] {
    } else {
      var init, i := ticks[..|ticks| - 1], ticks[|ticks| - 1];
      RunIsTakeAll(init, extra);
      TakeAllConcat(START, RunChances(init, extra), TickChances(i, Distinct(Stored(i.stored) + extra)));
    }
  }

  /** The dispatches of one (client, task id), in order. */
  function DispatchesOf(ticks: seq<Input>, extra: seq<string>, client: string, id: int): seq<Dispatch> {
    Filter(Run(ticks, extra).dispatched, OfKey(client, id))
  }

  function OfKey(client: string, id: int): Dispatch -> bool {
    (d: Dispatch) => Of(d, client, id)
  }

  lemma {:induction false} AttemptsAreFiltered(ds: seq<Dispatch>, client: string, id: int)
    ensures AttemptsOf(ds, client, id) == MapSeq(AttemptAt, Filter(ds, OfKey(client, id)))
  {
    if ds == [] {
    } else {
      var init, d := ds[..|ds| - 1], ds[|ds| - 1];
      AttemptsAreFiltered(init, client, id);
      MapConcat(AttemptAt, Filter(init, OfKey(client, id)), [d]);
      assert MapSeq(AttemptAt, [d]) == [AttemptAt(d)];
    }
  }

  lemma DispatchesAreFired(ticks: seq<Input>, extra: seq<string>, client: string, id: int)
    ensures MapSeq(AttemptAt, DispatchesOf(ticks, extra, client, id))
            == Fired(AttemptsOf(RunChances(ticks, extra), client, id))
    ensures Timely(AttemptsOf(RunChances(ticks, extra), client, id))
    ensures forall d :: d in DispatchesOf(ticks, extra, client, id) <==>
              d in Run(ticks, extra).dispatched && d.client == client && d.task.id == id
  {
    RunIsTakeAll(ticks, extra);
    KeyIsThrottled(RunChances(ticks, extra), client, id);
    AttemptsShape(RunChances(ticks, extra), client, id);
    AttemptsAreFiltered(Run(ticks, extra).dispatched, client, id);
    FilterMembers(Run(ticks, extra).dispatched, OfKey(client, id));
  }

  /** Spacing: in every run, whatever the lists, the clock and repetitions inside one tick, any two
      dispatches of one (client, task id) are at least the interval of the later one's task apart, a minute if
      it has none. */
  lemma SchedulerSpacing(ticks: seq<Input>, extra: seq<string>, client: string, id: int)
    ensures var f := DispatchesOf(ticks, extra, client, id);
            forall i, j :: 0 <= i < j < |f| ==>
              f[j].at - f[i].at >= if f[j].task.interval > 0 then f[j].task.interval else 60_000_000_000
  {
    var f := DispatchesOf(ticks, extra, client, id);
    var fired := MapSeq(AttemptAt, f);
    DispatchesAreFired(ticks, extra, client, id);
    FiredSpaced(AttemptsOf(RunChances(ticks, extra), client, id));
    forall i, j | 0 <= i < j < |f|
      ensures f[j].at - f[i].at >= if f[j].task.interval > 0 then f[j].task.interval else 60_000_000_000
    {
      assert fired[j] == AttemptAt(f[j]) && fired[i] == AttemptAt(f[i]);
    }
  }

  /** Hence at most 1 + floor(span / period) dispatches of a key fit into a span, when its interval is
      never below period. */
  lemma SchedulerRate(ticks: seq<Input>, extra: seq<string>, client: string, id: int, i: nat, j: nat, period: int,
                      span: int)
    requires var f := DispatchesOf(ticks, extra, client, id);
             && period > 0 && i < j <= |f| && f[j - 1].at - f[i].at <= span
             && forall d :: d in f ==> period <= if d.task.interval > 0 then d.task.interval else 60_000_000_000
    ensures j - i <= 1 + span / period
  {
    var f := DispatchesOf(ticks, extra, client, id);
    DispatchesAreFired(ticks, extra, client, id);
    FiredSpaced(AttemptsOf(RunChances(ticks, extra), client, id));
    PeriodsAtLeast(f, period);
    FiredCount(MapSeq(AttemptAt, f), i, j, period, span);
  }

  lemma PeriodsAtLeast(f: seq<Dispatch>, period: int)
    requires forall d :: d in f ==> period <= if d.task.interval > 0 then d.task.interval else 60_000_000_000
    ensures forall x :: x in MapSeq(AttemptAt, f) ==> x.period >= period
  {
    var fired := MapSeq(AttemptAt, f);
    forall x | x in fired ensures x.period >= period {
      var k :| 0 <= k < |fired| && fired[k] == x;
      assert f[k] in f;
    }
  }

  // ---------- no starvation ----------

  lemma {:induction false} TickChancesShape(i: Input, clients: seq<string>)
    ensures forall d :: d in TickChances(i, clients) <==>
              d.client in clients && d.at == i.now && d.task in TasksOf(i, d.client) && d.task.enabled
  {
    if clients == [] {
    } else {
      TickChancesShape(i, clients[..|clients| - 1]);
      ChancesShape(clients[|clients| - 1], TasksOf(i, clients[|clients| - 1]), i.now);
      assert clients == clients[..|clients| - 1] + [clients[|clients| - 1]];
    }
  }

  /** The tick lists the key: the client is known, its list is there and holds an enabled task of this id, and
      every enabled listing of it asks for an interval of at most `period`, a minute if it has none. */
  ghost predicate Listed(i: Input, extra: seq<string>, client: string, id: int, period: int) {
    && client != "" && ((i.stored.Some? && client in i.stored.value) || client in extra)
    && i.tasksOf(client).Some?
    && (exists t :: t in i.tasksOf(client).value && t.id == id && t.enabled)
    && (forall t :: t in i.tasksOf(client).value && t.id == id && t.enabled ==>
          (if t.interval > 0 then t.interval else 60_000_000_000) <= period)
  }

  ghost predicate AlwaysListed(ticks: seq<Input>, extra: seq<string>, client: string, id: int, period: int, gap: int) {
    && (forall k :: 0 <= k < |ticks| ==> Listed(ticks[k], extra, client, id, period))
    && (forall k, l :: 0 <= k < l < |ticks| && l == k + 1 ==> ticks[l].now - ticks[k].now <= gap)
  }

  /** One tick's chances of a key. */
  function RoundOf(i: Input, extra: seq<string>, client: string, id: int): Round {
    Round(i.now, AttemptsOf(TickChances(i, Distinct(Stored(i.stored) + extra)), client, id))
  }

  function Rounds(ticks: seq<Input>, extra: seq<string>, client: string, id: int): seq<Round> {
    seq(|ticks|, k requires 0 <= k < |ticks| => RoundOf(ticks[k], extra, client, id))
  }

  lemma RoundsSnoc(init: seq<Input>, i: Input, extra: seq<string>, client: string, id: int)
    ensures Rounds(init + [i], extra, client, id) == Rounds(init, extra, client, id) + [RoundOf(i, extra, client, id)]
  {
  }

  /** The chances of one tick, as RunChances adds them. */
  function ChancesOf(i: Input, extra: seq<string>): seq<Dispatch> {
    TickChances(i, Distinct(Stored(i.stored) + extra))
  }

  lemma RunChancesSnoc(init: seq<Input>, i: Input, extra: seq<string>)
    ensures RunChances(init + [i], extra) == RunChances(init, extra) + ChancesOf(i, extra)
  {
    assert (init + [i])[..|init|] == init;
  }

  lemma {:induction false} RoundsAreAttempts(ticks: seq<Input>, extra: seq<string>, client: string, id: int)
    ensures Flatten(Rounds(ticks, extra, client, id)) == AttemptsOf(RunChances(ticks, extra), client, id)
  {
    if ticks == [] {
    } else {
      var init, i := ticks[..|ticks| - 1], ticks[|ticks| - 1];
      assert ticks == init + [i];
      RoundsAreAttempts(init, extra, client, id);
      RunChancesSnoc(init, i, extra);
      AttemptsConcat(RunChances(init, extra), ChancesOf(i, extra), client, id);
      RoundsSnoc(init, i, extra, client, id);
      FlattenSnoc(Rounds(init, extra, client, id), RoundOf(i, extra, client, id));
    }
  }

  lemma ListedIsRegular(i: Input, extra: seq<string>, client: string, id: int, period: int)
    requires Listed(i, extra, client, id, period)
    ensures Regular(RoundOf(i, extra, client, id), period, 0)
  {
    var clients := Distinct(Stored(i.stored) + extra);
    var ds := TickChances(i, clients);
    TickChancesShape(i, clients);
    AttemptsShape(ds, client, id);
    var t :| t in TasksOf(i, client) && t.id == id && t.enabled;
    assert Dispatch(client, t, i.now) in ds && Of(Dispatch(client, t, i.now), client, id);
    assert AttemptAt(Dispatch(client, t, i.now)) in AttemptsOf(ds, client, id);
  }

  lemma ListedRegular(ticks: seq<Input>, extra: seq<string>, client: string, id: int, period: int, gap: int)
    requires AlwaysListed(ticks, extra, client, id, period, gap)
    ensures AllRegular(Rounds(ticks, extra, client, id), period, gap, 0)
  {
    var rs := Rounds(ticks, extra, client, id);
    forall k | 0 <= k < |rs| ensures Regular(rs[k], period, 0) {
      ListedIsRegular(ticks[k], extra, client, id, period);
    }
  }

  lemma ListedRounds(ticks: seq<Input>, extra: seq<string>, client: string, id: int, period: int, gap: int)
    requires gap >= 0 && AlwaysListed(ticks, extra, client, id, period, gap) && ticks != []
    ensures var xs := AttemptsOf(RunChances(ticks, extra), client, id);
            xs != [] && Attended(xs, period, gap, 0) && xs[0].stamp == ticks[0].now
                && xs[|xs| - 1].at == ticks[|ticks| - 1].now
  {
    var rs := Rounds(ticks, extra, client, id);
    ListedRegular(ticks, extra, client, id, period, gap);
    RoundsAttended(rs, period, gap, 0);
    RoundsAreAttempts(ticks, extra, client, id);
    RoundEnds(rs, period);
  }

  lemma RoundEnds(rs: seq<Round>, period: int)
    requires rs != [] && forall k :: 0 <= k < |rs| ==> Regular(rs[k], period, 0)
    ensures var xs := Flatten(rs); xs != [] && xs[0].stamp == rs[0].start && xs[|xs| - 1].at == rs[|rs| - 1].start
  {
    FlattenEnds(rs);
    var first, last := rs[0], rs[|rs| - 1];
    assert Regular(first, period, 0) && Regular(last, period, 0);
    assert first.attempts[0] in first.attempts && last.attempts[|last.attempts| - 1] in last.attempts;
  }

  /** No starvation: a task listed and enabled at every tick, with an interval of at most `period` and
      ticks at most `gap` apart, is dispatched at the first tick, then again and again less than
      period + gap apart, and at the last tick its last dispatch is less than one period old. */
  lemma SchedulerNoStarvation(ticks: seq<Input>, extra: seq<string>, client: string, id: int, period: int, gap: int)
    requires gap >= 0 && AlwaysListed(ticks, extra, client, id, period, gap) && ticks != []
    ensures var f := DispatchesOf(ticks, extra, client, id);
            && f != [] && f[0].at == ticks[0].now
            && ticks[|ticks| - 1].now - f[|f| - 1].at < period
            && forall i, j :: 0 <= i < j < |f| && j == i + 1 ==> f[j].at - f[i].at < period + gap
  {
    var f := DispatchesOf(ticks, extra, client, id);
    var fired := MapSeq(AttemptAt, f);
    DispatchesAreFired(ticks, extra, client, id);
    ListedRounds(ticks, extra, client, id, period, gap);
    FiredOften(AttemptsOf(RunChances(ticks, extra), client, id), period, gap, 0);
    forall i, j | 0 <= i < j < |f| && j == i + 1 ensures f[j].at - f[i].at < period + gap {
      assert fired[j] == AttemptAt(f[j]) && fired[i] == AttemptAt(f[i]);
    }
  }

  // ---------- what one tick dispatches ----------

  ghost predicate SomeDue(s: State, ds: seq<Dispatch>, now: int, client: string, id: int) {
    exists d :: d in ds && Of(d, client, id) && Due(Last(s.lastRun, ClientKey(client, id)), now, Period(d.task))
  }

  lemma SomeDueSnoc(s: State, init: seq<Dispatch>, d: Dispatch, now: int, client: string, id: int)
    ensures SomeDue(s, init + [d], now, client, id) ==
            (SomeDue(s, init, now, client, id)
             || (Of(d, client, id) && Due(Last(s.lastRun, ClientKey(client, id)), now, Period(d.task))))
  {
    assert d in init + [d];
  }

  function CountOf(s: State, client: string, id: int): nat {
    |AttemptsOf(s.dispatched, client, id)|
  }

  /** What one chance does to one key. */
  lemma TakeExact(s: State, d: Dispatch, client: string, id: int)
    ensures var s', key := Take(s, d), ClientKey(client, id);
            var hit := Of(d, client, id) && Due(Last(s.lastRun, key), d.at, Period(d.task));
            && s.dispatched <= s'.dispatched
            && CountOf(s', client, id) == CountOf(s, client, id) + (if hit then 1 else 0)
            && Last(s'.lastRun, key) == if hit then Some(d.at) else Last(s.lastRun, key)
  {
    AttemptsConcat(s.dispatched, [d], client, id);
    AttemptsOne(d, client, id);
    if !Of(d, client, id) && KeyOf(d) == ClientKey(client, id) {
      ClientKeyInjective(d.client, d.task.id, client, id);
    }
  }

  lemma {:induction false} TakeAllExact(s: State, ds: seq<Dispatch>, now: int, client: string, id: int)
    requires forall d :: d in ds ==> d.at == now
    ensures var s' := TakeAll(s, ds);
            var key := ClientKey(client, id);
            var added := SomeDue(s, ds, now, client, id);
            && s.dispatched <= s'.dispatched
            && CountOf(s', client, id) == CountOf(s, client, id) + (if added then 1 else 0)
            && Last(s'.lastRun, key) == if added then Some(now) else Last(s.lastRun, key)
  {
    if ds == [] {
    } else {
      var init, d := ds[..|ds| - 1], ds[|ds| - 1];
      assert ds == init + [d] && d in ds;
      TakeAllExact(s, init, now, client, id);
      TakeExact(TakeAll(s, init), d, client, id);
      SomeDueSnoc(s, init, d, now, client, id);
    }
  }

  /** The client is stored or extra and has a name, and an enabled task of this id in its list is due: the key
      never ran before the tick, or the task's interval, a minute if it has none, is over since it last did. */
  ghost predicate DueAt(s: State, i: Input, extra: seq<string>, client: string, id: int) {
    && client != "" && ((i.stored.Some? && client in i.stored.value) || client in extra)
    && i.tasksOf(client).Some?
    && exists t :: t in i.tasksOf(client).value && t.id == id && t.enabled
        && (ClientKey(client, id) in s.lastRun ==>
              i.now - s.lastRun[ClientKey(client, id)] >= if t.interval > 0 then t.interval else 60_000_000_000)
  }

  lemma PrefixAttempts(a: seq<Dispatch>, b: seq<Dispatch>, client: string, id: int)
    requires a <= b
    ensures |AttemptsOf(b[|a|..], client, id)| == |AttemptsOf(b, client, id)| - |AttemptsOf(a, client, id)|
  {
    assert b == a + b[|a|..];
    AttemptsConcat(a, b[|a|..], client, id);
  }

  lemma {:induction false} TakenFrom(s: State, ds: seq<Dispatch>)
    ensures s.dispatched <= TakeAll(s, ds).dispatched
    ensures forall d :: d in TakeAll(s, ds).dispatched[|s.dispatched|..] ==> d in ds
  {
    if ds == [] {
    } else {
      var init, d := ds[..|ds| - 1], ds[|ds| - 1];
      assert ds == init + [d];
      TakenFrom(s, init);
    }
  }

  /** Tasks of a client, dispatched at some time. */
  function DispatchesAt(client: string, tasks: seq<Task>, now: int): (ds: seq<Dispatch>)
    ensures |ds| == |tasks| && forall k :: 0 <= k < |ds| ==> ds[k] == Dispatch(client, tasks[k], now)
  {
    seq(|tasks|, k requires 0 <= k < |tasks| => Dispatch(client, tasks[k], now))
  }

  lemma OneMoreTaken(before: seq<Dispatch>, client: string, tasks: seq<Task>, now: int, idx: seq<nat>, n: nat)
    requires Climbing(idx, n) && n < |tasks|
    ensures Climbing(idx, n + 1) && Climbing(idx + [n], n + 1)
    ensures before + DispatchesAt(client, Pick(tasks, idx + [n]), now)
            == before + DispatchesAt(client, Pick(tasks, idx), now) + [Dispatch(client, tasks[n], now)]
  {
  }

  lemma {:induction false} TickChancesConcat(i: Input, a: seq<string>, b: seq<string>)
    ensures TickChances(i, a + b) == TickChances(i, a) + TickChances(i, b)
  {
    if b == [] {
      assert a + b == a;
    } else {
      assert (a + b)[..|a + b| - 1] == a + b[..|b| - 1];
      TickChancesConcat(i, a, b[..|b| - 1]);
    }
  }

  /** The clients have their turns one after the other, in the order of their list. */
  lemma ClientsInTurn(s: State, i: Input, a: seq<string>, b: seq<string>)
    ensures TakeAll(s, TickChances(i, a + b)) == TakeAll(TakeAll(s, TickChances(i, a)), TickChances(i, b))
  {
    TickChancesConcat(i, a, b);
    TakeAllConcat(s, TickChances(i, a), TickChances(i, b));
  }

  /** What one client's tasks add to the dispatches, they add in the order of its list. */
  lemma {:induction false} TakenInOrder(s: State, client: string, tasks: seq<Task>, now: int, n: nat)
    returns (idx: seq<nat>)
    requires n <= |tasks|
    ensures Climbing(idx, n)
    ensures TakeAll(s, Chances(client, tasks[..n], now)).dispatched
            == s.dispatched + DispatchesAt(client, Pick(tasks, idx), now)
  {
    if n == 0 {
      idx := [];
    } else {
      idx := TakenInOrder(s, client, tasks, now, n - 1);
      ChancesStep(s, client, tasks, n - 1, now);
      OneMoreTaken(s.dispatched, client, tasks, now, idx, n - 1);
      var before := TakeAll(s, Chances(client, tasks[..n - 1], now));
      if TakeAll(s, Chances(client, tasks[..n], now)).dispatched != before.dispatched {
        idx := idx + [n - 1];
      }
    }
  }

  /** Each tick dispatches exactly the due keys, once each, and nothing but enabled tasks of its lists. */
  lemma TickDispatchesDueKeys(s: State, i: Input, extra: seq<string>, client: string, id: int)
    ensures var s' := Tick(s, i, extra);
            && s.dispatched <= s'.dispatched
            && |Filter(s'.dispatched[|s.dispatched|..], OfKey(client, id))|
               == (if DueAt(s, i, extra, client, id) then 1 else 0)
            && forall d :: d in s'.dispatched[|s.dispatched|..] ==>
                 d.at == i.now && i.tasksOf(d.client).Some? && d.task in i.tasksOf(d.client).value && d.task.enabled
  {
    var clients := Distinct(Stored(i.stored) + extra);
    var ds := TickChances(i, clients);
    TickChancesShape(i, clients);
    TakenFrom(s, ds);
    TakeAllExact(s, ds, i.now, client, id);
    PrefixAttempts(s.dispatched, Tick(s, i, extra).dispatched, client, id);
    AttemptsAreFiltered(Tick(s, i, extra).dispatched[|s.dispatched|..], client, id);
    if DueAt(s, i, extra, client, id) {
      var t :| t in i.tasksOf(client).value && t.id == id && t.enabled
          && (ClientKey(client, id) in s.lastRun ==>
                i.now - s.lastRun[ClientKey(client, id)] >= if t.interval > 0 then t.interval else 60_000_000_000);
      assert Dispatch(client, t, i.now) in ds && Of(Dispatch(client, t, i.now), client, id);
    }
  }
}
