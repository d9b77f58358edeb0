/** The alert watcher (internal/alert/watcher.go): every tick turns the node snapshots into events and
    hands them to the manager. Joined to the manager it bounds, from both sides, how often a node that
    stays offline is reported. */
module Watcher {
  import opened Text
  import opened MuteWindows
  import opened Alerts
  import opened Throttle

  /** A node's state; the ping entries stand in the order the map iteration yields them. */
  datatype Snapshot = Snapshot(uuid: string, name: string, online: bool, pings: seq<(string, real)>)

  function PingEvent(s: Snapshot, p: (string, real)): Event {
    if p.1 < 0.0 then Event("loss", s.uuid, s.name, 100.0, "probe loss: " + p.0)
    else Event("latency", s.uuid, s.name, p.1, "high latency: " + p.0)
  }

  function OfflineEvent(s: Snapshot): Event {
    Event("offline", s.uuid, s.name, 1.0, "node offline")
  }

  function PingEvents(s: Snapshot, pings: seq<(string, real)>): (evs: seq<Event>)
    ensures |evs| == |pings|
  {
    if pings == [] then [] else PingEvents(s, pings[..|pings| - 1]) + [PingEvent(s, pings[|pings| - 1])]
  }

  function SnapshotEvents(s: Snapshot): (evs: seq<Event>)
    ensures |evs| == (if s.online then 0 else 1) + |s.pings|
  {
    (if s.online then [] else [OfflineEvent(s)]) + PingEvents(s, s.pings)
  }

  function TickEvents(snaps: seq<Snapshot>): seq<Event> {
    if snaps == [] then [] else TickEvents(snaps[..|snaps| - 1]) + SnapshotEvents(snaps[|snaps| - 1])
  }

  lemma {:induction false} PingEventsAt(s: Snapshot, pings: seq<(string, real)>, j: nat)
    requires j < |pings|
    ensures PingEvents(s, pings)[j] == PingEvent(s, pings[j])
  {
    if j == |pings| - 1 {
    } else {
      PingEventsAt(s, pings[..|pings| - 1], j);
    }
  }

  /** A node's events: first that it is offline, if it is, and then one for each ping entry in order, a loss of
      100 for a negative value and otherwise a latency of the value; all of them name the node. */
  lemma SnapshotExactly(s: Snapshot, k: nat)
    requires k < |SnapshotEvents(s)|
    ensures |SnapshotEvents(s)| == |s.pings| + (if s.online then 0 else 1)
    ensures var ev := SnapshotEvents(s)[k];
            && ev.node == s.uuid && ev.nodeName == s.name
            && if !s.online && k == 0 then ev.kind == "offline" && ev.value == 1.0
               else
                 var ms := s.pings[if s.online then k else k - 1].1;
                 if ms < 0.0 then ev.kind == "loss" && ev.value == 100.0 else ev.kind == "latency" && ev.value == ms
  {
    if s.online || k > 0 {
      PingEventsAt(s, s.pings, if s.online then k else k - 1);
    }
  }

  /** A tick's events are those of its snapshots one after the other. */
  lemma {:induction false} TickEventsConcat(a: seq<Snapshot>, b: seq<Snapshot>)
    ensures TickEvents(a + b) == TickEvents(a) + TickEvents(b)
    ensures forall s :: TickEvents([s]) == SnapshotEvents(s)
  {
    forall s ensures TickEvents([s]) == SnapshotEvents(s) {
      assert [s][..0] == [];
    }
    if b == [] {
      assert a + b == a;
    } else {
      assert (a + b)[..|a + b| - 1] == a + b[..|b| - 1];
      TickEventsConcat(a, b[..|b| - 1]);
    }
  }

  /** The clock readings of one Evaluate call. */
  datatype Reading = Reading(sinceAt: int, now: int, stamp: int)

  function CallAt(ev: Event, r: Reading): Call {
    Call(ev, r.sinceAt, r.now, r.stamp)
  }

  /** The calls for some events of one tick; the tick's k-th call reads the clock as `readings(k)`, and
      these events start at its call number `base`. */
  function Calls(events: seq<Event>, readings: nat -> Reading, base: nat): (cs: seq<Call>)
    ensures |cs| == |events| && forall k :: 0 <= k < |cs| ==> cs[k] == CallAt(events[k], readings(base + k))
  {
    if events == [] then []
    else Calls(events[..|events| - 1], readings, base) + [CallAt(events[|events| - 1], readings(base + |events| - 1))]
  }

  function EvaluateAll(s: State, cs: seq<Call>, cfg: Config): State {
    if cs == [] then s else Evaluated(EvaluateAll(s, cs[..|cs| - 1], cfg), cs[|cs| - 1], cfg)
  }

  lemma {:induction false} EvaluateAllConcat(s: State, a: seq<Call>, b: seq<Call>, cfg: Config)
    ensures EvaluateAll(s, a + b, cfg) == EvaluateAll(EvaluateAll(s, a, cfg), b, cfg)
  {
    if b == [] {
      assert a + b == a;
    } else {
      assert (a + b)[..|a + b| - 1] == a + b[..|b| - 1];
      EvaluateAllConcat(s, a, b[..|b| - 1], cfg);
    }
  }

  lemma EvaluateMore(s: State, all: seq<Event>, a: seq<Event>, b: seq<Event>, readings: nat -> Reading, base: nat,
                     cfg: Config)
    requires all == a + b
    ensures EvaluateAll(s, Calls(all, readings, base), cfg) ==
            EvaluateAll(EvaluateAll(s, Calls(a, readings, base), cfg), Calls(b, readings, base + |a|), cfg)
  {
    assert Calls(all, readings, base) == Calls(a, readings, base) + Calls(b, readings, base + |a|);
    EvaluateAllConcat(s, Calls(a, readings, base), Calls(b, readings, base + |a|), cfg);
  }

  lemma EvaluateOne(s: State, ev: Event, readings: nat -> Reading, base: nat, cfg: Config)
    ensures EvaluateAll(s, Calls([ev], readings, base), cfg) == Evaluated(s, CallAt(ev, readings(base)), cfg)
  {
    var cs := Calls([ev], readings, base);
    assert cs[..0] == [] && cs[0] == CallAt(ev, readings(base));
  }

  lemma PingStep(s: State, snap: Snapshot, j: nat, readings: nat -> Reading, base: nat, cfg: Config)
    requires j < |snap.pings|
    ensures EvaluateAll(s, Calls(PingEvents(snap, snap.pings[..j + 1]), readings, base), cfg) ==
            Evaluated(EvaluateAll(s, Calls(PingEvents(snap, snap.pings[..j]), readings, base), cfg),
                      CallAt(PingEvent(snap, snap.pings[j]), readings(base + j)), cfg)
  {
    var done, ev := PingEvents(snap, snap.pings[..j]), PingEvent(snap, snap.pings[j]);
    assert snap.pings[..j + 1][..j] == snap.pings[..j];
    EvaluateMore(s, PingEvents(snap, snap.pings[..j + 1]), done, [ev], readings, base, cfg);
    EvaluateOne(EvaluateAll(s, Calls(done, readings, base), cfg), ev, readings, base + j, cfg);
  }

  /** The inner loop over one node's ping entries. */
  method WatchPings(mgr: Manager, s: Snapshot, readings: nat -> Reading, base: nat)
    requires mgr.Valid()
    modifies mgr`lastSent, mgr`sent
    ensures mgr.Valid()
    ensures mgr.Current() == EvaluateAll(old(mgr.Current()), Calls(PingEvents(s, s.pings), readings, base), mgr.cfg)
  {
    ghost var start := mgr.Current();
    for j := 0 to |s.pings|
      invariant mgr.Valid()
      invariant mgr.Current() == EvaluateAll(start, Calls(PingEvents(s, s.pings[..j]), readings, base), mgr.cfg)
    {
      PingStep(start, s, j, readings, base, mgr.cfg);
      var name, ms := s.pings[j].0, s.pings[j].1;
      if ms < 0.0 {
        mgr.Evaluate(CallAt(Event("loss", s.uuid, s.name, 100.0, "probe loss: " + name), readings(base + j)));
        continue;
      }
      mgr.Evaluate(CallAt(Event("latency", s.uuid, s.name, ms, "high latency: " + name), readings(base + j)));
    }
    assert s.pings[..|s.pings|] == s.pings;
  }

  /** The part of the tick about one node. */
  method WatchSnapshot(mgr: Manager, s: Snapshot, readings: nat -> Reading, base: nat)
    requires mgr.Valid()
    modifies mgr`lastSent, mgr`sent
    ensures mgr.Valid()
    ensures mgr.Current() == EvaluateAll(old(mgr.Current()), Calls(SnapshotEvents(s), readings, base), mgr.cfg)
  {
    ghost var start := mgr.Current();
    if !s.online {
      var ev := Event("offline", s.uuid, s.name, 1.0, "node offline");
      EvaluateOne(start, ev, readings, base, mgr.cfg);
      EvaluateMore(start, SnapshotEvents(s), [ev], PingEvents(s, s.pings), readings, base, mgr.cfg);
      mgr.Evaluate(CallAt(ev, readings(base)));
      WatchPings(mgr, s, readings, base + 1);
    } else {
      assert SnapshotEvents(s) == PingEvents(s, s.pings);
      WatchPings(mgr, s, readings, base);
    }
  }

  /** A whole tick, whose calls are numbered from zero. */
  function Watched(s: State, events: seq<Event>, readings: nat -> Reading, cfg: Config): State {
    EvaluateAll(s, Calls(events, readings, 0), cfg)
  }

  lemma WatchedMore(s: State, done: seq<Event>, more: seq<Event>, readings: nat -> Reading, base: nat, cfg: Config)
    requires base == |done|
    ensures Watched(s, done + more, readings, cfg)
            == EvaluateAll(Watched(s, done, readings, cfg), Calls(more, readings, base), cfg)
  {
    EvaluateMore(s, done + more, done, more, readings, 0, cfg);
  }

  lemma TickEventsSnoc(snaps: seq<Snapshot>, i: nat)
    requires i < |snaps|
    ensures TickEvents(snaps[..i + 1]) == TickEvents(snaps[..i]) + SnapshotEvents(snaps[i])
  {
    assert snaps[..i + 1][..i] == snaps[..i];
  }

  /** One tick of Watch. */
  method WatchTick(mgr: Manager, snaps: seq<Snapshot>, readings: nat -> Reading)
    requires mgr.Valid()
    modifies mgr`lastSent, mgr`sent
    ensures mgr.Valid()
    ensures mgr.Current() == Watched(old(mgr.Current()), TickEvents(snaps), readings, mgr.cfg)
  {
    ghost var start, done := mgr.Current(), [];
    var calls := 0;
    for i := 0 to |snaps|
      invariant mgr.Valid() && calls == |done| && done == TickEvents(snaps[..i])
      invariant mgr.Current() == Watched(start, done, readings, mgr.cfg)
    {
      var s := snaps[i];
      WatchedMore(start, done, SnapshotEvents(s), readings, calls, mgr.cfg);
      WatchSnapshot(mgr, s, readings, calls);
      TickEventsSnoc(snaps, i);
      done := done + SnapshotEvents(s);
      calls := calls + (if s.online then 0 else 1) + |s.pings|;
    }
    assert snaps[..|snaps|] == snaps;
  }

  // ---------- a node that stays offline ----------

  /** A tick: the time it started, what it saw, and the clock readings of its calls. */
  datatype Tick = Tick(at: int, snaps: seq<Snapshot>, readings: nat -> Reading)

  function TickCalls(t: Tick): seq<Call> {
    Calls(TickEvents(t.snaps), t.readings, 0)
  }

  function AllCalls(ticks: seq<Tick>): seq<Call> {
    if ticks == [] then [] else AllCalls(ticks[..|ticks| - 1]) + TickCalls(ticks[|ticks| - 1])
  }

  function AsOp(c: Call): Op {
    Eval(c)
  }

  function Ops(cs: seq<Call>): seq<Op> {
    MapSeq(AsOp, cs)
  }

  /** The state after some ticks of the watcher. */
  function WatchedAll(s: State, ticks: seq<Tick>, cfg: Config): State {
    if ticks == [] then s
    else
      var t := ticks[|ticks| - 1];
      Watched(WatchedAll(s, ticks[..|ticks| - 1], cfg), TickEvents(t.snaps), t.readings, cfg)
  }

  lemma {:induction false} EvaluateAllIsRun(s: State, cs: seq<Call>, cfg: Config)
    ensures EvaluateAll(s, cs, cfg) == Run(s, Ops(cs), cfg)
  {
    if cs == [] {
    } else {
      assert Ops(cs)[..|cs| - 1] == Ops(cs[..|cs| - 1]);
      EvaluateAllIsRun(s, cs[..|cs| - 1], cfg);
    }
  }

  /** The watcher's ticks are a run of the manager, one call per event, without rule edits. */
  lemma {:induction false} TicksAreRun(s: State, ticks: seq<Tick>, cfg: Config)
    ensures WatchedAll(s, ticks, cfg) == Run(s, Ops(AllCalls(ticks)), cfg)
  {
    if ticks == [] {
    } else {
      var init, t := ticks[..|ticks| - 1], ticks[|ticks| - 1];
      TicksAreRun(s, init, cfg);
      EvaluateAllIsRun(s, AllCalls(init), cfg);
      EvaluateAllConcat(s, AllCalls(init), TickCalls(t), cfg);
      EvaluateAllIsRun(s, AllCalls(ticks), cfg);
    }
  }

  /** Hot calls while the rules stay as they are. */
  function HotOf(rules: seq<Rule>, cs: seq<Call>, cfg: Config, key: string): seq<Attempt> {
    if cs == [] then []
    else
      var rest, c := HotOf(rules, cs[..|cs| - 1], cfg, key), cs[|cs| - 1];
      if EventKey(c.ev.kind, c.ev.node) == key && Hot(rules, c, cfg)
      then rest + [Attempt(c.sinceAt, c.stamp, cfg.cooldown)] else rest
  }

  lemma {:induction false} HotOfConcat(rules: seq<Rule>, a: seq<Call>, b: seq<Call>, cfg: Config, key: string)
    ensures HotOf(rules, a + b, cfg, key) == HotOf(rules, a, cfg, key) + HotOf(rules, b, cfg, key)
  {
    if b == [] {
      assert a + b == a;
    } else {
      assert (a + b)[..|a + b| - 1] == a + b[..|b| - 1];
      HotOfConcat(rules, a, b[..|b| - 1], cfg, key);
    }
  }

  lemma {:induction false} HotOfShape(rules: seq<Rule>, cs: seq<Call>, cfg: Config, key: string)
    ensures forall x :: x in HotOf(rules, cs, cfg, key) ==>
              exists c :: c in cs && x == Attempt(c.sinceAt, c.stamp, cfg.cooldown)
    ensures (exists c :: c in cs && EventKey(c.ev.kind, c.ev.node) == key && Hot(rules, c, cfg))
            ==> HotOf(rules, cs, cfg, key) != []
  {
    if cs == [] {
    } else {
      var init := cs[..|cs| - 1];
      assert cs == init + [cs[|cs| - 1]];
      HotOfShape(rules, init, cfg, key);
    }
  }

  /** Without rule edits these are the manager's hot calls, and the rules stay. */
  lemma {:induction false} HotCallsAre(rules: seq<Rule>, cs: seq<Call>, cfg: Config, key: string)
    ensures Run(Begin(rules), Ops(cs), cfg).rules == rules
    ensures HotCalls(rules, Ops(cs), cfg, key) == HotOf(rules, cs, cfg, key)
  {
    if cs == [] {
    } else {
      var init := cs[..|cs| - 1];
      assert Ops(cs)[..|cs| - 1] == Ops(init);
      HotCallsAre(rules, init, cfg, key);
    }
  }

  /** Every call of a tick reads the clock between the tick's start and `drift` later. */
  ghost predicate Prompt(t: Tick, drift: int) {
    forall c :: c in TickCalls(t) ==> t.at <= c.sinceAt <= c.now <= c.stamp <= t.at + drift
  }

  ghost predicate OfflineIn(t: Tick, uuid: string) {
    exists s :: s in t.snaps && s.uuid == uuid && !s.online
  }

  /** There is a notifier, and at every call for an offline event of this node some rule applies first and does
      not mute the minute. */
  ghost predicate AlertsOffline(rules: seq<Rule>, t: Tick, uuid: string, cfg: Config) {
    && cfg.notifiers > 0
    && forall c :: c in TickCalls(t) && c.ev.kind == "offline" && c.ev.node == uuid && c.ev.value == 1.0 ==>
         exists i: nat :: AppliesFirst(rules, c.ev, i)
             && !MutedAt(rules[i], c.now, (c.now / 60_000_000_000) % 1440, cfg.parse)
  }

  lemma {:induction false} TickEventsShape(snaps: seq<Snapshot>, s: Snapshot)
    requires s in snaps
    ensures forall ev :: ev in SnapshotEvents(s) ==> ev in TickEvents(snaps)
  {
    var init := snaps[..|snaps| - 1];
    assert snaps == init + [snaps[|snaps| - 1]];
    if s in init {
      TickEventsShape(init, s);
    }
  }

  /** The hot calls of one tick for the node's offline event. */
  function RoundOf(rules: seq<Rule>, t: Tick, uuid: string, cfg: Config): Round {
    Round(t.at, HotOf(rules, TickCalls(t), cfg, EventKey("offline", uuid)))
  }

  function Rounds(rules: seq<Rule>, ticks: seq<Tick>, uuid: string, cfg: Config): seq<Round> {
    seq(|ticks|, k requires 0 <= k < |ticks| => RoundOf(rules, ticks[k], uuid, cfg))
  }

  lemma RoundsSnoc(rules: seq<Rule>, init: seq<Tick>, t: Tick, uuid: string, cfg: Config)
    ensures Rounds(rules, init + [t], uuid, cfg) == Rounds(rules, init, uuid, cfg) + [RoundOf(rules, t, uuid, cfg)]
  {
  }

  lemma {:induction false} RoundsAreHot(rules: seq<Rule>, ticks: seq<Tick>, uuid: string, cfg: Config)
    ensures Flatten(Rounds(rules, ticks, uuid, cfg)) == HotOf(rules, AllCalls(ticks), cfg, EventKey("offline", uuid))
  {
    if ticks == [] {
    } else {
      var init, t, key := ticks[..|ticks| - 1], ticks[|ticks| - 1], EventKey("offline", uuid);
      assert ticks == init + [t];
      RoundsAreHot(rules, init, uuid, cfg);
      HotOfConcat(rules, AllCalls(init), TickCalls(t), cfg, key);
      RoundsSnoc(rules, init, t, uuid, cfg);
      FlattenSnoc(Rounds(rules, init, uuid, cfg), RoundOf(rules, t, uuid, cfg));
    }
  }

  lemma TickIsHot(rules: seq<Rule>, t: Tick, uuid: string, cfg: Config, drift: int)
    requires OfflineIn(t, uuid) && AlertsOffline(rules, t, uuid, cfg) && Prompt(t, drift)
    ensures Regular(RoundOf(rules, t, uuid, cfg), cfg.cooldown, drift)
  {
    var s :| s in t.snaps && s.uuid == uuid && !s.online;
    var ev := OfflineEvent(s);
    assert SnapshotEvents(s)[0] == ev;
    assert ev in SnapshotEvents(s);
    TickEventsShape(t.snaps, s);
    var events := TickEvents(t.snaps);
    var k :| 0 <= k < |events| && events[k] == ev;
    var c := TickCalls(t)[k];
    assert c in TickCalls(t) && c.ev == ev;
    HotExactly(rules, c, cfg);
    HotOfShape(rules, TickCalls(t), cfg, EventKey("offline", uuid));
  }

  ghost predicate StaysOffline(rules: seq<Rule>, ticks: seq<Tick>, uuid: string, cfg: Config, gap: int, drift: int) {
    && (forall k :: 0 <= k < |ticks| ==>
          OfflineIn(ticks[k], uuid) && AlertsOffline(rules, ticks[k], uuid, cfg) && Prompt(ticks[k], drift))
    && (forall k, l :: 0 <= k < l < |ticks| && l == k + 1 ==> 0 <= ticks[l].at - ticks[k].at <= gap)
  }

  lemma OfflineRegular(rules: seq<Rule>, ticks: seq<Tick>, uuid: string, cfg: Config, gap: int, drift: int)
    requires StaysOffline(rules, ticks, uuid, cfg, gap, drift)
    ensures AllRegular(Rounds(rules, ticks, uuid, cfg), cfg.cooldown, gap, drift)
  {
    var rs := Rounds(rules, ticks, uuid, cfg);
    forall k | 0 <= k < |rs| ensures Regular(rs[k], cfg.cooldown, drift) {
      TickIsHot(rules, ticks[k], uuid, cfg, drift);
    }
  }

  lemma OfflineRounds(rules: seq<Rule>, ticks: seq<Tick>, uuid: string, cfg: Config, gap: int, drift: int)
    requires gap >= 0 && drift >= 0 && ticks != [] && StaysOffline(rules, ticks, uuid, cfg, gap, drift)
    ensures var xs := HotOf(rules, AllCalls(ticks), cfg, EventKey("offline", uuid));
            xs != [] && Attended(xs, cfg.cooldown, gap + drift, drift)
  {
    OfflineRegular(rules, ticks, uuid, cfg, gap, drift);
    RoundsAttended(Rounds(rules, ticks, uuid, cfg), cfg.cooldown, gap, drift);
    RoundsAreHot(rules, ticks, uuid, cfg);
    FlattenEnds(Rounds(rules, ticks, uuid, cfg));
  }

  lemma {:induction false} CallsForward(ticks: seq<Tick>, drift: int)
    requires forall t :: t in ticks ==> Prompt(t, drift)
    ensures ForwardClock(Ops(AllCalls(ticks)))
  {
    if ticks == [] {
    } else {
      var init, t := ticks[..|ticks| - 1], ticks[|ticks| - 1];
      assert ticks == init + [t];
      CallsForward(init, drift);
      MapConcat(AsOp, AllCalls(init), TickCalls(t));
      forall op | op in Ops(TickCalls(t)) ensures op.Eval? && op.call.sinceAt <= op.call.stamp {
        var cs := TickCalls(t);
        var k :| 0 <= k < |Ops(cs)| && Ops(cs)[k] == op;
        assert op == AsOp(cs[k]) && cs[k] in cs;
        assert Prompt(t, drift);
      }
    }
  }

  /** While a node stays offline, ticks come at most `gap` apart and calls read the clock within `drift` of
      their tick, its offline alert is delivered at least once, never twice within the cooldown, and again
      and again in less than cooldown + gap + 2 drift. */
  lemma OfflineNodeIsReported(rules: seq<Rule>, ticks: seq<Tick>, uuid: string, cfg: Config, gap: int, drift: int)
    requires cfg.cooldown > 0 && gap >= 0 && drift >= 0
    requires ticks != [] && StaysOffline(rules, ticks, uuid, cfg, gap, drift)
    ensures var stamps := StampsOf(WatchedAll(Begin(rules), ticks, cfg).sent, EventKey("offline", uuid));
            && stamps != []
            && forall i, j :: 0 <= i < j < |stamps| && j == i + 1
                ==> cfg.cooldown <= stamps[j] - stamps[i] < cfg.cooldown + gap + 2 * drift
  {
    var ops, key := Ops(AllCalls(ticks)), EventKey("offline", uuid);
    OfflineRounds(rules, ticks, uuid, cfg, gap, drift);
    HotCallsAre(rules, AllCalls(ticks), cfg, key);
    CallsForward(ticks, drift);
    TicksAreRun(Begin(rules), ticks, cfg);
    DeliveredAgain(rules, ops, cfg, "offline", uuid, gap + drift, drift);
    var stamps := StampsOf(Run(Begin(rules), ops, cfg).sent, key);
    forall i, j | 0 <= i < j < |stamps| && j == i + 1 ensures cfg.cooldown <= stamps[j] - stamps[i] {
      DeliveriesSpaced(rules, ops, cfg, "offline", uuid, i, j + 1, 0);
    }
  }
}
