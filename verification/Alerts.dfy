/** The alert manager (internal/alert/alert.go): an ordered rule list edited in place, first-match
    evaluation, and one delivery per (kind, node) and cooldown. Times are nanoseconds. */
module Alerts {
  import opened Text
  import opened MuteWindows
  import opened Throttle

  datatype RuleKey = RuleKey(kind: string, node: string)

  datatype Event = Event(kind: string, node: string, nodeName: string, value: real, message: string)

  /** A message handed to every notifier. */
  datatype Delivery = Delivery(event: Event, threshold: real, stamp: int)

  function KeyOf(r: Rule): RuleKey {
    RuleKey(r.kind, r.node)
  }

  // ---------- the rule list ----------

  function Position(rules: seq<Rule>, key: RuleKey): (i: nat)
    ensures i <= |rules|
    ensures i < |rules| ==> KeyOf(rules[i]) == key
    ensures forall k :: 0 <= k < i ==> KeyOf(rules[k]) != key
  {
    if rules == [] || KeyOf(rules[0]) == key then 0 else 1 + Position(rules[1..], key)
  }

  function WithRule(rules: seq<Rule>, r: Rule): seq<Rule> {
    var i := Position(rules, KeyOf(r));
    if i < |rules| then rules[i := r] else rules + [r]
  }

  function OtherThan(key: RuleKey): Rule -> bool {
    (r: Rule) => KeyOf(r) != key
  }

  /** The order-preserving filter that drops a key. */
  function WithoutRule(rules: seq<Rule>, key: RuleKey): seq<Rule> {
    Filter(rules, OtherThan(key))
  }

  lemma WithoutRuleSnoc(rules: seq<Rule>, i: nat, key: RuleKey)
    requires i < |rules|
    ensures WithoutRule(rules[..i + 1], key) ==
            if KeyOf(rules[i]) == key then WithoutRule(rules[..i], key) else WithoutRule(rules[..i], key) + [rules[i]]
  {
    assert rules[..i + 1][..i] == rules[..i];
  }

  predicate Matches(r: Rule, ev: Event) {
    r.kind == ev.kind && (r.node == "*" || r.node == ev.node) && ev.value >= r.threshold
  }

  function FirstMatch(rules: seq<Rule>, ev: Event): (m: Option<Rule>)
    ensures m.Some? ==> m.value in rules && Matches(m.value, ev)
  {
    if rules == [] then None
    else if Matches(rules[0], ev) then Some(rules[0])
    else FirstMatch(rules[1..], ev)
  }

  // ---------- evaluation ----------

  /** The manager's settings: cooldown, number of notifiers, and the timestamp parser. */
  datatype Config = Config(cooldown: int, notifiers: nat, parse: Parser)

  datatype State = State(rules: seq<Rule>, lastSent: map<string, int>, sent: seq<Delivery>)

  /** One call of Evaluate with its three clock readings: for the cooldown test, for the mute windows, and
      for the stamp it records. */
  datatype Call = Call(ev: Event, sinceAt: int, now: int, stamp: int)

  function EventKey(kind: string, node: string): string {
    kind + "|" + node
  }

  /** Would this call be delivered if its key had never been sent? */
  predicate Hot(rules: seq<Rule>, c: Call, cfg: Config) {
    var m := FirstMatch(rules, c.ev);
    m.Some? && !Silenced(m.value, c.now, cfg.parse) && cfg.notifiers > 0
  }

  function LastSent(s: State, key: string): Option<int> {
    if key in s.lastSent then Some(s.lastSent[key]) else None
  }

  function Evaluated(s: State, c: Call, cfg: Config): State {
    var key := EventKey(c.ev.kind, c.ev.node);
    if Due(LastSent(s, key), c.sinceAt, cfg.cooldown) && Hot(s.rules, c, cfg)
    then
      var delivery := Delivery(c.ev, FirstMatch(s.rules, c.ev).value.threshold, c.stamp);
      State(s.rules, s.lastSent[key := c.stamp], s.sent + [delivery])
    else s
  }

  /** What the filter keeps of each prefix. */
  ghost function KeptOfPrefixes<T>(all: seq<T>, keep: T -> bool): (kept: seq<seq<T>>)
    ensures |kept| == |all| + 1 && kept[0] == [] && kept[|all|] == Filter(all, keep)
    ensures forall i :: 0 <= i < |all| ==> kept[i + 1] == if keep(all[i]) then kept[i] + [all[i]] else kept[i]
  {
    if all == [] then [[]]
    else
      var init := all[..|all| - 1];
      assert forall i :: 0 <= i < |init| ==> init[i] == all[i];
      KeptOfPrefixes(init, keep) + [Filter(all, keep)]
  }

  /** The compaction loop of DeleteRule, for any test: `out` trails behind the scan. */
  method CompactWhere<T>(a: array<T>, n: nat, keep: T -> bool) returns (out: nat)
    requires n <= a.Length
    modifies a
    ensures out <= n && a[..out] == Filter(old(a[..n]), keep)
  {
    ghost var all := a[..n];
    ghost var kept := KeptOfPrefixes(all, keep);
    out := 0;
    for i := 0 to n
      invariant out == |kept[i]| <= i
      invariant forall k :: 0 <= k < out ==> a[k] == kept[i][k]
      invariant forall k :: i <= k < n ==> a[k] == all[k]
    {
      if keep(a[i]) {
        a[out] := a[i];
        out := out + 1;
      }
    }
    assert a[..out] == kept[n];
  }

  method Compact(a: array<Rule>, n: nat, key: RuleKey) returns (out: nat)
    requires n <= a.Length
    modifies a
    ensures out <= n && a[..out] == WithoutRule(old(a[..n]), key)
  {
    out := CompactWhere(a, n, OtherThan(key));
  }

  class Manager {
    /** The rules slice: the first `count` elements of its backing array. */
    var backing: array<Rule>
    var count: nat
    var lastSent: map<string, int>
    var sent: seq<Delivery>
    const cfg: Config

    ghost predicate Valid()
      reads this
    {
      count <= backing.Length && cfg.cooldown > 0
    }

    function Current(): State
      requires count <= backing.Length
      reads this, backing
    {
      State(backing[..count], lastSent, sent)
    }

    /** NewManager: a cooldown of zero or less becomes five minutes. */
    constructor (rules: seq<Rule>, notifiers: nat, cooldown: int, parse: Parser)
      ensures Valid() && fresh(backing)
      ensures Current() == State(rules, map[], [])
      ensures cfg == Config(if cooldown <= 0 then 300_000_000_000 else cooldown, notifiers, parse)
    {
      cfg := Config(if cooldown <= 0 then 5 * MINUTE else cooldown, notifiers, parse);
      backing := new Rule[|rules|](i requires 0 <= i < |rules| => rules[i]);
      count, lastSent, sent := |rules|, map[], [];
      new;
      assert backing[..count] == rules;
    }

    /** Rules returns a copy. */
    method Rules() returns (out: seq<Rule>)
      requires Valid()
      ensures out == Current().rules
    {
      return backing[..count];
    }

    method SetRule(r: Rule)
      requires Valid()
      modifies this`backing, this`count, backing
      ensures Valid() && (backing == old(backing) || fresh(backing))
      ensures Current() == old(Current()).(rules := WithRule(old(Current()).rules, r))
    {
      var i := 0;
      while i < count && KeyOf(backing[i]) != KeyOf(r)
        invariant i <= count
        invariant Position(backing[..count], KeyOf(r)) == i + Position(backing[..count][i..], KeyOf(r))
      {
        assert backing[..count][i..][1..] == backing[..count][i + 1..];
        i := i + 1;
      }
      if i < count {
        backing[i] := r;
        return;
      }
      if count == backing.Length {
        var kept, n := backing[..count], count;
        backing := new Rule[2 * n + 1](k => if 0 <= k < n then kept[k] else r);
        assert backing[..n] == kept;
      }
      ghost var before := backing[..count];
      backing[count] := r;
      count := count + 1;
      assert backing[..count] == before + [r];
    }

    /** DeleteRule compacts the slice in place. */
    method DeleteRule(kind: string, node: string)
      requires Valid()
      modifies this`count, backing
      ensures Valid()
      ensures Current() == old(Current()).(rules := WithoutRule(old(Current()).rules, RuleKey(kind, node)))
    {
      count := Compact(backing, count, RuleKey(kind, node));
    }

    /** The scan of Evaluate. */
    method FindFirst(ev: Event) returns (m: Option<Rule>)
      requires Valid()
      ensures m == FirstMatch(Current().rules, ev)
    {
      ghost var rules := backing[..count];
      assert rules[0..] == rules;
      for i := 0 to count
        invariant FirstMatch(rules, ev) == FirstMatch(rules[i..], ev)
      {
        var r := backing[i];
        assert rules[i..][0] == r && rules[i..][1..] == rules[i + 1..];
        if r.kind == ev.kind && (r.node == "*" || r.node == ev.node) && ev.value >= r.threshold {
          return Some(r);
        }
      }
      return None;
    }

    method Evaluate(c: Call)
      requires Valid()
      modifies this`lastSent, this`sent
      ensures Valid() && Current() == Evaluated(old(Current()), c, cfg)
    {
      var key := c.ev.kind + "|" + c.ev.node;
      if key in lastSent && c.sinceAt - lastSent[key] < cfg.cooldown { return; }
      var m := FindFirst(c.ev);
      if m.Some? {
        var silenced := CheckSilenced(m.value, c.now, cfg.parse);
        if silenced { return; }
      }
      if m.None? || cfg.notifiers == 0 { return; }
      lastSent := lastSent[key := c.stamp];
      sent := sent + [Delivery(c.ev, m.value.threshold, c.stamp)];
    }
  }

  // ---------- what one call does ----------

  lemma {:induction false} FirstMatchAt(rules: seq<Rule>, ev: Event) returns (i: nat)
    ensures i <= |rules| && forall k :: 0 <= k < i ==> !Matches(rules[k], ev)
    ensures i < |rules| ==> Matches(rules[i], ev)
    ensures FirstMatch(rules, ev) == if i < |rules| then Some(rules[i]) else None
  {
    if rules == [] || Matches(rules[0], ev) {
      i := 0;
    } else {
      i := FirstMatchAt(rules[1..], ev);
      i := i + 1;
    }
  }

  /** The rule is for the kind of the event, for its node or for every node, and its threshold is reached. */
  ghost predicate Applies(r: Rule, ev: Event) {
    r.kind == ev.kind && (r.node == "*" || r.node == ev.node) && r.threshold <= ev.value
  }

  /** The i-th rule is the first that applies. */
  ghost predicate AppliesFirst(rules: seq<Rule>, ev: Event, i: nat) {
    i < |rules| && Applies(rules[i], ev) && forall k :: 0 <= k < i ==> !Applies(rules[k], ev)
  }

  lemma FirstMatchExactly(rules: seq<Rule>, ev: Event, i: nat)
    ensures AppliesFirst(rules, ev, i) ==> FirstMatch(rules, ev) == Some(rules[i])
    ensures FirstMatch(rules, ev) == None <==> forall r :: r in rules ==> !Applies(r, ev)
  {
    var j := FirstMatchAt(rules, ev);
    assert forall r :: Matches(r, ev) == Applies(r, ev);
    if AppliesFirst(rules, ev, i) {
      assert i == j;
    }
    if j == |rules| {
      forall r | r in rules ensures !Applies(r, ev) {
        var k :| 0 <= k < |rules| && rules[k] == r;
      }
    } else {
      assert rules[j] in rules;
    }
  }

  /** The rule mutes what comes at some time, m minutes after a midnight: its deadline is ahead, or a window of
      it covers the minute. */
  ghost predicate MutedAt(r: Rule, now: int, m: nat, parse: Parser) {
    || (r.silenceUntil != "" && parse(r.silenceUntil).Some? && now < parse(r.silenceUntil).value)
    || exists w :: w in r.muteWindows && Mutes(w, m)
  }

  /** A call whose first rule is known, completely: it is delivered, with the rule's threshold, and stamped if
      and only if the cooldown of its (kind, node) is over, the rule does not mute the minute and there is a
      notifier; otherwise nothing changes. No other rule is asked instead of a muted one. */
  lemma EvaluatedExactly(s: State, c: Call, cfg: Config, i: nat, day: int, m: nat, ns: int)
    requires AppliesFirst(s.rules, c.ev, i)
    requires m < 1440 && 0 <= ns < 60_000_000_000 && c.now == (1440 * day + m) * 60_000_000_000 + ns
    ensures var key := c.ev.kind + "|" + c.ev.node;
            var over := key in s.lastSent ==> c.sinceAt - s.lastSent[key] >= cfg.cooldown;
            Evaluated(s, c, cfg)
            == if over && !MutedAt(s.rules[i], c.now, m, cfg.parse) && cfg.notifiers > 0
               then State(s.rules, s.lastSent[key := c.stamp],
                          s.sent + [Delivery(c.ev, s.rules[i].threshold, c.stamp)])
               else s
  {
    FirstMatchExactly(s.rules, c.ev, i);
    SilencedExactly(s.rules[i], c.now, cfg.parse, day, m, ns);
  }

  /** The calls that would be delivered but for the cooldown: there is a notifier, and a rule applies first that
      does not mute the minute. */
  lemma HotExactly(rules: seq<Rule>, c: Call, cfg: Config)
    ensures Hot(rules, c, cfg)
            <==> cfg.notifiers > 0
                 && exists i: nat :: AppliesFirst(rules, c.ev, i)
                        && !MutedAt(rules[i], c.now, (c.now / 60_000_000_000) % 1440, cfg.parse)
  {
    var m, day, ns := (c.now / 60_000_000_000) % 1440, c.now / 60_000_000_000 / 1440, c.now % 60_000_000_000;
    var j := FirstMatchAt(rules, c.ev);
    assert forall r :: Matches(r, c.ev) == Applies(r, c.ev);
    assert forall i: nat :: AppliesFirst(rules, c.ev, i) ==> i == j;
    if j < |rules| {
      assert AppliesFirst(rules, c.ev, j);
      SilencedExactly(rules[j], c.now, cfg.parse, day, m, ns);
    }
  }

  /** A call to which no rule applies changes nothing. */
  lemma EvaluatedInVain(s: State, c: Call, cfg: Config)
    requires forall r :: r in s.rules ==> !Applies(r, c.ev)
    ensures Evaluated(s, c, cfg) == s
  {
    FirstMatchExactly(s.rules, c.ev, 0);
  }

  // ---------- deleting a rule ----------

  lemma {:induction false} FirstMatchConcat(a: seq<Rule>, b: seq<Rule>, ev: Event)
    ensures FirstMatch(a + b, ev) == if FirstMatch(a, ev).Some? then FirstMatch(a, ev) else FirstMatch(b, ev)
  {
    if a == [] {
      assert a + b == b;
    } else {
      assert (a + b)[0] == a[0] && (a + b)[1..] == a[1..] + b;
      FirstMatchConcat(a[1..], b, ev);
    }
  }

  /** Deleting a rule changes what an event meets first exactly when the deleted rule was it; so every
      event that the rule does not match is decided as before. */
  lemma {:induction false} DeleteKeepsDecisions(rules: seq<Rule>, key: RuleKey, ev: Event)
    ensures FirstMatch(WithoutRule(rules, key), ev) == FirstMatch(rules, ev)
            <==> FirstMatch(rules, ev).None? || KeyOf(FirstMatch(rules, ev).value) != key
  {
    FilterMembers(rules, OtherThan(key));
    if FirstMatch(rules, ev).None? || KeyOf(FirstMatch(rules, ev).value) != key {
      DeleteUnmatched(rules, key, ev);
    }
  }

  lemma {:induction false} DeleteUnmatched(rules: seq<Rule>, key: RuleKey, ev: Event)
    requires FirstMatch(rules, ev).None? || KeyOf(FirstMatch(rules, ev).value) != key
    ensures FirstMatch(WithoutRule(rules, key), ev) == FirstMatch(rules, ev)
  {
    if rules == [] {
    } else {
      var init, r := rules[..|rules| - 1], rules[|rules| - 1];
      assert rules == init + [r];
      FirstMatchConcat(init, [r], ev);
      DeleteUnmatched(init, key, ev);
      FirstMatchConcat(WithoutRule(init, key), [r], ev);
    }
  }

  // ---------- runs ----------

  datatype Op = Eval(call: Call) | Set(rule: Rule) | Delete(key: RuleKey)

  function Apply(s: State, op: Op, cfg: Config): State {
    match op
    case Eval(c) => Evaluated(s, c, cfg)
    case Set(r) => s.(rules := WithRule(s.rules, r))
    case Delete(k) => s.(rules := WithoutRule(s.rules, k))
  }

  function Run(s: State, ops: seq<Op>, cfg: Config): State {
    if ops == [] then s else Apply(Run(s, ops[..|ops| - 1], cfg), ops[|ops| - 1], cfg)
  }

  function Begin(rules: seq<Rule>): State {
    State(rules, map[], [])
  }

  /** The calls of one key that would be delivered but for the cooldown, as attempts of a throttle. */
  function HotCalls(rules: seq<Rule>, ops: seq<Op>, cfg: Config, key: string): seq<Attempt> {
    if ops == [] then []
    else
      var init, op := ops[..|ops| - 1], ops[|ops| - 1];
      var rest := HotCalls(rules, init, cfg, key);
      if op.Eval? && EventKey(op.call.ev.kind, op.call.ev.node) == key
          && Hot(Run(Begin(rules), init, cfg).rules, op.call, cfg)
      then rest + [Attempt(op.call.sinceAt, op.call.stamp, cfg.cooldown)]
      else rest
  }

  /** The delivery stamps of one key. */
  function StampsOf(sent: seq<Delivery>, key: string): seq<int> {
    if sent == [] then []
    else
      var rest, d := StampsOf(sent[..|sent| - 1], key), sent[|sent| - 1];
      if EventKey(d.event.kind, d.event.node) == key then rest + [d.stamp] else rest
  }

  function Stamps(xs: seq<Attempt>): seq<int> {
    MapSeq((x: Attempt) => x.stamp, xs)
  }

  lemma StampsSnoc(sent: seq<Delivery>, d: Delivery, key: string)
    ensures StampsOf(sent + [d], key)
            == StampsOf(sent, key) + (if EventKey(d.event.kind, d.event.node) == key then [d.stamp] else [])
  {
    assert (sent + [d])[..|sent|] == sent;
  }

  lemma FiredSnoc(xs: seq<Attempt>, x: Attempt)
    ensures Fired(xs + [x]) == if Due(LastStamp(Fired(xs)), x.at, x.period) then Fired(xs) + [x] else Fired(xs)
    ensures Stamps(Fired(xs) + [x]) == Stamps(Fired(xs)) + [x.stamp]
  {
    assert (xs + [x])[..|xs|] == xs;
  }

  /** The delivery stems from this call, made in a state with these rules: it carries the call's event and stamp
      and the threshold of the first rule that applies, which mutes nothing at that time. */
  ghost predicate Explains(rules: seq<Rule>, c: Call, cfg: Config, d: Delivery) {
    exists i: nat :: AppliesFirst(rules, c.ev, i)
        && d == Delivery(c.ev, rules[i].threshold, c.stamp) && cfg.notifiers > 0
        && !MutedAt(rules[i], c.now, (c.now / 60_000_000_000) % 1440, cfg.parse)
  }

  lemma NewDelivery(s: State, c: Call, cfg: Config, d: Delivery)
    requires d in Evaluated(s, c, cfg).sent && d !in s.sent
    ensures Explains(s.rules, c, cfg, d)
  {
    var i := FirstMatchAt(s.rules, c.ev);
    assert forall r :: Matches(r, c.ev) == Applies(r, c.ev);
    var day, rest := c.now / 60_000_000_000 / 1440, c.now % 60_000_000_000;
    assert AppliesFirst(s.rules, c.ev, i);
    EvaluatedExactly(s, c, cfg, i, day, (c.now / 60_000_000_000) % 1440, rest);
  }

  /** In every run, with rule edits in between, every delivery stems from one of the calls and from the rule
      that applied to it first at that time; none stems from a call whose first rule was muted, whatever other
      rules there were. */
  lemma {:induction false} DeliveriesExplained(rules: seq<Rule>, ops: seq<Op>, cfg: Config, d: Delivery)
    requires d in Run(Begin(rules), ops, cfg).sent
    ensures exists k :: 0 <= k < |ops| && ops[k].Eval?
                && Explains(Run(Begin(rules), ops[..k], cfg).rules, ops[k].call, cfg, d)
  {
    if ops == [] {
    } else {
      var n := |ops| - 1;
      var init := ops[..n];
      if d in Run(Begin(rules), init, cfg).sent {
        DeliveriesExplained(rules, init, cfg, d);
        var k :| 0 <= k < n && init[k].Eval? && Explains(Run(Begin(rules), init[..k], cfg).rules, init[k].call, cfg, d);
        assert init[..k] == ops[..k] && init[k] == ops[k];
      } else {
        assert ops[n].Eval?;
        NewDelivery(Run(Begin(rules), init, cfg), ops[n].call, cfg, d);
      }
    }
  }

  /** For one key the state has sent, and remembers, what the throttle lets through of some attempts. */
  ghost predicate Tracks(s: State, key: string, xs: seq<Attempt>) {
    StampsOf(s.sent, key) == Stamps(Fired(xs)) && LastSent(s, key) == LastStamp(Fired(xs))
  }

  lemma HotCallTracked(s: State, key: string, xs: seq<Attempt>, c: Call, cfg: Config)
    requires Tracks(s, key, xs) && EventKey(c.ev.kind, c.ev.node) == key && Hot(s.rules, c, cfg)
    ensures Tracks(Evaluated(s, c, cfg), key, xs + [Attempt(c.sinceAt, c.stamp, cfg.cooldown)])
  {
    FiredSnoc(xs, Attempt(c.sinceAt, c.stamp, cfg.cooldown));
    StampsSnoc(s.sent, Delivery(c.ev, FirstMatch(s.rules, c.ev).value.threshold, c.stamp), key);
  }

  lemma OtherCallTracked(s: State, key: string, xs: seq<Attempt>, c: Call, cfg: Config)
    requires Tracks(s, key, xs) && !(EventKey(c.ev.kind, c.ev.node) == key && Hot(s.rules, c, cfg))
    ensures Tracks(Evaluated(s, c, cfg), key, xs)
  {
    if Hot(s.rules, c, cfg) {
      StampsSnoc(s.sent, Delivery(c.ev, FirstMatch(s.rules, c.ev).value.threshold, c.stamp), key);
    }
  }

  lemma OpTracked(rules: seq<Rule>, init: seq<Op>, op: Op, cfg: Config, key: string)
    requires Tracks(Run(Begin(rules), init, cfg), key, HotCalls(rules, init, cfg, key))
    ensures Tracks(Run(Begin(rules), init + [op], cfg), key, HotCalls(rules, init + [op], cfg, key))
  {
    assert (init + [op])[..|init|] == init;
    var s, xs := Run(Begin(rules), init, cfg), HotCalls(rules, init, cfg, key);
    match op
    case Eval(c) =>
      if EventKey(c.ev.kind, c.ev.node) == key && Hot(s.rules, c, cfg) {
        HotCallTracked(s, key, xs, c, cfg);
      } else {
        OtherCallTracked(s, key, xs, c, cfg);
      }
    case Set(r) =>
    case Delete(k) =>
  }

  /** Key by key the manager is a throttle over its hot calls, whatever rule edits happen in between. */
  lemma {:induction false} DeliveriesAreFired(rules: seq<Rule>, ops: seq<Op>, cfg: Config, key: string)
    ensures Tracks(Run(Begin(rules), ops, cfg), key, HotCalls(rules, ops, cfg, key))
  {
    if ops == [] {
    } else {
      var init, op := ops[..|ops| - 1], ops[|ops| - 1];
      assert ops == init + [op];
      DeliveriesAreFired(rules, init, cfg, key);
      OpTracked(rules, init, op, cfg, key);
    }
  }

  ghost predicate ForwardClock(ops: seq<Op>) {
    forall op :: op in ops && op.Eval? ==> op.call.sinceAt <= op.call.stamp
  }

  lemma {:induction false} HotCallsShape(rules: seq<Rule>, ops: seq<Op>, cfg: Config, key: string)
    requires cfg.cooldown > 0 && ForwardClock(ops)
    ensures Timely(HotCalls(rules, ops, cfg, key))
    ensures forall x :: x in HotCalls(rules, ops, cfg, key) ==> x.period == cfg.cooldown
  {
    if ops == [] {
    } else {
      var init := ops[..|ops| - 1];
      assert ops == init + [ops[|ops| - 1]];
      HotCallsShape(rules, init, cfg, key);
    }
  }

  /** Never too often: in every run two deliveries for one (kind, node) are stamped at least a cooldown
      apart, so at most 1 + floor(span / cooldown) of them fit into a span. */
  lemma DeliveriesSpaced(rules: seq<Rule>, ops: seq<Op>, cfg: Config, kind: string, node: string, i: nat, j: nat,
                         span: int)
    requires cfg.cooldown > 0 && ForwardClock(ops)
    requires i < j <= |StampsOf(Run(Begin(rules), ops, cfg).sent, EventKey(kind, node))|
    ensures var stamps := StampsOf(Run(Begin(rules), ops, cfg).sent, EventKey(kind, node));
            && (i < j - 1 ==> stamps[j - 1] - stamps[i] >= cfg.cooldown)
            && (stamps[j - 1] - stamps[i] <= span ==> j - i <= 1 + span / cfg.cooldown)
  {
    var key := EventKey(kind, node);
    var xs := HotCalls(rules, ops, cfg, key);
    DeliveriesAreFired(rules, ops, cfg, key);
    HotCallsShape(rules, ops, cfg, key);
    FiredSpaced(xs);
    var fired := Fired(xs);
    assert fired[j - 1] in fired;
    if fired[j - 1].stamp - fired[i].stamp <= span {
      FiredCount(fired, i, j, cfg.cooldown, span);
    }
  }

  /** Never too rarely: if the calls of a (kind, node) that meet an unsilenced first rule come at most
      `gap` apart and read the clock within `drift`, the first of them is delivered, later deliveries
      follow each other in less than cooldown + gap + drift, and the last is less than a cooldown old at
      the last such call. */
  lemma DeliveredAgain(rules: seq<Rule>, ops: seq<Op>, cfg: Config, kind: string, node: string, gap: int, drift: int)
    requires cfg.cooldown > 0 && ForwardClock(ops)
    requires HotCalls(rules, ops, cfg, EventKey(kind, node)) != []
    requires Attended(HotCalls(rules, ops, cfg, EventKey(kind, node)), cfg.cooldown, gap, drift)
    ensures var stamps := StampsOf(Run(Begin(rules), ops, cfg).sent, EventKey(kind, node));
            var hot := HotCalls(rules, ops, cfg, EventKey(kind, node));
            && stamps != [] && stamps[0] == hot[0].stamp
            && hot[|hot| - 1].at - stamps[|stamps| - 1] < cfg.cooldown
            && forall i, j :: 0 <= i < j < |stamps| && j == i + 1 ==> stamps[j] - stamps[i] < cfg.cooldown + gap + drift
  {
    var key := EventKey(kind, node);
    DeliveriesAreFired(rules, ops, cfg, key);
    HotCallsShape(rules, ops, cfg, key);
    FiredOften(HotCalls(rules, ops, cfg, key), cfg.cooldown, gap, drift);
  }

  /** Kinds without a bar, such as the three the watcher produces, never share a key. */
  lemma EventKeysDistinct(kind: string, node: string, kind': string, node': string)
    requires '|' !in kind && '|' !in kind'
    ensures EventKey(kind, node) == EventKey(kind', node') <==> kind == kind' && node == node'
  {
    if EventKey(kind, node) == EventKey(kind', node') {
      BarKeyLeft(kind, node, kind', node');
    }
  }
}
