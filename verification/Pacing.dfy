/** How long the scheduler's loop can be held up (internal/probe/scheduler.go): each call of `schedule` waits
    for one of 32 slots, a blocked call delays the reading of the next tick, and the ticker keeps one tick and
    drops the others. The waits are bounded by the slots and by the time a probe may hold one, and with them
    the distance between ticks that the no-starvation result needs. Times are nanoseconds. */
module Pacing {
  import opened ProbePool
  import opened Scheduler
  import opened Throttle

  /** One call of `schedule`: when it was made, when it got its slot, and when the slot was given back. */
  datatype Call = Call(asked: int, admitted: int, released: int)

  /** How many of the first j calls still hold their slot at some time. */
  function Held(calls: seq<Call>, j: nat, time: int): nat
    requires j <= |calls|
  {
    if j == 0 then 0 else Held(calls, j - 1, time) + (if calls[j - 1].released > time then 1 else 0)
  }

  /** The call got its slot as soon as fewer than 32 were held: if it had to wait, 32 were held until the
      very moment before. */
  ghost predicate Prompt(calls: seq<Call>, j: nat)
    requires j < |calls|
  {
    && Held(calls, j, calls[j].admitted) < SLOTS
    && (calls[j].asked < calls[j].admitted ==> Held(calls, j, calls[j].admitted - 1) >= SLOTS)
  }

  /** The loop makes one call after the other; a call gets its slot promptly, and gives it back at most `hold`
      later. */
  ghost predicate Slotted(calls: seq<Call>, hold: int) {
    && (forall j :: 0 <= j < |calls| ==> calls[j].asked <= calls[j].admitted)
    && (forall j :: 0 <= j < |calls| ==> calls[j].admitted <= calls[j].released <= calls[j].admitted + hold)
    && (forall i, j :: 0 <= i < j < |calls| ==> calls[i].admitted <= calls[j].asked)
    && (forall j :: 0 <= j < |calls| ==> Prompt(calls, j))
  }

  lemma {:induction false} FewHeld(calls: seq<Call>, j: nat, time: int, from: nat)
    requires from <= j <= |calls| && forall i :: 0 <= i < from ==> calls[i].released <= time
    ensures Held(calls, j, time) <= j - from
  {
    if j == 0 {
    } else if j == from {
      FewHeld(calls, j - 1, time, from - 1);
    } else {
      FewHeld(calls, j - 1, time, from);
    }
  }

  /** A call waits at most until the call 32 before it has given its slot back. */
  lemma WaitsForSlot(calls: seq<Call>, hold: int, j: nat)
    requires Slotted(calls, hold) && j < |calls|
    ensures j < SLOTS ==> calls[j].admitted == calls[j].asked
    ensures j >= SLOTS ==>
              calls[j].admitted <= calls[j].asked || calls[j].admitted <= calls[j - SLOTS].admitted + hold
  {
    var time := calls[j].admitted - 1;
    assert Prompt(calls, j);
    if j < SLOTS {
      FewHeld(calls, j, time, 0);
    } else if calls[j - SLOTS].admitted + hold <= time {
      ReleasedBy(calls, hold, j - SLOTS);
      FewHeld(calls, j, time, j - SLOTS + 1);
    }
  }

  lemma ReleasedBy(calls: seq<Call>, hold: int, j: nat)
    requires Slotted(calls, hold) && j < |calls|
    ensures forall i :: 0 <= i <= j ==> calls[i].released <= calls[j].admitted + hold
  {
    forall i | 0 <= i <= j ensures calls[i].released <= calls[j].admitted + hold {
      if i < j {
        assert calls[i].admitted <= calls[j].asked;
      }
    }
  }

  /** The waits, call by call. */
  ghost predicate Waits(calls: seq<Call>, hold: int) {
    && (forall j :: 0 <= j < |calls| ==> calls[j].asked <= calls[j].admitted)
    && (forall i, j :: 0 <= i < j < |calls| ==> calls[i].admitted <= calls[j].asked)
    && (forall i, j :: 0 <= i < j < |calls| && j == i + SLOTS ==>
          calls[j].admitted <= calls[j].asked || calls[j].admitted <= calls[i].admitted + hold)
    && (forall j :: 0 <= j < |calls| && j < SLOTS ==> calls[j].admitted == calls[j].asked)
  }

  lemma SlottedWaits(calls: seq<Call>, hold: int)
    requires Slotted(calls, hold) && hold >= 0
    ensures Waits(calls, hold)
  {
    forall j | 0 <= j < |calls| && j < SLOTS ensures calls[j].admitted == calls[j].asked {
      WaitsForSlot(calls, hold, j);
    }
    forall i, j | 0 <= i < j < |calls| && j == i + SLOTS
      ensures calls[j].admitted <= calls[j].asked || calls[j].admitted <= calls[i].admitted + hold
    {
      WaitsForSlot(calls, hold, j);
    }
  }

  // ---------- one tick ----------

  /** A tick: the time it carries, when the loop read it, which calls it made, and when it was done. */
  datatype Span = Span(value: int, received: int, first: nat, count: nat, done: int)

  /** The loop's statements take no time of their own: a call is made when the one before got its slot. */
  ghost predicate Handled(s: Span, calls: seq<Call>) {
    && s.value <= s.received && s.first + s.count <= |calls|
    && (s.count > 0 ==> calls[s.first].asked == s.received)
    && (forall j :: s.first < j < s.first + s.count ==> calls[j].asked == calls[j - 1].admitted)
    && s.done == if s.count == 0 then s.received else calls[s.first + s.count - 1].admitted
  }

  /** The longest wait of the m-th call of a tick: one hold for every 32 calls begun. */
  function Wait(m: nat, hold: int): int {
    if m < SLOTS then hold else Wait(m - SLOTS, hold) + hold
  }

  lemma {:induction false} WaitGrows(m: nat, n: nat, hold: int)
    requires m <= n && hold >= 0
    ensures hold <= Wait(m, hold) <= Wait(n, hold)
    decreases n
  {
    if n < SLOTS {
    } else if m < SLOTS {
      WaitGrows(n - SLOTS, n - SLOTS, hold);
    } else {
      WaitGrows(m - SLOTS, n - SLOTS, hold);
    }
  }

  /** One call of a tick, given the call before it and the one 32 before it. */
  lemma AdmittedNext(s: Span, calls: seq<Call>, hold: int, m: nat)
    requires Waits(calls, hold) && hold >= 0 && Handled(s, calls) && m < s.count
    requires m > 0 ==> s.received <= calls[s.first + m - 1].admitted <= s.received + Wait(m - 1, hold)
    requires m >= SLOTS ==> calls[s.first + m - SLOTS].admitted <= s.received + Wait(m - SLOTS, hold)
    ensures s.received <= calls[s.first + m].admitted <= s.received + Wait(m, hold)
  {
    var j := s.first + m;
    if m > 0 {
      assert calls[j].asked == calls[j - 1].admitted;
      WaitGrows(m - 1, m, hold);
    }
    if j >= SLOTS && m < SLOTS {
      assert calls[j - SLOTS].admitted <= calls[s.first].asked;
    }
  }

  /** Within a tick the m-th call gets its slot, counted from the reading of the tick, within its wait. */
  lemma {:induction false} AdmittedWithin(s: Span, calls: seq<Call>, hold: int, m: nat)
    requires Waits(calls, hold) && hold >= 0 && Handled(s, calls) && m < s.count
    ensures s.received <= calls[s.first + m].admitted <= s.received + Wait(m, hold)
    decreases m
  {
    if m > 0 {
      AdmittedWithin(s, calls, hold, m - 1);
    }
    if m >= SLOTS {
      AdmittedWithin(s, calls, hold, m - SLOTS);
    }
    AdmittedNext(s, calls, hold, m);
  }

  /** ceil(count / 32). */
  function Batches(count: nat): nat {
    (count + SLOTS - 1) / SLOTS
  }

  lemma OneMore(a: nat, hold: int)
    ensures (a + 1) * hold == a * hold + hold
  {
  }

  lemma {:induction false} WaitIsBatches(m: nat, hold: int)
    ensures Wait(m, hold) == Batches(m + 1) * hold
  {
    if m < SLOTS {
      assert Batches(m + 1) == 1;
    } else {
      WaitIsBatches(m - SLOTS, hold);
      assert Batches(m + 1) == Batches(m + 1 - SLOTS) + 1;
      OneMore(Batches(m + 1 - SLOTS), hold);
    }
  }

  /** The longest a tick with at most `most` calls can take. */
  function Longest(most: nat, hold: int): int {
    if most == 0 then 0 else Wait(most - 1, hold)
  }

  lemma LongestIsBatches(most: nat, hold: int)
    ensures Longest(most, hold) == Batches(most) * hold
  {
    if most > 0 {
      WaitIsBatches(most - 1, hold);
    }
  }

  lemma DoneWithin(s: Span, calls: seq<Call>, hold: int, most: nat)
    requires Waits(calls, hold) && hold >= 0 && Handled(s, calls) && s.count <= most
    ensures s.received <= s.done <= s.received + Longest(most, hold)
  {
    if s.count > 0 {
      AdmittedWithin(s, calls, hold, s.count - 1);
      WaitGrows(s.count - 1, most - 1, hold);
    } else if most > 0 {
      WaitGrows(most - 1, most - 1, hold);
    }
  }

  // ---------- the run ----------

  /** The ticker sends every `every`; its channel keeps the first tick after the last read, and the loop reads
      it when it is sent or, if later, when the tick before is done. */
  ghost predicate Ticking(spans: seq<Span>, every: int) {
    && (spans != [] ==> spans[0].received == spans[0].value)
    && (forall k, l :: 0 <= k < l < |spans| && l == k + 1 ==>
          && spans[k].received < spans[l].value <= spans[k].received + every
          && spans[l].received == if spans[l].value > spans[k].done then spans[l].value else spans[k].done)
  }

  ghost predicate AllHandled(spans: seq<Span>, calls: seq<Call>, most: nat) {
    forall k :: 0 <= k < |spans| ==> Handled(spans[k], calls) && spans[k].count <= most
  }

  /** Ticks that the loop acts on are at most one period of the ticker and the longest blocking apart. */
  lemma GapBounded(spans: seq<Span>, calls: seq<Call>, hold: int, every: int, most: nat, k: nat)
    requires Waits(calls, hold) && hold >= 0 && Ticking(spans, every) && AllHandled(spans, calls, most)
    requires k + 1 < |spans|
    ensures spans[k + 1].value - spans[k].value <= every + Longest(most, hold)
  {
    if most > 0 {
      WaitGrows(most - 1, most - 1, hold);
    }
    if k > 0 {
      assert Handled(spans[k - 1], calls) && spans[k - 1].count <= most;
      DoneWithin(spans[k - 1], calls, hold, most);
      assert spans[k - 1].received < spans[k].value;
    }
  }

  /** The spans are those of the scheduler's ticks: they carry their times and make one call per dispatch, in
      order. */
  ghost predicate Spans(ticks: seq<Input>, extra: seq<string>, spans: seq<Span>) {
    && |spans| == |ticks|
    && (forall k :: 0 <= k < |ticks| ==> spans[k].value == ticks[k].now)
    && (forall k :: 0 <= k < |ticks| ==> spans[k].first == |Run(ticks[..k], extra).dispatched|)
    && (forall k :: 0 <= k < |ticks| ==>
          spans[k].first + spans[k].count == |Run(ticks[..k + 1], extra).dispatched|)
  }

  /** No starvation with blocking: if a tick dispatches at most `most` probes and a probe holds its slot for at
      most `hold`, a task listed at every tick with an interval of at most `period` is dispatched at the first
      tick and then again and again, less than its period, one period of the ticker and ceil(most / 32) holds
      apart. */
  lemma PacedNoStarvation(ticks: seq<Input>, extra: seq<string>, client: string, id: int, period: int,
                          spans: seq<Span>, calls: seq<Call>, hold: int, every: int, most: nat)
    requires hold >= 0 && every >= 0 && ticks != []
    requires forall k :: 0 <= k < |ticks| ==> Listed(ticks[k], extra, client, id, period)
    requires Spans(ticks, extra, spans) && Ticking(spans, every)
    requires Slotted(calls, hold) && AllHandled(spans, calls, most)
    ensures var f := DispatchesOf(ticks, extra, client, id);
            && f != [] && f[0].at == ticks[0].now
            && ticks[|ticks| - 1].now - f[|f| - 1].at < period
            && forall i, j :: 0 <= i < j < |f| && j == i + 1 ==>
                 f[j].at - f[i].at < period + every + ((most + 31) / 32) * hold
  {
    var gap := every + Longest(most, hold);
    LongestIsBatches(most, hold);
    if most > 0 {
      WaitGrows(most - 1, most - 1, hold);
    }
    SlottedWaits(calls, hold);
    forall k, l | 0 <= k < l < |ticks| && l == k + 1 ensures ticks[l].now - ticks[k].now <= gap {
      GapBounded(spans, calls, hold, every, most, k);
      assert spans[k].value == ticks[k].now && spans[l].value == ticks[l].now;
    }
    SchedulerNoStarvation(ticks, extra, client, id, period, gap);
  }
}
