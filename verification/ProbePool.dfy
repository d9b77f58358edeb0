/** The scheduler's concurrency: `schedule` takes a slot of a 32-slot semaphore or gives up on
    cancellation, and each admitted probe runs in its own goroutine, which attempts one insert and then
    frees the slot (internal/probe/scheduler.go). The goroutines are interleaved step by step. */
module ProbePool {
  import opened Scheduler
  import opened Text

  const SLOTS: nat := 32

  /** A goroutine before and after its one InsertProbe attempt. */
  datatype Runner = Probing(job: Dispatch) | Inserted(job: Dispatch)

  /** `sem` counts the tokens in the channel; `pending` is the call of `schedule` that the loop is blocked
      in; `scheduled`, `recorded`, `finished` and `dropped` keep the history. */
  datatype Pool = Pool(sem: nat, pending: Option<Dispatch>, running: seq<Runner>, cancelled: bool,
                       scheduled: multiset<Dispatch>, recorded: multiset<Dispatch>,
                       finished: multiset<Dispatch>, dropped: multiset<Dispatch>)

  const EMPTY_POOL: Pool := Pool(0, None, [], false, multiset{}, multiset{}, multiset{}, multiset{})

  datatype Step =
    | Schedule(d: Dispatch)   // the loop enters `schedule`
    | Admit                   // the send on the semaphore succeeds and the goroutine starts
    | Drop                    // the context is done: `schedule` returns without probing
    | Cancel                  // the context is cancelled
    | Insert(k: nat)          // a goroutine attempts its insert
    | Release(k: nat)         // a goroutine receives its token back and ends

  predicate Enabled(p: Pool, s: Step) {
    match s
    case Schedule(_) => p.pending.None?
    case Admit => p.pending.Some? && p.sem < SLOTS
    case Drop => p.pending.Some? && p.cancelled
    case Cancel => true
    case Insert(k) => k < |p.running| && p.running[k].Probing?
    case Release(k) => k < |p.running| && p.running[k].Inserted? && p.sem > 0
  }

  function Do(p: Pool, s: Step): Pool
    requires Enabled(p, s)
  {
    match s
    case Schedule(d) => p.(pending := Some(d), scheduled := p.scheduled + multiset{d})
    case Admit => p.(sem := p.sem + 1, running := p.running + [Probing(p.pending.value)], pending := None)
    case Drop => p.(dropped := p.dropped + multiset{p.pending.value}, pending := None)
    case Cancel => p.(cancelled := true)
    case Insert(k) =>
      var job := p.running[k].job;
      p.(running := p.running[k := Inserted(job)], recorded := p.recorded + multiset{job})
    case Release(k) =>
      p.(sem := p.sem - 1, running := Others(p.running, k), finished := p.finished + multiset{p.running[k].job})
  }

  /** Runs: a step that is not enabled does not happen. */
  function Execute(p: Pool, steps: seq<Step>): Pool {
    if steps == [] then p
    else
      var q, s := Execute(p, steps[..|steps| - 1]), steps[|steps| - 1];
      if Enabled(q, s) then Do(q, s) else q
  }

  // ---------- accounting ----------

  function Jobs(rs: seq<Runner>, inserted: bool): multiset<Dispatch> {
    if rs == [] then multiset{}
    else
      var init, r := rs[..|rs| - 1], rs[|rs| - 1];
      Jobs(init, inserted) + (if r.Inserted? == inserted then multiset{r.job} else multiset{})
  }

  function Waiting(p: Pool): multiset<Dispatch> {
    match p.pending
    case None => multiset{}
    case Some(d) => multiset{d}
  }

  /** Tokens held are the goroutines alive, at most 32; every scheduled dispatch is recorded, in flight,
      dropped or waiting, and in exactly one of these; every recorded one has finished or is about to. */
  ghost predicate Accounted(p: Pool) {
    && p.sem == |p.running| <= SLOTS
    && p.scheduled == p.recorded + Jobs(p.running, false) + p.dropped + Waiting(p)
    && p.recorded == p.finished + Jobs(p.running, true)
    && (p.dropped != multiset{} ==> p.cancelled)
  }

  lemma {:induction false} JobsConcat(a: seq<Runner>, b: seq<Runner>, inserted: bool)
    ensures Jobs(a + b, inserted) == Jobs(a, inserted) + Jobs(b, inserted)
  {
    if b == [] {
      assert a + b == a;
    } else {
      assert (a + b)[..|a + b| - 1] == a + b[..|b| - 1];
      JobsConcat(a, b[..|b| - 1], inserted);
    }
  }

  lemma JobsOne(r: Runner, inserted: bool)
    ensures Jobs([r], inserted) == if r.Inserted? == inserted then multiset{r.job} else multiset{}
  {
    assert [r][..0] == [];
  }

  function Others(rs: seq<Runner>, k: nat): seq<Runner>
    requires k < |rs|
  {
    rs[..k] + rs[k + 1..]
  }

  /** Splitting the goroutines around one of them. */
  lemma JobsAround(rs: seq<Runner>, k: nat, inserted: bool)
    requires k < |rs|
    ensures Jobs(rs, inserted) ==
            Jobs(Others(rs, k), inserted) + (if rs[k].Inserted? == inserted then multiset{rs[k].job} else multiset{})
  {
    assert rs == rs[..k] + ([rs[k]] + rs[k + 1..]);
    JobsConcat(rs[..k], [rs[k]] + rs[k + 1..], inserted);
    JobsConcat([rs[k]], rs[k + 1..], inserted);
    JobsConcat(rs[..k], rs[k + 1..], inserted);
    JobsOne(rs[k], inserted);
  }

  lemma ScheduleAccounted(p: Pool, d: Dispatch)
    requires Accounted(p) && Enabled(p, Schedule(d))
    ensures Accounted(Do(p, Schedule(d)))
  {
    assert Waiting(p) == multiset{};
  }

  lemma DropAccounted(p: Pool)
    requires Accounted(p) && Enabled(p, Drop)
    ensures Accounted(Do(p, Drop))
  {
    assert Waiting(p) == multiset{p.pending.value} && Waiting(Do(p, Drop)) == multiset{};
  }

  lemma AdmitAccounted(p: Pool)
    requires Accounted(p) && Enabled(p, Admit)
    ensures Accounted(Do(p, Admit))
  {
    var r := Probing(p.pending.value);
    JobsConcat(p.running, [r], false);
    JobsConcat(p.running, [r], true);
    JobsOne(r, false);
    JobsOne(r, true);
  }

  lemma Regrouped<T>(a: multiset<T>, b: multiset<T>, j: multiset<T>, c: multiset<T>, d: multiset<T>)
    ensures a + (b + j) + c + d == (a + j) + b + c + d
    ensures a + (b + j) == (a + j) + b
  {
  }

  lemma InsertAccounted(p: Pool, k: nat)
    requires Accounted(p) && Enabled(p, Insert(k))
    ensures Accounted(Do(p, Insert(k)))
  {
    var job, rest := p.running[k].job, Others(p.running, k);
    var after := p.running[k := Inserted(job)];
    assert Others(after, k) == rest;
    JobsAround(p.running, k, false);
    JobsAround(p.running, k, true);
    JobsAround(after, k, false);
    JobsAround(after, k, true);
    assert Jobs(after, false) == Jobs(rest, false);
    Regrouped(p.recorded, Jobs(rest, false), multiset{job}, p.dropped, Waiting(p));
    Regrouped(p.finished, Jobs(rest, true), multiset{job}, multiset{}, multiset{});
  }

  lemma ReleaseAccounted(p: Pool, k: nat)
    requires Accounted(p) && Enabled(p, Release(k))
    ensures Accounted(Do(p, Release(k)))
  {
    var job, rest := p.running[k].job, Others(p.running, k);
    JobsAround(p.running, k, false);
    JobsAround(p.running, k, true);
    assert Jobs(p.running, false) == Jobs(rest, false);
    Regrouped(p.finished, Jobs(rest, true), multiset{job}, multiset{}, multiset{});
  }

  lemma StepAccounted(p: Pool, s: Step)
    requires Accounted(p) && Enabled(p, s)
    ensures Accounted(Do(p, s))
  {
    match s
    case Schedule(d) => ScheduleAccounted(p, d);
    case Admit => AdmitAccounted(p);
    case Drop => DropAccounted(p);
    case Cancel => assert Do(p, Cancel) == p.(cancelled := true);
    case Insert(k) => InsertAccounted(p, k);
    case Release(k) => ReleaseAccounted(p, k);
  }

  /** In every run of every interleaving the books balance. */
  lemma {:induction false} RunAccounted(steps: seq<Step>)
    ensures Accounted(Execute(EMPTY_POOL, steps))
  {
    if steps == [] {
    } else {
      var init, s := steps[..|steps| - 1], steps[|steps| - 1];
      RunAccounted(init);
      var p := Execute(EMPTY_POOL, init);
      if Enabled(p, s) {
        StepAccounted(p, s);
      }
    }
  }

  /** At most 32 probes are in flight, and a waiting call is kept from its slot by nothing but 32 of them; it can
      give up exactly when the context is cancelled. */
  lemma SlotsExactly(steps: seq<Step>)
    ensures var p := Execute(EMPTY_POOL, steps);
            && |p.running| <= 32
            && (Enabled(p, Admit) <==> p.pending.Some? && |p.running| < 32)
            && (Enabled(p, Drop) <==> p.pending.Some? && p.cancelled)
            && (p.dropped != multiset{} ==> p.cancelled)
  {
    RunAccounted(steps);
  }

  // ---------- progress ----------

  /** Steps the pool takes by itself, without a new call and without cancellation. */
  predicate Internal(s: Step) {
    !s.Schedule? && !s.Cancel?
  }

  function Load(rs: seq<Runner>): nat {
    if rs == [] then 0 else Load(rs[..|rs| - 1]) + (if rs[|rs| - 1].Probing? then 2 else 1)
  }

  /** The work left: three steps for a waiting dispatch, two for a probing goroutine, one to release. */
  function Work(p: Pool): nat {
    Load(p.running) + (if p.pending.Some? then 3 else 0)
  }

  lemma {:induction false} LoadAround(rs: seq<Runner>, k: nat)
    requires k < |rs|
    ensures Load(rs) == Load(Others(rs, k)) + (if rs[k].Probing? then 2 else 1)
  {
    var n := |rs| - 1;
    if k == n {
      assert Others(rs, k) == rs[..n];
    } else {
      var rest := Others(rs, k);
      assert rest[..|rest| - 1] == Others(rs[..n], k);
      LoadAround(rs[..n], k);
    }
  }

  /** Every internal step shortens the work left, so without new calls the pool comes to rest. */
  lemma InternalStepProgresses(p: Pool, s: Step)
    requires Enabled(p, s) && Internal(s)
    ensures Work(Do(p, s)) < Work(p)
  {
    match s
    case Admit =>
      assert (p.running + [Probing(p.pending.value)])[..|p.running|] == p.running;
    case Drop =>
    case Insert(k) =>
      var after := p.running[k := Inserted(p.running[k].job)];
      assert Others(after, k) == Others(p.running, k);
      LoadAround(p.running, k);
      LoadAround(after, k);
    case Release(k) =>
      LoadAround(p.running, k);
  }

  /** The loop never blocks for good: in every reachable state some internal step is possible unless
      nothing waits and nothing runs, and then every scheduled dispatch was recorded or dropped. */
  lemma NoDeadlock(steps: seq<Step>)
    ensures var p := Execute(EMPTY_POOL, steps);
            (exists s :: Internal(s) && Enabled(p, s))
                || (Work(p) == 0 && p.scheduled == p.finished + p.dropped && p.sem == 0)
  {
    var p := Execute(EMPTY_POOL, steps);
    RunAccounted(steps);
    if p.running != [] {
      if p.running[0].Probing? {
        assert Internal(Insert(0)) && Enabled(p, Insert(0));
      } else {
        assert Internal(Release(0)) && Enabled(p, Release(0));
      }
    } else if p.pending.Some? {
      assert Internal(Admit) && Enabled(p, Admit);
    }
  }

  // ---------- the loop's own dispatches ----------

  /** The calls of `schedule` that really happen in a run, in order. */
  function Called(steps: seq<Step>): seq<Dispatch> {
    if steps == [] then []
    else
      var init, s := steps[..|steps| - 1], steps[|steps| - 1];
      if s.Schedule? && Enabled(Execute(EMPTY_POOL, init), s) then Called(init) + [s.d] else Called(init)
  }

  lemma DoScheduled(p: Pool, s: Step)
    requires Enabled(p, s)
    ensures Do(p, s).scheduled == if s.Schedule? then p.scheduled + multiset{s.d} else p.scheduled
  {
  }

  lemma {:induction false} ScheduledAreCalled(steps: seq<Step>)
    ensures Execute(EMPTY_POOL, steps).scheduled == multiset(Called(steps))
  {
    if steps == [] {
    } else {
      var init, s := steps[..|steps| - 1], steps[|steps| - 1];
      ScheduledAreCalled(init);
      var p := Execute(EMPTY_POOL, init);
      if Enabled(p, s) {
        DoScheduled(p, s);
      }
    }
  }

  /** The calls of `schedule` are made in the order of `loop`, some list of dispatches such as those of the
      scheduler's loop, and each call may block as long as it likes. Then, at any moment, the dispatches so
      far are conserved: each was dropped, is waiting, in flight or recorded; and once all calls are made and
      the pool is at rest, they are exactly the finished and the dropped ones. */
  lemma LoopAccounted(loop: seq<Dispatch>, steps: seq<Step>)
    requires Called(steps) <= loop
    ensures var p, sofar := Execute(EMPTY_POOL, steps), loop[..|Called(steps)|];
            && multiset(sofar) == p.recorded + Jobs(p.running, false) + p.dropped + Waiting(p)
            && (Work(p) == 0 && Called(steps) == loop ==> multiset(loop) == p.finished + p.dropped)
  {
    RunAccounted(steps);
    ScheduledAreCalled(steps);
    assert loop[..|Called(steps)|] == Called(steps);
    if Work(Execute(EMPTY_POOL, steps)) == 0 {
      AtRest(Execute(EMPTY_POOL, steps));
    }
  }

  lemma AtRest(p: Pool)
    requires Accounted(p) && Work(p) == 0
    ensures p.scheduled == p.finished + p.dropped
  {
    assert p.running == [];
    assert p.pending.None?;
  }
}
