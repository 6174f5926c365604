/**
 The lease and the interval jobs of app/services/scheduler_service.py. Any number of
 workers tick; a tick is not atomic: other workers act between taking the lease and
 the end of each job.
 */
module Schedulers {
  import opened Prelude

  type Holder = string
  type JobName = string

  /** The row of `scheduler_leases`. */
  datatype Lease = Lease(holder: Option<Holder>, expires: Option<int>, lastTick: Option<int>)

  const UNSET := Lease(None, None, None)

  /** A configured job and the least number of seconds between its successful runs. */
  datatype Job = Job(name: JobName, interval: int)

  /** The test of the conditional UPDATE. */
  predicate Obtainable(l: Lease, now: int, holder: Holder) {
    l.expires.None? || l.expires.value < now || l.holder == Some(holder)
  }

  function Taken(now: int, ttl: int, holder: Holder): Lease {
    Lease(Some(holder), Some(now + ttl), Some(now))
  }

  /** `job_is_due`; a job without a row entry never ran. */
  predicate IsDue(lastRun: map<JobName, int>, job: Job, now: int) {
    job.interval <= 0 || job.name !in lastRun || now - lastRun[job.name] >= job.interval
  }

  // ---------------------------------------------------------------------------
  // One worker's tick, undisturbed
  // ---------------------------------------------------------------------------

  /** The job gets its turn in a tick; a forced one skips the intervals. */
  predicate Runs(lastRun: map<JobName, int>, job: Job, now: int, force: bool) {
    force || IsDue(lastRun, job, now)
  }

  ghost predicate DistinctNames(jobs: seq<Job>) {
    forall i, j :: 0 <= i < j < |jobs| ==> jobs[i].name != jobs[j].name
  }

  /** The rows after the first `n` jobs have had their turn; `ok` says which succeed. */
  ghost predicate TurnsTaken(jobs: seq<Job>, was: map<JobName, int>, after: map<JobName, int>, n: int,
                             now: int, force: bool, ok: JobName -> bool)
    requires 0 <= n <= |jobs|
  {
    forall name :: if (exists i :: 0 <= i < n && jobs[i].name == name && Runs(was, jobs[i], now, force) && ok(name))
                   then name in after && after[name] == now
                   else (name in after <==> name in was) && (name in was ==> after[name] == was[name])
  }

  lemma NextTurn(jobs: seq<Job>, was: map<JobName, int>, after: map<JobName, int>, n: int,
                 now: int, force: bool, ok: JobName -> bool)
    requires DistinctNames(jobs) && 0 <= n < |jobs| && TurnsTaken(jobs, was, after, n, now, force, ok)
    ensures Runs(after, jobs[n], now, force) <==> Runs(was, jobs[n], now, force)
    ensures TurnsTaken(jobs, was,
                       if Runs(after, jobs[n], now, force) && ok(jobs[n].name) then after[jobs[n].name := now] else after,
                       n + 1, now, force, ok)
  {
    var name := jobs[n].name;
    assert (name in after <==> name in was) && (name in was ==> after[name] == was[name]) by {
      assert !exists i :: 0 <= i < n && jobs[i].name == name && Runs(was, jobs[i], now, force) && ok(name);
    }
  }

  class Scheduler {
    const jobs: seq<Job>
    var lease: Lease
    var lastRun: map<JobName, int>

    constructor (jobs: seq<Job>)
      ensures this.jobs == jobs && lease == UNSET && lastRun == map[]
    {
      this.jobs, lease, lastRun := jobs, UNSET, map[];
    }

    /** `acquire_lease`. */
    method Acquire(now: int, ttl: int, holder: Holder) returns (won: bool)
      modifies this`lease
      ensures won == Obtainable(old(lease), now, holder)
      ensures lease == if won then Taken(now, ttl, holder) else old(lease)
    {
      won := Obtainable(lease, now, holder);
      if won {
        lease := Taken(now, ttl, holder);
      }
    }

    /** `tick`: a job's row changes exactly when its turn came, it was due or the tick
        is forced, and it succeeded. */
    method Tick(now: int, ttl: int, holder: Holder, force: bool, ok: JobName -> bool) returns (ran: bool)
      requires DistinctNames(jobs)
      modifies this
      ensures ran <==> force || Obtainable(old(lease), now, holder)
      ensures lease == if ran && !force then Taken(now, ttl, holder) else old(lease)
      ensures if ran then TurnsTaken(jobs, old(lastRun), lastRun, |jobs|, now, force, ok) else lastRun == old(lastRun)
    {
      if force {
        ran := true;
      } else {
        ran := Acquire(now, ttl, holder);
      }
      if !ran {
        return;
      }
      for i := 0 to |jobs|
        invariant lease == if force then old(lease) else Taken(now, ttl, holder)
        invariant TurnsTaken(jobs, old(lastRun), lastRun, i, now, force, ok)
      {
        NextTurn(jobs, old(lastRun), lastRun, i, now, force, ok);
        if Runs(lastRun, jobs[i], now, force) && ok(jobs[i].name) {
          lastRun := lastRun[jobs[i].name := now];
        }
      }
    }
  }

  // ---------------------------------------------------------------------------
  // Many workers
  // ---------------------------------------------------------------------------

  /** A tick under way since `now`, the job it is running, and how many successful runs
      were on record when that job started. */
  datatype Pass = Pass(now: int, running: Option<Job>, since: nat)

  /** A successful run: the job and the time its tick started. */
  datatype Run = Run(job: Job, at: int)

  /** `grants` records when each holder's latest grant ends. */
  datatype State = State(clock: int, lease: Lease, grants: map<Holder, int>, passes: map<Holder, Pass>,
                         lastRun: map<JobName, int>, runs: seq<Run>)

  datatype Act =
    | TakeLease(ttl: int)
    | StartJob(job: Job)
    | FinishJob(ok: bool)
    | EndPass

  datatype Event = Event(at: int, holder: Holder, act: Act)

  function Start(clock: int): State {
    State(clock, UNSET, map[], map[], map[], [])
  }

  ghost predicate Enabled(s: State, e: Event) {
    && s.clock <= e.at
    && match e.act
       case TakeLease(_) => e.holder !in s.passes
       case StartJob(_) => e.holder in s.passes && s.passes[e.holder].running.None?
       case FinishJob(_) => e.holder in s.passes && s.passes[e.holder].running.Some?
       case EndPass => e.holder in s.passes
  }

  /** `EndPass` is the end of a tick or the death of its process. */
  function Step(s: State, e: Event): State
    requires Enabled(s, e)
  {
    var t := s.(clock := e.at);
    match e.act
    case TakeLease(ttl) =>
      if !Obtainable(s.lease, e.at, e.holder) then t
      else t.(lease := Taken(e.at, ttl, e.holder), grants := s.grants[e.holder := e.at + ttl],
              passes := s.passes[e.holder := Pass(e.at, None, 0)])
    case StartJob(job) =>
      var pass := s.passes[e.holder];
      if IsDue(s.lastRun, job, pass.now) then t.(passes := s.passes[e.holder := pass.(running := Some(job), since := |s.runs|)]) else t
    case FinishJob(ok) =>
      var pass := s.passes[e.holder];
      var idle := t.(passes := s.passes[e.holder := pass.(running := None)]);
      if ok then
        idle.(lastRun := s.lastRun[pass.running.value.name := pass.now],
              runs := s.runs + [Run(pass.running.value, pass.now)])
      else idle
    case EndPass => t.(passes := s.passes - {e.holder})
  }

  ghost predicate Legal(clock: int, es: seq<Event>)
    decreases |es|, 0
  {
    es != [] ==>
      var init := es[..|es| - 1];
      Legal(clock, init) && Enabled(Play(clock, init), es[|es| - 1])
  }

  ghost function Play(clock: int, es: seq<Event>): State
    requires Legal(clock, es)
    decreases |es|, 1
  {
    if es == [] then Start(clock) else Step(Play(clock, es[..|es| - 1]), es[|es| - 1])
  }

  predicate Live(s: State, h: Holder) {
    h in s.grants && s.clock <= s.grants[h]
  }

  /** A live grant is the one the lease row shows. */
  ghost predicate LeaseInv(s: State) {
    && (forall h :: Live(s, h) ==> s.lease.holder == Some(h) && s.lease.expires == Some(s.grants[h]))
    && (forall h :: h in s.passes ==> h in s.grants)
    && (match s.lease.holder
        case None => s.lease.expires == None
        case Some(h) => h in s.grants && s.lease.expires == Some(s.grants[h]))
  }

  lemma StepKeepsLease(s: State, e: Event)
    requires LeaseInv(s) && Enabled(s, e)
    ensures LeaseInv(Step(s, e))
  {
    var s' := Step(s, e);
    forall h | Live(s', h)
      ensures s'.lease.holder == Some(h) && s'.lease.expires == Some(s'.grants[h])
    {
      if h != e.holder || !e.act.TakeLease? {
        assert Live(s, h);
      }
    }
  }

  lemma {:induction false} EveryRunKeepsLease(clock: int, es: seq<Event>)
    requires Legal(clock, es)
    ensures LeaseInv(Play(clock, es))
  {
    if es != [] {
      EveryRunKeepsLease(clock, es[..|es| - 1]);
      StepKeepsLease(Play(clock, es[..|es| - 1]), es[|es| - 1]);
    }
  }

  /** However the workers interleave, no two of them hold unexpired grants. */
  lemma EveryRunHasOneHolder(clock: int, es: seq<Event>, g: Holder, h: Holder)
    requires Legal(clock, es) && Live(Play(clock, es), g) && Live(Play(clock, es), h)
    ensures g == h
  {
    EveryRunKeepsLease(clock, es);
  }

  /** A worker that asks gets the lease exactly when no other one has an unexpired grant:
      the holder renews its own, and a lapsed or unset lease is free to all. */
  lemma {:induction false} EveryRunGrantsTheFreeLease(clock: int, es: seq<Event>, holder: Holder, now: int, ttl: int)
    requires Legal(clock, es) && Enabled(Play(clock, es), Event(now, holder, TakeLease(ttl)))
    ensures var s := Play(clock, es); var t := Step(s, Event(now, holder, TakeLease(ttl)));
      var free := forall h :: h in s.grants && now <= s.grants[h] ==> h == holder;
      && (free ==> t.grants == s.grants[holder := now + ttl] && t.lease.holder == Some(holder) && holder in t.passes)
      && (!free ==> t == s.(clock := now))
  {
    EveryRunKeepsLease(clock, es);
    var s := Play(clock, es);
    assert forall h :: h in s.grants && now <= s.grants[h] ==> Live(s, h);
  }

  // ---------------------------------------------------------------------------
  // Interval jobs
  // ---------------------------------------------------------------------------

  /** A job that starts or ends does so before the worker's grant has run out. */
  ghost predicate Prompt(s: State, e: Event)
    requires Enabled(s, e) && LeaseInv(s)
  {
    e.act.StartJob? || e.act.FinishJob? ==> e.at <= s.grants[e.holder]
  }

  ghost predicate PromptRun(clock: int, es: seq<Event>)
    requires Legal(clock, es)
  {
    es != [] ==>
      var init := es[..|es| - 1];
      EveryRunKeepsLease(clock, init);
      PromptRun(clock, init) && Prompt(Play(clock, init), es[|es| - 1])
  }

  /** One name, one job. */
  ghost predicate Configured(jobs: map<JobName, Job>, e: Event) {
    e.act.StartJob? ==> e.act.job.name in jobs && jobs[e.act.job.name] == e.act.job
  }

  ghost predicate ConfiguredRun(jobs: map<JobName, Job>, es: seq<Event>) {
    forall i :: 0 <= i < |es| ==> Configured(jobs, es[i])
  }

  ghost predicate Spaced(runs: seq<Run>, i: int, k: int)
    requires 0 <= i < |runs| && 0 <= k < |runs|
  {
    runs[i].job == runs[k].job && runs[i].job.interval > 0 ==> runs[k].at - runs[i].at >= runs[i].job.interval
  }

  ghost predicate IsConfigured(jobs: map<JobName, Job>, job: Job) {
    job.name in jobs && jobs[job.name] == job
  }

  /** Successful runs are spaced, the row shows the last of them, and a live worker's
      running job is still due. */
  ghost predicate SpacingInv(jobs: map<JobName, Job>, s: State) {
    && (forall i, k :: 0 <= i < k < |s.runs| ==> Spaced(s.runs, i, k))
    && (forall i :: 0 <= i < |s.runs| ==> IsConfigured(jobs, s.runs[i].job))
    && (forall i :: 0 <= i < |s.runs| ==> Shown(s, i))
    && (forall h :: h in s.passes && s.passes[h].running.Some? ==> IsConfigured(jobs, s.passes[h].running.value))
    && (forall h :: h in s.passes && Live(s, h) ==> StillDue(s, h))
  }

  ghost predicate Shown(s: State, i: int)
    requires 0 <= i < |s.runs|
  {
    var r := s.runs[i];
    r.job.interval > 0 ==> r.job.name in s.lastRun && r.at <= s.lastRun[r.job.name]
  }

  ghost predicate StillDue(s: State, h: Holder)
    requires h in s.passes
  {
    s.passes[h].running.Some? ==> IsDue(s.lastRun, s.passes[h].running.value, s.passes[h].now)
  }

  lemma StepKeepsSpacing(jobs: map<JobName, Job>, s: State, e: Event)
    requires LeaseInv(s) && SpacingInv(jobs, s) && Enabled(s, e) && Prompt(s, e) && Configured(jobs, e)
    ensures SpacingInv(jobs, Step(s, e))
  {
    var s' := Step(s, e);
    StepKeepsLease(s, e);
    if e.act.FinishJob? && e.act.ok {
      FinishKeepsSpacing(jobs, s, e);
    } else {
      forall i | 0 <= i < |s'.runs|
        ensures Shown(s', i)
      {
        assert Shown(s, i);
      }
      forall h | h in s'.passes && Live(s', h)
        ensures StillDue(s', h)
      {
        if h != e.holder {
          assert Live(s, h);
        }
      }
    }
  }

  lemma FinishKeepsSpacing(jobs: map<JobName, Job>, s: State, e: Event)
    requires LeaseInv(s) && SpacingInv(jobs, s) && Enabled(s, e) && Prompt(s, e)
    requires e.act.FinishJob? && e.act.ok
    ensures SpacingInv(jobs, Step(s, e))
  {
    var s' := Step(s, e);
    var n, run := |s.runs|, s'.runs[|s.runs|];
    assert Live(s, e.holder) && StillDue(s, e.holder);
    forall i | 0 <= i < n
      ensures s'.runs[i] == s.runs[i] && Spaced(s'.runs, i, n) && Shown(s', i)
    {
      assert Shown(s, i);
    }
    forall i, k | 0 <= i < k < |s'.runs|
      ensures Spaced(s'.runs, i, k)
    {
      if k < n {
        assert Spaced(s.runs, i, k);
      }
    }
    forall h | h in s'.passes && Live(s', h)
      ensures StillDue(s', h)
    {
      assert Live(s, h) && h == e.holder;
    }
  }

  lemma {:induction false} EveryRunKeepsSpacing(jobs: map<JobName, Job>, clock: int, es: seq<Event>)
    requires Legal(clock, es) && PromptRun(clock, es) && ConfiguredRun(jobs, es)
    ensures SpacingInv(jobs, Play(clock, es))
  {
    if es != [] {
      var init := es[..|es| - 1];
      EveryRunKeepsLease(clock, init);
      EveryRunKeepsSpacing(jobs, clock, init);
      StepKeepsSpacing(jobs, Play(clock, init), es[|es| - 1]);
    }
  }

  /** Any two successful runs of an interval job are at least its interval apart, across
      hand-overs of the lease and failures, when no job outlives its worker's grant. */
  lemma EveryRunSpacesJobs(jobs: map<JobName, Job>, clock: int, es: seq<Event>, i: int, k: int)
    requires Legal(clock, es) && PromptRun(clock, es) && ConfiguredRun(jobs, es)
    requires 0 <= i < k < |Play(clock, es).runs|
    ensures var runs := Play(clock, es).runs;
      runs[i].job.name == runs[k].job.name && runs[i].job.interval > 0
      ==> runs[k].at - runs[i].at >= runs[i].job.interval
  {
    EveryRunKeepsSpacing(jobs, clock, es);
    var s := Play(clock, es);
    assert Spaced(s.runs, i, k) && IsConfigured(jobs, s.runs[i].job) && IsConfigured(jobs, s.runs[k].job);
  }

  // ---------------------------------------------------------------------------
  // Exactly when runs are spaced
  // ---------------------------------------------------------------------------

  ghost predicate AllSpaced(runs: seq<Run>) {
    forall i, k :: 0 <= i < k < |runs| ==> Spaced(runs, i, k)
  }

  /** Since this worker's job started, nobody recorded a run of the job from a tick
      newer than an interval before this one. */
  ghost predicate Undisturbed(s: State, h: Holder)
    requires h in s.passes && s.passes[h].running.Some?
  {
    var pass := s.passes[h];
    forall i :: pass.since <= i < |s.runs| ==> FarEnough(s.runs[i], pass.running.value, pass.now)
  }

  ghost predicate FarEnough(r: Run, job: Job, now: int) {
    r.job == job && job.interval > 0 ==> now - r.at >= job.interval
  }

  ghost predicate UndisturbedRun(clock: int, es: seq<Event>)
    requires Legal(clock, es)
  {
    es != [] ==>
      var init, e := es[..|es| - 1], es[|es| - 1];
      UndisturbedRun(clock, init) && (e.act.FinishJob? && e.act.ok ==> Undisturbed(Play(clock, init), e.holder))
  }

  /** The row shows the start of run `i`, the last of its name. */
  ghost predicate LastOf(s: State, name: JobName, i: int) {
    && 0 <= i < |s.runs| && s.runs[i].job.name == name
    && name in s.lastRun && s.lastRun[name] == s.runs[i].at
    && forall k :: i < k < |s.runs| ==> s.runs[k].job.name != name
  }

  ghost predicate RowInv(jobs: map<JobName, Job>, s: State) {
    && (forall i :: 0 <= i < |s.runs| ==> IsConfigured(jobs, s.runs[i].job) && s.runs[i].job.name in s.lastRun)
    && (forall name :: name in s.lastRun ==> exists i :: LastOf(s, name, i))
    && (forall h :: h in s.passes && s.passes[h].running.Some? ==> IsConfigured(jobs, s.passes[h].running.value))
  }

  /** A running job was due when it started. */
  ghost predicate StartedDue(s: State) {
    forall h :: h in s.passes && s.passes[h].running.Some? ==> WasDue(s, h)
  }

  ghost predicate WasDue(s: State, h: Holder)
    requires h in s.passes && s.passes[h].running.Some?
  {
    var pass := s.passes[h];
    pass.since <= |s.runs| && forall i :: 0 <= i < pass.since ==> FarEnough(s.runs[i], pass.running.value, pass.now)
  }

  lemma LastAfter(s: State, e: Event, name: JobName)
    requires Enabled(s, e) && name in Step(s, e).lastRun
    requires name in s.lastRun ==> exists i :: LastOf(s, name, i)
    ensures exists i :: LastOf(Step(s, e), name, i)
  {
    var s' := Step(s, e);
    if s'.runs != s.runs && name == s'.runs[|s.runs|].job.name {
      assert LastOf(s', name, |s.runs|);
    } else {
      var i :| LastOf(s, name, i);
      assert LastOf(s', name, i);
    }
  }

  lemma StepKeepsRows(jobs: map<JobName, Job>, s: State, e: Event)
    requires RowInv(jobs, s) && Enabled(s, e) && Configured(jobs, e)
    ensures RowInv(jobs, Step(s, e))
  {
    forall name | name in Step(s, e).lastRun
      ensures exists i :: LastOf(Step(s, e), name, i)
    {
      LastAfter(s, e, name);
    }
  }

  /** A due job is far enough from every earlier run, as long as those are spaced. */
  lemma DueIsFar(jobs: map<JobName, Job>, s: State, job: Job, now: int, i: int)
    requires RowInv(jobs, s) && AllSpaced(s.runs) && IsConfigured(jobs, job) && IsDue(s.lastRun, job, now)
    requires 0 <= i < |s.runs|
    ensures FarEnough(s.runs[i], job, now)
  {
    if s.runs[i].job == job && job.interval > 0 {
      var last :| LastOf(s, job.name, last);
      assert s.runs[last].job == job;
      assert i < last ==> Spaced(s.runs, i, last);
    }
  }

  /** In a spaced record a job is due exactly when it is far enough from every run of it. */
  lemma DueIffFar(jobs: map<JobName, Job>, s: State, job: Job, now: int)
    requires RowInv(jobs, s) && AllSpaced(s.runs) && IsConfigured(jobs, job)
    ensures IsDue(s.lastRun, job, now) <==> forall i :: 0 <= i < |s.runs| ==> FarEnough(s.runs[i], job, now)
  {
    if IsDue(s.lastRun, job, now) {
      forall i | 0 <= i < |s.runs|
        ensures FarEnough(s.runs[i], job, now)
      {
        DueIsFar(jobs, s, job, now, i);
      }
    } else {
      var last :| LastOf(s, job.name, last);
      assert s.runs[last].job == job && !FarEnough(s.runs[last], job, now);
    }
  }

  lemma StepKeepsStarted(jobs: map<JobName, Job>, s: State, e: Event)
    requires RowInv(jobs, s) && AllSpaced(s.runs) && StartedDue(s) && Enabled(s, e) && Configured(jobs, e)
    ensures StartedDue(Step(s, e))
  {
    var s' := Step(s, e);
    forall h | h in s'.passes && s'.passes[h].running.Some?
      ensures WasDue(s', h)
    {
      if h == e.holder && e.act.StartJob? && s'.passes != s.passes {
        forall i | 0 <= i < |s.runs|
          ensures FarEnough(s.runs[i], e.act.job, s'.passes[h].now)
        {
          DueIsFar(jobs, s, e.act.job, s'.passes[h].now, i);
        }
      } else {
        assert WasDue(s, h);
      }
    }
  }

  /** A recorded success is spaced from the earlier runs exactly when it is undisturbed. */
  lemma FinishSpacesIffUndisturbed(s: State, e: Event)
    requires StartedDue(s) && AllSpaced(s.runs) && Enabled(s, e) && e.act.FinishJob? && e.act.ok
    ensures AllSpaced(Step(s, e).runs) <==> Undisturbed(s, e.holder)
  {
    var runs, n := Step(s, e).runs, |s.runs|;
    var pass := s.passes[e.holder];
    assert WasDue(s, e.holder);
    forall i, k | 0 <= i < k < n
      ensures Spaced(runs, i, k)
    {
      assert Spaced(s.runs, i, k);
    }
    forall i | 0 <= i < n
      ensures Spaced(runs, i, n) <==> FarEnough(s.runs[i], pass.running.value, pass.now)
    {
    }
  }

  lemma StaysUnspaced(s: State, e: Event)
    requires Enabled(s, e) && !AllSpaced(s.runs)
    ensures !AllSpaced(Step(s, e).runs)
  {
    var i, k :| 0 <= i < k < |s.runs| && !Spaced(s.runs, i, k);
    assert !Spaced(Step(s, e).runs, i, k);
  }

  /** Whatever the interleaving, all successful runs of interval jobs are spaced if and
      only if every success is undisturbed: no other run of the job was recorded since it
      started from a tick newer than an interval before its own. */
  lemma {:induction false} RunsAreSpacedIffUndisturbed(jobs: map<JobName, Job>, clock: int, es: seq<Event>)
    requires Legal(clock, es) && ConfiguredRun(jobs, es)
    ensures AllSpaced(Play(clock, es).runs) <==> UndisturbedRun(clock, es)
    ensures RowInv(jobs, Play(clock, es)) && (AllSpaced(Play(clock, es).runs) ==> StartedDue(Play(clock, es)))
  {
    if es != [] {
      var init, e := es[..|es| - 1], es[|es| - 1];
      RunsAreSpacedIffUndisturbed(jobs, clock, init);
      var s := Play(clock, init);
      assert Configured(jobs, e);
      StepKeepsRows(jobs, s, e);
      if AllSpaced(s.runs) {
        StepKeepsStarted(jobs, s, e);
        if e.act.FinishJob? && e.act.ok {
          FinishSpacesIffUndisturbed(s, e);
        }
      } else {
        StaysUnspaced(s, e);
      }
    }
  }

  // ---------------------------------------------------------------------------
  // A job that outlives its grant
  // ---------------------------------------------------------------------------

  const DAILY := 24 * 3600
  const REPORT := Job("expiry_events", DAILY)

  /** Worker "a" is still at the daily job when its lease of 180 seconds runs out; "b"
      takes over and runs the job too. */
  const OVERRUN: seq<Event> := [
    Event(0, "a", TakeLease(180)), Event(1, "a", StartJob(REPORT)),
    Event(181, "b", TakeLease(180)), Event(182, "b", StartJob(REPORT)),
    Event(183, "b", FinishJob(true)), Event(184, "a", FinishJob(true))
  ]

  lemma GoOn(clock: int, es: seq<Event>, e: Event)
    requires Legal(clock, es) && Enabled(Play(clock, es), e)
    ensures Legal(clock, es + [e]) && Play(clock, es + [e]) == Step(Play(clock, es), e)
  {
    assert (es + [e])[..|es + [e]| - 1] == es;
  }

  const MIDWAY := State(1, Taken(0, 180, "a"), map["a" := 180], map["a" := Pass(0, Some(REPORT), 0)], map[], [])

  lemma OverrunOpens()
    ensures Legal(0, OVERRUN[..2]) && Play(0, OVERRUN[..2]) == MIDWAY
  {
    assert OVERRUN[..1] == [] + [OVERRUN[0]] && OVERRUN[..2] == OVERRUN[..1] + [OVERRUN[1]];
    GoOn(0, [], OVERRUN[0]);
    GoOn(0, OVERRUN[..1], OVERRUN[1]);
    assert Play(0, OVERRUN[..2]) == MIDWAY;
  }

  lemma OverrunHandsOver()
    ensures Legal(0, OVERRUN[..4])
    ensures var s := Play(0, OVERRUN[..4]);
      s.passes == map["a" := Pass(0, Some(REPORT), 0), "b" := Pass(181, Some(REPORT), 0)] && s.clock == 182 && s.runs == []
  {
    OverrunOpens();
    assert OVERRUN[..3] == OVERRUN[..2] + [OVERRUN[2]] && OVERRUN[..4] == OVERRUN[..3] + [OVERRUN[3]];
    GoOn(0, OVERRUN[..2], OVERRUN[2]);
    GoOn(0, OVERRUN[..3], OVERRUN[3]);
  }

  /** Then two runs of a daily job are three minutes apart. */
  lemma SlowJobRunsTwice()
    ensures Legal(0, OVERRUN)
    ensures Play(0, OVERRUN).runs == [Run(REPORT, 181), Run(REPORT, 0)]
    ensures !PromptRun(0, OVERRUN)
  {
    OverrunHandsOver();
    var five := OVERRUN[..5];
    assert five == OVERRUN[..4] + [OVERRUN[4]] && OVERRUN == five + [OVERRUN[5]];
    GoOn(0, OVERRUN[..4], OVERRUN[4]);
    assert Play(0, five).passes["a"] == Pass(0, Some(REPORT), 0) && Play(0, five).clock == 183;
    GoOn(0, five, OVERRUN[5]);
    NotPrompt();
  }

  lemma NotPrompt()
    requires Legal(0, OVERRUN) && Play(0, OVERRUN).runs == [Run(REPORT, 181), Run(REPORT, 0)]
    ensures !PromptRun(0, OVERRUN)
  {
    if PromptRun(0, OVERRUN) {
      assert IsConfigured(map[REPORT.name := REPORT], REPORT);
      EveryRunSpacesJobs(map[REPORT.name := REPORT], 0, OVERRUN, 0, 1);
    }
  }
}
