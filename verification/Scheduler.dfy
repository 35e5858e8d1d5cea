/** Creating runs of CronJobs whose schedule is due (src/reconcile/schedule.rs). */
module Scheduler {
  import opened Wrappers
  import opened Numbers
  import opened Jobs
  import opened CronSchedule
  import opened Budget
  import B = BudgetStore
  import DayOfWeek
  import Seqs

  datatype CronJobRow = CronJobRow(
    key: JobKey,
    schedule: string,
    createdAt: Instant,
    suspend: bool,
    startingDeadline: Option<int>,
    forbid: bool)

  /**
   * What a run of a CronJob would cost: not estimated without a deadline, and unknown without prices; and what the
   * clock says when the budget is asked.
   */
  datatype Estimate = NoDeadline | Estimated(cost: Option<real>, at: Instant) {
    function Known(): Option<real> {
      if NoDeadline? then None else cost
    }
  }

  // One CronJob's runs.

  function RunsOf(jobs: seq<JobRow>, key: JobKey): seq<JobRow> {
    if jobs == [] then []
    else (if jobs[0].owner == Some(key) then [jobs[0]] else []) + RunsOf(jobs[1..], key)
  }

  function LatestRun(runs: seq<JobRow>): Option<Instant> {
    if runs == [] then None
    else
      match LatestRun(runs[1..])
      case None => Some(runs[0].createdAt)
      case Some(t) => Some(Max(runs[0].createdAt, t))
  }

  /** `MAX(created_at)` of the runs, or the CronJob's own creation. */
  function LastScheduled(runs: seq<JobRow>, createdAt: Instant): Instant {
    match LatestRun(runs)
    case None => createdAt
    case Some(t) => t
  }

  predicate HasActive(runs: seq<JobRow>) {
    exists i :: 0 <= i < |runs| && runs[i].preCompletion
  }

  predicate Usable(c: Crate, schedule: string, parts: seq<string>) {
    Trim(schedule) != "" && forall i :: 0 <= i < |parts| ==> c.accepts(parts[i])
  }

  ghost predicate Due(c: Crate, cj: CronJobRow, runs: seq<JobRow>, now: Instant) {
    var parts := Parts(cj.schedule);
    Usable(c, cj.schedule, parts) && IsDue(c, parts, LastScheduled(runs, cj.createdAt), now, cj.startingDeadline)
  }

  /** Why a due run is not created all the same. */
  predicate Held(cj: CronJobRow, runs: seq<JobRow>, affordable: bool) {
    cj.suspend || (cj.forbid && HasActive(runs)) || !affordable
  }

  function NewRun(cj: CronJobRow, now: Instant, cost: Option<real>): JobRow {
    JobRow(Some(cj.key), cj.schedule, now, true, cost)
  }

  /** What one tick makes of the runs of one CronJob, given the budget's answer. */
  ghost function TickOne(c: Crate, cj: CronJobRow, runs: seq<JobRow>, now: Instant, affordable: bool, cost: Option<real>): seq<JobRow> {
    if Due(c, cj, runs, now) && !Held(cj, runs, affordable) then runs + [NewRun(cj, now, cost)] else runs
  }

  /** The tables that a tick changes. */
  datatype Tables = Tables(budget: Option<BudgetRow>, jobs: seq<JobRow>)

  /** The budget check in front of the insert; a job without a deadline is inserted unchecked. */
  function Attempt(t: Tables, job: JobRow, estimate: Estimate): Tables {
    if estimate.NoDeadline? then t.(jobs := t.jobs + [job])
    else
      var (budget, jobs) := B.Step(t.budget, t.jobs, B.AdmitJob(estimate.at, job));
      Tables(budget, jobs)
  }

  /** What one tick makes of the tables for one CronJob. */
  ghost function TickCronJob(c: Crate, cj: CronJobRow, estimate: Estimate, t: Tables, now: Instant): Tables {
    var runs := RunsOf(t.jobs, cj.key);
    if Due(c, cj, runs, now) && !Held(cj, runs, true) then Attempt(t, NewRun(cj, now, estimate.Known()), estimate) else t
  }

  /** And for all of them, one after the other. */
  ghost function TickAll(c: Crate, cronjobs: seq<CronJobRow>, estimates: seq<Estimate>, t: Tables, now: Instant): Tables
    requires |estimates| == |cronjobs|
    decreases |cronjobs|
  {
    if cronjobs == [] then t
    else TickAll(c, cronjobs[1..], estimates[1..], TickCronJob(c, cronjobs[0], estimates[0], t, now), now)
  }

  /** The texts `parse_schedule` hands to the crate. */
  method ParseSchedule(schedule: string) returns (parts: seq<string>)
    ensures parts == Parts(schedule)
  {
    var trimmed := Trim(schedule);
    TrimTwice(schedule);
    var fields := Tokens(trimmed);
    if |fields| == 5 && !(trimmed != "" && trimmed[0] == '@') && IsRestricted(fields[2]) && IsRestricted(fields[4]) {
      var first := SixField(Seqs.Join([fields[0], fields[1], fields[2], fields[3], "*"], ' '));
      var second := SixField(Seqs.Join([fields[0], fields[1], "*", fields[3], fields[4]], ' '));
      parts := [first, second];
    } else {
      var only := SixField(trimmed);
      parts := [only];
    }
  }

  method SixField(schedule: string) returns (r: string)
    ensures r == ToSixField(schedule)
  {
    var trimmed := Trim(schedule);
    if trimmed != "" && trimmed[0] == '@' {
      return trimmed;
    }
    var fields := Tokens(trimmed);
    if |fields| != 5 {
      return "0 " + trimmed;
    }
    var days := DayOfWeek.DayOfWeekToNames(fields[4]);
    r := "0 " + Seqs.Join(fields[4 := days], ' ');
  }

  class Scheduler {
    var cronjobs: seq<CronJobRow>
    const store: B.BudgetStore

    constructor (store: B.BudgetStore)
      ensures this.store == store && cronjobs == []
    {
      this.store := store;
      cronjobs := [];
    }

    function Contents(): Tables
      reads store
    {
      Tables(store.row, store.jobs)
    }

    /** One tick over every CronJob; returns how many runs it created. */
    method ScheduleDueJobs(c: Crate, estimates: seq<Estimate>, now: Instant) returns (scheduled: nat)
      requires |estimates| == |cronjobs|
      modifies store
      ensures Contents() == TickAll(c, cronjobs, estimates, old(Contents()), now)
      ensures |store.jobs| == |old(store.jobs)| + scheduled
    {
      scheduled := 0;
      for i := 0 to |cronjobs|
        invariant cronjobs == old(cronjobs)
        invariant TickAll(c, cronjobs[i..], estimates[i..], Contents(), now) == TickAll(c, cronjobs, estimates, old(Contents()), now)
        invariant |store.jobs| == |old(store.jobs)| + scheduled
      {
        var cj := cronjobs[i];
        assert cronjobs[i..][1..] == cronjobs[i + 1..] && estimates[i..][1..] == estimates[i + 1..];
        var due := IsDueNow(c, cj, RunsOf(store.jobs, cj.key), now);
        if !due {
          continue;
        }
        var created := CreateJobRun(cj, estimates[i], now);
        if created {
          scheduled := scheduled + 1;
        }
      }
      assert cronjobs[|cronjobs|..] == [];
    }

    /** Whether a run of `cj` is to be attempted. */
    method IsDueNow(c: Crate, cj: CronJobRow, runs: seq<JobRow>, now: Instant) returns (due: bool)
      ensures due <==> Due(c, cj, runs, now) && !Held(cj, runs, true)
    {
      if Trim(cj.schedule) == "" {
        return false;
      }
      var parts := ParseSchedule(cj.schedule);
      if exists i :: 0 <= i < |parts| && !c.accepts(parts[i]) {
        return false;
      }
      if cj.suspend {
        return false;
      }
      var last := LastScheduled(runs, cj.createdAt);
      if !IsDue(c, parts, last, now, cj.startingDeadline) {
        return false;
      }
      return !(cj.forbid && HasActive(runs));
    }

    /** Creates the run unless the budget is known not to cover it. */
    method CreateJobRun(cj: CronJobRow, estimate: Estimate, now: Instant) returns (created: bool)
      modifies store
      ensures Contents() == Attempt(old(Contents()), NewRun(cj, now, estimate.Known()), estimate)
      ensures |store.jobs| == |old(store.jobs)| + if created then 1 else 0
    {
      var job := NewRun(cj, now, estimate.Known());
      if estimate.NoDeadline? {
        store.Insert(job);
        return true;
      }
      created := store.Admit(job, estimate.at);
    }
  }

  // What a tick means for one CronJob.

  lemma {:induction false} RunsOfAppend(a: seq<JobRow>, b: seq<JobRow>, key: JobKey)
    ensures RunsOf(a + b, key) == RunsOf(a, key) + RunsOf(b, key)
  {
    if a == [] {
      assert a + b == b;
    } else {
      assert (a + b)[1..] == a[1..] + b;
      RunsOfAppend(a[1..], b, key);
    }
  }

  lemma RunsOfSnoc(jobs: seq<JobRow>, job: JobRow, key: JobKey)
    ensures RunsOf(jobs + [job], key) == if job.owner == Some(key) then RunsOf(jobs, key) + [job] else RunsOf(jobs, key)
  {
    RunsOfAppend(jobs, [job], key);
    assert [job][1..] == [];
    assert RunsOf(jobs, key) + [] == RunsOf(jobs, key);
  }

  ghost predicate DistinctKeys(cronjobs: seq<CronJobRow>) {
    forall i, j :: 0 <= i < j < |cronjobs| ==> cronjobs[i].key != cronjobs[j].key
  }

  /** The budget's answer for a run, in the given state of the tables. */
  predicate Affordable(t: Tables, estimate: Estimate) {
    estimate.NoDeadline? || B.Sufficient(B.Settled(t.budget, estimate.at), t.jobs, estimate.cost)
  }

  lemma TickCronJobRuns(c: Crate, cj: CronJobRow, estimate: Estimate, t: Tables, now: Instant, key: JobKey)
    ensures RunsOf(TickCronJob(c, cj, estimate, t, now).jobs, key) ==
      if key == cj.key then TickOne(c, cj, RunsOf(t.jobs, key), now, Affordable(t, estimate), estimate.Known())
      else RunsOf(t.jobs, key)
  {
    RunsOfSnoc(t.jobs, NewRun(cj, now, estimate.Known()), key);
  }

  lemma {:induction false} TickOthers(c: Crate, cronjobs: seq<CronJobRow>, estimates: seq<Estimate>, t: Tables, now: Instant, key: JobKey)
    requires |estimates| == |cronjobs| && forall i :: 0 <= i < |cronjobs| ==> cronjobs[i].key != key
    ensures RunsOf(TickAll(c, cronjobs, estimates, t, now).jobs, key) == RunsOf(t.jobs, key)
    decreases |cronjobs|
  {
    if cronjobs != [] {
      TickCronJobRuns(c, cronjobs[0], estimates[0], t, now, key);
      TickOthers(c, cronjobs[1..], estimates[1..], TickCronJob(c, cronjobs[0], estimates[0], t, now), now, key);
    }
  }

  /** The tables when it is the turn of CronJob `k`. */
  ghost function Turn(c: Crate, cronjobs: seq<CronJobRow>, estimates: seq<Estimate>, t: Tables, now: Instant, k: nat): Tables
    requires |estimates| == |cronjobs| && k <= |cronjobs|
  {
    TickAll(c, cronjobs[..k], estimates[..k], t, now)
  }

  lemma TurnStep(c: Crate, cronjobs: seq<CronJobRow>, estimates: seq<Estimate>, t: Tables, now: Instant, k: nat)
    requires |estimates| == |cronjobs| && 0 < k <= |cronjobs|
    ensures Turn(c, cronjobs, estimates, t, now, k) ==
      Turn(c, cronjobs[1..], estimates[1..], TickCronJob(c, cronjobs[0], estimates[0], t, now), now, k - 1)
  {
    assert cronjobs[..k][1..] == cronjobs[1..][..k - 1] && estimates[..k][1..] == estimates[1..][..k - 1];
  }

  /**
   * The tick of the whole table, seen from one CronJob: what becomes of its runs depends on nothing but these
   * runs and the budget's answer at its turn.
   */
  lemma {:induction false} TickSeenFrom(c: Crate, cronjobs: seq<CronJobRow>, estimates: seq<Estimate>, t: Tables, now: Instant, k: nat)
    requires |estimates| == |cronjobs| && DistinctKeys(cronjobs) && k < |cronjobs|
    ensures RunsOf(TickAll(c, cronjobs, estimates, t, now).jobs, cronjobs[k].key) ==
      TickOne(c, cronjobs[k], RunsOf(t.jobs, cronjobs[k].key), now,
              Affordable(Turn(c, cronjobs, estimates, t, now, k), estimates[k]), estimates[k].Known())
    decreases |cronjobs|
  {
    var next := TickCronJob(c, cronjobs[0], estimates[0], t, now);
    TickCronJobRuns(c, cronjobs[0], estimates[0], t, now, cronjobs[k].key);
    if k == 0 {
      TickOthers(c, cronjobs[1..], estimates[1..], next, now, cronjobs[0].key);
      assert Turn(c, cronjobs, estimates, t, now, 0) == t;
    } else {
      TurnStep(c, cronjobs, estimates, t, now, k);
      TickSeenFrom(c, cronjobs[1..], estimates[1..], next, now, k - 1);
    }
  }

  // What CronJobs share in a tick: the budget.

  /** The clock does not go back between `start`, the budget checks and `end`. */
  predicate InOrder(estimates: seq<Estimate>, start: Instant, end: Instant) {
    if estimates == [] then start <= end
    else if estimates[0].NoDeadline? then InOrder(estimates[1..], start, end)
    else start <= estimates[0].at && InOrder(estimates[1..], estimates[0].at, end)
  }

  lemma {:induction false} InOrderEarlier(estimates: seq<Estimate>, earlier: Instant, start: Instant, end: Instant)
    requires InOrder(estimates, start, end) && earlier <= start
    ensures InOrder(estimates, earlier, end) && start <= end
  {
    if estimates != [] {
      if estimates[0].NoDeadline? {
        InOrderEarlier(estimates[1..], earlier, start, end);
      } else {
        InOrderEarlier(estimates[1..], estimates[0].at, estimates[0].at, end);
      }
    }
  }

  /** A tick only adds jobs, and its checks only settle the budget, which a settle at their end would do alone. */
  lemma {:induction false} TickAdds(c: Crate, cronjobs: seq<CronJobRow>, estimates: seq<Estimate>, t: Tables, now: Instant, end: Instant)
    requires |estimates| == |cronjobs|
    requires t.budget.Some? && InOrder(estimates, t.budget.value.lastAccrualAt, end)
    ensures t.jobs <= TickAll(c, cronjobs, estimates, t, now).jobs
    ensures B.Settled(TickAll(c, cronjobs, estimates, t, now).budget, end) == B.Settled(t.budget, end)
    decreases |cronjobs|
  {
    if cronjobs != [] {
      var last := t.budget.value.lastAccrualAt;
      if estimates[0].Estimated? {
        InOrderEarlier(estimates[1..], last, estimates[0].at, end);
        SettleTwice(t.budget.value, estimates[0].at, end);
      }
      TickAdds(c, cronjobs[1..], estimates[1..], TickCronJob(c, cronjobs[0], estimates[0], t, now), now, end);
    }
  }

  lemma {:induction false} CommittedAppend(a: seq<JobRow>, b: seq<JobRow>)
    ensures B.Committed(a + b) == B.Committed(a) + B.Committed(b)
  {
    if a == [] {
      assert a + b == b;
    } else {
      assert (a + b)[1..] == a[1..] + b;
      CommittedAppend(a[1..], b);
    }
  }

  /**
   * First come, first served: with budgeting enabled and a clock that does not go back, a run of known cost is
   * affordable at its CronJob's turn if and only if the balance, settled then, covers it on top of what was committed
   * before the tick and of the runs that this very tick created before it.
   */
  lemma BudgetIsShared(c: Crate, cronjobs: seq<CronJobRow>, estimates: seq<Estimate>, t: Tables, now: Instant, k: nat)
    requires |estimates| == |cronjobs| && k < |cronjobs| && estimates[k].Known().Some?
    requires t.budget.Some? && t.budget.value.Enabled()
    requires InOrder(estimates[..k], t.budget.value.lastAccrualAt, estimates[k].at)
    ensures var turn := Turn(c, cronjobs, estimates, t, now, k);
      && t.jobs <= turn.jobs
      && (Affordable(turn, estimates[k]) <==>
            B.Committed(t.jobs) + B.Committed(turn.jobs[|t.jobs|..]) + estimates[k].cost.value
            <= Settle(t.budget.value, estimates[k].at).balance)
  {
    var turn := Turn(c, cronjobs, estimates, t, now, k);
    TickAdds(c, cronjobs[..k], estimates[..k], t, now, estimates[k].at);
    var added := turn.jobs[|t.jobs|..];
    assert turn.jobs == t.jobs + added;
    CommittedAppend(t.jobs, added);
  }

  /** A tick keeps committed spend covered. */
  lemma {:induction false} TickKeepsCovered(c: Crate, cronjobs: seq<CronJobRow>, estimates: seq<Estimate>, t: Tables, now: Instant)
    requires |estimates| == |cronjobs| && B.Covered(t.budget, t.jobs)
    requires forall i :: 0 <= i < |estimates| && estimates[i].Known().Some? ==> estimates[i].cost.value >= 0.0
    ensures var after := TickAll(c, cronjobs, estimates, t, now);
      B.Covered(after.budget, after.jobs)
    decreases |cronjobs|
  {
    if cronjobs != [] {
      var job := NewRun(cronjobs[0], now, estimates[0].Known());
      if estimates[0].NoDeadline? {
        B.CommittedSnoc(t.jobs, job);
      } else {
        B.StepKeepsCovered(t.budget, t.jobs, B.AdmitJob(estimates[0].at, job));
      }
      TickKeepsCovered(c, cronjobs[1..], estimates[1..], TickCronJob(c, cronjobs[0], estimates[0], t, now), now);
    }
  }

  // When a run is created, and which.

  /** The latest of the creation times. */
  lemma {:induction false} LatestIsMax(runs: seq<JobRow>)
    ensures LatestRun(runs) == None <==> runs == []
    ensures LatestRun(runs).Some? ==>
      && (forall i :: 0 <= i < |runs| ==> runs[i].createdAt <= LatestRun(runs).value)
      && exists i :: 0 <= i < |runs| && runs[i].createdAt == LatestRun(runs).value
  {
    if runs != [] {
      LatestIsMax(runs[1..]);
      assert forall i :: 1 <= i < |runs| ==> runs[i] == runs[1..][i - 1];
      if LatestRun(runs[1..]).Some? {
        var i :| 0 <= i < |runs[1..]| && runs[1..][i].createdAt == LatestRun(runs[1..]).value;
        assert runs[i + 1].createdAt == LatestRun(runs[1..]).value;
      }
    }
  }

  /** The schedule fired at `t`, after all runs there are or, without any, after the CronJob was made, and not too long ago. */
  ghost predicate Missed(c: Crate, cj: CronJobRow, runs: seq<JobRow>, t: Instant, now: Instant) {
    && t <= now && Fires(c, Parts(cj.schedule), t)
    && (forall i :: 0 <= i < |runs| ==> runs[i].createdAt < t)
    && (runs == [] ==> cj.createdAt < t)
    && (cj.startingDeadline.Some? ==> now - t <= cj.startingDeadline.value)
  }

  lemma DueIsMissed(c: Crate, cj: CronJobRow, runs: seq<JobRow>, now: Instant)
    requires c.Valid()
    ensures Due(c, cj, runs, now) <==>
      && Trim(cj.schedule) != "" && (forall i :: 0 <= i < |Parts(cj.schedule)| ==> c.accepts(Parts(cj.schedule)[i]))
      && exists t :: Missed(c, cj, runs, t, now)
  {
    var last := LastScheduled(runs, cj.createdAt);
    var parts := Parts(cj.schedule);
    DueMeansMissed(c, parts, last, now, cj.startingDeadline);
    LatestIsMax(runs);
    forall t
      ensures last < t <= now && (cj.startingDeadline.Some? ==> now - t <= cj.startingDeadline.value) && Fires(c, parts, t)
        <==> Missed(c, cj, runs, t, now)
    {
    }
    if IsDue(c, parts, last, now, cj.startingDeadline) {
      var t :| last < t <= now && (cj.startingDeadline.Some? ==> now - t <= cj.startingDeadline.value) && Fires(c, parts, t);
      assert Missed(c, cj, runs, t, now);
    }
    if t :| Missed(c, cj, runs, t, now) {
      assert last < t <= now && Fires(c, parts, t);
    }
  }

  /**
   * A tick creates one run, before completion and of the schedule in force, exactly if the CronJob is not suspended, its
   * schedule is accepted and fired since the last run, nothing active forbids it and the budget allows it.
   */
  lemma CreatedExactly(c: Crate, cj: CronJobRow, runs: seq<JobRow>, now: Instant, affordable: bool, cost: Option<real>)
    requires c.Valid()
    ensures TickOne(c, cj, runs, now, affordable, cost) ==
      if && !cj.suspend && affordable
         && (cj.forbid ==> forall i :: 0 <= i < |runs| ==> !runs[i].preCompletion)
         && Trim(cj.schedule) != "" && (forall i :: 0 <= i < |Parts(cj.schedule)| ==> c.accepts(Parts(cj.schedule)[i]))
         && exists t :: Missed(c, cj, runs, t, now)
      then runs + [JobRow(Some(cj.key), cj.schedule, now, true, cost)]
      else runs
  {
    DueIsMissed(c, cj, runs, now);
  }

  /** The budget allows a run unless it is enabled, the run's cost is known and what is not committed is less. */
  lemma AffordableExactly(t: Tables, estimate: Estimate)
    ensures Affordable(t, estimate) <==>
      || estimate.NoDeadline? || estimate.cost.None?
      || t.budget.None? || t.budget.value.dailyRate <= 0.0
      || Settle(t.budget.value, estimate.at).balance - B.Committed(t.jobs) >= estimate.cost.value
  {
  }

  // Whole runs of one CronJob.

  datatype Event =
    | Tick(now: Instant, affordable: bool, cost: Option<real>)
    | Finished(run: nat)
    | Edited(schedule: string, suspend: bool, startingDeadline: Option<int>, forbid: bool)

  ghost function Step(c: Crate, cj: CronJobRow, runs: seq<JobRow>, e: Event): (CronJobRow, seq<JobRow>) {
    match e
    case Tick(now, affordable, cost) => (cj, TickOne(c, cj, runs, now, affordable, cost))
    case Finished(i) => (cj, if i < |runs| then runs[i := runs[i].(preCompletion := false)] else runs)
    case Edited(schedule, suspend, deadline, forbid) =>
      (cj.(schedule := schedule, suspend := suspend, startingDeadline := deadline, forbid := forbid), runs)
  }

  ghost function StepAll(c: Crate, cj: CronJobRow, runs: seq<JobRow>, events: seq<Event>): (CronJobRow, seq<JobRow>)
    decreases |events|
  {
    if events == [] then (cj, runs)
    else
      var (cj', runs') := Step(c, cj, runs, events[0]);
      StepAll(c, cj', runs', events[1..])
  }

  /** When the schedule was last served before run `i`. */
  function Previous(runs: seq<JobRow>, i: nat, createdAt: Instant): Instant
    requires i <= |runs|
  {
    LastScheduled(runs[..i], createdAt)
  }

  /** Run `i` has an instant of its own schedule to itself, after all runs before it and no later than it was created. */
  ghost predicate HasInstant(c: Crate, runs: seq<JobRow>, i: nat, createdAt: Instant)
    requires i < |runs|
  {
    exists t :: Previous(runs, i, createdAt) < t <= runs[i].createdAt && Fires(c, Parts(runs[i].schedule), t)
  }

  /** So has every run from `from` on. */
  ghost predicate OwnInstants(c: Crate, runs: seq<JobRow>, from: nat, createdAt: Instant) {
    forall i :: from <= i < |runs| ==> HasInstant(c, runs, i, createdAt)
  }

  lemma {:induction false} SameTimes(a: seq<JobRow>, b: seq<JobRow>)
    requires |a| == |b| && forall i :: 0 <= i < |a| ==> a[i].createdAt == b[i].createdAt
    ensures LatestRun(a) == LatestRun(b)
  {
    if a != [] {
      SameTimes(a[1..], b[1..]);
    }
  }

  /** An instant serves its run as long as that run and those before keep their times. */
  lemma SameInstant(c: Crate, runs: seq<JobRow>, next: seq<JobRow>, i: nat, createdAt: Instant)
    requires i < |runs| && i < |next| && HasInstant(c, runs, i, createdAt)
    requires next[i].schedule == runs[i].schedule && forall j :: 0 <= j <= i ==> next[j].createdAt == runs[j].createdAt
    ensures HasInstant(c, next, i, createdAt)
  {
    SameTimes(runs[..i], next[..i]);
    var t :| Previous(runs, i, createdAt) < t <= runs[i].createdAt && Fires(c, Parts(runs[i].schedule), t);
  }

  lemma TickKeepsInstants(c: Crate, cj: CronJobRow, runs: seq<JobRow>, from: nat, now: Instant, affordable: bool, cost: Option<real>)
    requires c.Valid() && OwnInstants(c, runs, from, cj.createdAt)
    ensures OwnInstants(c, TickOne(c, cj, runs, now, affordable, cost), from, cj.createdAt)
  {
    var next := TickOne(c, cj, runs, now, affordable, cost);
    if next != runs {
      var last := LastScheduled(runs, cj.createdAt);
      var n := |runs|;
      DueMeansMissed(c, Parts(cj.schedule), last, now, cj.startingDeadline);
      assert next[..n] == runs;
      var t :| last < t <= now && Fires(c, Parts(cj.schedule), t);
      assert next[n].schedule == cj.schedule && next[n].createdAt == now;
      assert HasInstant(c, next, n, cj.createdAt);
      forall i | from <= i < n ensures HasInstant(c, next, i, cj.createdAt) {
        SameInstant(c, runs, next, i, cj.createdAt);
      }
    }
  }

  lemma FinishKeepsInstants(c: Crate, runs: seq<JobRow>, from: nat, i: nat, createdAt: Instant)
    requires i < |runs| && OwnInstants(c, runs, from, createdAt)
    ensures OwnInstants(c, runs[i := runs[i].(preCompletion := false)], from, createdAt)
  {
    var next := runs[i := runs[i].(preCompletion := false)];
    forall j | from <= j < |next| ensures HasInstant(c, next, j, createdAt) {
      SameInstant(c, runs, next, j, createdAt);
    }
  }

  /**
   * Over every sequence of ticks, completions and edits, whatever the clock does and whatever runs of that name
   * there were already, each run created uses up an instant of its own: since the last run before it the schedule
   * fired.
   */
  lemma {:induction false} EachRunItsInstant(c: Crate, cj: CronJobRow, runs: seq<JobRow>, from: nat, events: seq<Event>)
    requires c.Valid() && OwnInstants(c, runs, from, cj.createdAt)
    ensures OwnInstants(c, StepAll(c, cj, runs, events).1, from, cj.createdAt)
    decreases |events|
  {
    if events != [] {
      var (cj', runs') := Step(c, cj, runs, events[0]);
      match events[0] {
        case Tick(now, affordable, cost) => TickKeepsInstants(c, cj, runs, from, now, affordable, cost);
        case Finished(i) =>
          if i < |runs| {
            FinishKeepsInstants(c, runs, from, i, cj.createdAt);
          }
        case Edited(_, _, _, _) =>
      }
      EachRunItsInstant(c, cj', runs', from, events[1..]);
    }
  }

  /** The instants at which a schedule fires in `(after, until]`. */
  ghost function Instants(c: Crate, schedule: string, after: Instant, until: Instant): set<Instant> {
    set t | after < t <= until && Fires(c, Parts(schedule), t)
  }

  /** Runs of an unchanged schedule never outnumber the instants it fired at since the runs there were already. */
  lemma {:induction false} RunsWithinInstants(c: Crate, runs: seq<JobRow>, from: nat, schedule: string, createdAt: Instant)
    requires from <= |runs| && OwnInstants(c, runs, from, createdAt)
    requires forall i :: from <= i < |runs| ==> runs[i].schedule == schedule
    ensures Previous(runs, from, createdAt) <= Previous(runs, |runs|, createdAt)
    ensures |runs| - from <= |Instants(c, schedule, Previous(runs, from, createdAt), Previous(runs, |runs|, createdAt))|
    decreases |runs|
  {
    if from < |runs| {
      var n := |runs| - 1;
      var before := runs[..n];
      forall i | from <= i < n ensures HasInstant(c, before, i, createdAt) {
        assert HasInstant(c, runs, i, createdAt);
        SameInstant(c, runs, before, i, createdAt);
      }
      RunsWithinInstants(c, before, from, schedule, createdAt);
      assert before[..from] == runs[..from] && before[..n] == before && runs[..|runs|] == runs;
      assert HasInstant(c, runs, n, createdAt);
      var t :| Previous(runs, n, createdAt) < t <= runs[n].createdAt && Fires(c, Parts(schedule), t);
      assert runs == before + [runs[n]];
      LatestSnoc(before, runs[n]);
      assert Previous(runs, |runs|, createdAt) == runs[n].createdAt;
      var fewer := Instants(c, schedule, Previous(runs, from, createdAt), Previous(runs, n, createdAt));
      var all := Instants(c, schedule, Previous(runs, from, createdAt), runs[n].createdAt);
      OneMore(fewer, t, all);
    }
  }

  lemma OneMore(fewer: set<Instant>, t: Instant, all: set<Instant>)
    requires fewer <= all && t in all && t !in fewer
    ensures |fewer| + 1 <= |all|
  {
    Cardinality(fewer + {t}, all);
  }

  lemma {:induction false} Cardinality<T>(a: set<T>, b: set<T>)
    requires a <= b
    ensures |a| <= |b|
  {
    if a != {} {
      var x :| x in a;
      Cardinality(a - {x}, b - {x});
    }
  }

  // Missed instants are caught up with once.

  /** Ticks that come no earlier than `now` and are all held; edits that keep the schedule and set no deadline. */
  ghost predicate OnlyHeld(c: Crate, cj: CronJobRow, runs: seq<JobRow>, events: seq<Event>, now: Instant)
    decreases |events|
  {
    events == [] || (
      && (match events[0]
          case Tick(at, affordable, _) => at >= now && Held(cj, runs, affordable)
          case Finished(_) => true
          case Edited(schedule, _, deadline, _) => schedule == cj.schedule && deadline.None?)
      && var (cj', runs') := Step(c, cj, runs, events[0]);
         OnlyHeld(c, cj', runs', events[1..], now))
  }

  lemma {:induction false} FinishKeepsLatest(runs: seq<JobRow>, i: nat)
    requires i < |runs|
    ensures LatestRun(runs[i := runs[i].(preCompletion := false)]) == LatestRun(runs)
  {
    var next := runs[i := runs[i].(preCompletion := false)];
    if i > 0 {
      assert next[1..] == runs[1..][i - 1 := runs[1..][i - 1].(preCompletion := false)];
      FinishKeepsLatest(runs[1..], i - 1);
    } else {
      assert next[1..] == runs[1..];
    }
  }

  lemma StaysDue(c: Crate, cj: CronJobRow, runs: seq<JobRow>, now: Instant, later: Instant)
    requires c.Valid() && cj.startingDeadline.None? && Due(c, cj, runs, now) && now <= later
    ensures Due(c, cj, runs, later)
  {
  }

  /**
   * Without a deadline and with an unchanged schedule, a due run stays due through suspension, `Forbid`
   * holds and budget skips, none of which creates a run; the first tick that is not held creates exactly
   * one, and it catches up with everything missed.
   */
  lemma {:induction false} DueUntilCaughtUp(c: Crate, cj: CronJobRow, runs: seq<JobRow>, events: seq<Event>,
                                            now: Instant, at: Instant, cost: Option<real>)
    requires c.Valid() && cj.startingDeadline.None? && Due(c, cj, runs, now) && now <= at
    requires OnlyHeld(c, cj, runs, events, now)
    ensures var (cj', runs') := StepAll(c, cj, runs, events);
      && |runs'| == |runs|
      && LatestRun(runs') == LatestRun(runs)
      && Due(c, cj', runs', at)
      && (!Held(cj', runs', true) ==>
            && TickOne(c, cj', runs', at, true, cost) == runs' + [NewRun(cj, at, cost)]
            && !Due(c, cj', TickOne(c, cj', runs', at, true, cost), at))
    decreases |events|
  {
    if events == [] {
      StaysDue(c, cj, runs, now, at);
      if !Held(cj, runs, true) {
        CaughtUp(c, cj, runs, at, cost);
      }
    } else {
      var (cj', runs') := Step(c, cj, runs, events[0]);
      if events[0].Finished? && events[0].run < |runs| {
        FinishKeepsLatest(runs, events[0].run);
      }
      DueUntilCaughtUp(c, cj', runs', events[1..], now, at, cost);
    }
  }

  lemma {:induction false} LatestSnoc(runs: seq<JobRow>, run: JobRow)
    ensures LatestRun(runs + [run]) ==
      Some(match LatestRun(runs) case None => run.createdAt case Some(t) => Max(t, run.createdAt))
  {
    if runs == [] {
      assert [run][1..] == [];
    } else {
      assert (runs + [run])[1..] == runs[1..] + [run];
      LatestSnoc(runs[1..], run);
    }
  }

  lemma CaughtUp(c: Crate, cj: CronJobRow, runs: seq<JobRow>, at: Instant, cost: Option<real>)
    requires c.Valid()
    ensures !Due(c, cj, runs + [NewRun(cj, at, cost)], at)
  {
    var next := runs + [NewRun(cj, at, cost)];
    LatestSnoc(runs, next[|runs|]);
    DueMeansMissed(c, Parts(cj.schedule), LastScheduled(next, cj.createdAt), at, cj.startingDeadline);
  }

  // Forbid.

  function CountActive(runs: seq<JobRow>): nat {
    if runs == [] then 0 else (if runs[0].preCompletion then 1 else 0) + CountActive(runs[1..])
  }

  lemma {:induction false} CountSnoc(runs: seq<JobRow>, run: JobRow)
    ensures CountActive(runs + [run]) == CountActive(runs) + if run.preCompletion then 1 else 0
  {
    if runs == [] {
      assert [run][1..] == [];
    } else {
      assert (runs + [run])[1..] == runs[1..] + [run];
      CountSnoc(runs[1..], run);
    }
  }

  lemma {:induction false} CountNone(runs: seq<JobRow>)
    requires !HasActive(runs)
    ensures CountActive(runs) == 0
  {
    if runs != [] {
      assert forall i :: 0 <= i < |runs[1..]| ==> runs[1..][i] == runs[i + 1];
      CountNone(runs[1..]);
    }
  }

  lemma {:induction false} CountFinish(runs: seq<JobRow>, i: nat)
    requires i < |runs|
    ensures CountActive(runs[i := runs[i].(preCompletion := false)]) <= CountActive(runs)
  {
    var next := runs[i := runs[i].(preCompletion := false)];
    if i > 0 {
      assert next[1..] == runs[1..][i - 1 := runs[1..][i - 1].(preCompletion := false)];
      CountFinish(runs[1..], i - 1);
    } else {
      assert next[1..] == runs[1..];
    }
  }

  /** While `Forbid` stays in force, at most one of the runs created since is active at any time. */
  lemma {:induction false} ForbidAtMostOne(c: Crate, cj: CronJobRow, runs: seq<JobRow>, events: seq<Event>, since: nat)
    requires since <= |runs| && CountActive(runs[since..]) <= 1
    requires cj.forbid && forall i :: 0 <= i < |events| && events[i].Edited? ==> events[i].forbid
    ensures var after := StepAll(c, cj, runs, events).1;
      since <= |after| && CountActive(after[since..]) <= 1
    decreases |events|
  {
    if events != [] {
      var (cj', runs') := Step(c, cj, runs, events[0]);
      if runs' != runs {
        if events[0].Tick? {
          assert !HasActive(runs[since..]) by {
            assert !HasActive(runs);
            assert forall i :: 0 <= i < |runs[since..]| ==> runs[since..][i] == runs[since + i];
          }
          CountNone(runs[since..]);
          assert runs'[since..] == runs[since..] + [runs'[|runs|]];
          CountSnoc(runs[since..], runs'[|runs|]);
        } else {
          var i := events[0].run;
          if i >= since {
            assert runs'[since..] == runs[since..][i - since := runs[since..][i - since].(preCompletion := false)];
            CountFinish(runs[since..], i - since);
          } else {
            assert runs'[since..] == runs[since..];
          }
        }
      }
      ForbidAtMostOne(c, cj', runs', events[1..], since);
    }
  }

  // Suspension.

  /** While a CronJob stays suspended, no run of it is created. */
  lemma {:induction false} SuspendedCreatesNone(c: Crate, cj: CronJobRow, runs: seq<JobRow>, events: seq<Event>)
    requires cj.suspend && forall i :: 0 <= i < |events| && events[i].Edited? ==> events[i].suspend
    ensures |StepAll(c, cj, runs, events).1| == |runs|
    decreases |events|
  {
    if events != [] {
      var (cj', runs') := Step(c, cj, runs, events[0]);
      SuspendedCreatesNone(c, cj', runs', events[1..]);
    }
  }
}
