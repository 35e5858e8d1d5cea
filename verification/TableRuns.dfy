/** Whole runs of the tables: ticks over every CronJob, everything the budget does, and edits (src/reconcile/schedule.rs, src/pricing/mod.rs). */
module TableRuns {
  import opened Wrappers
  import opened Jobs
  import opened CronSchedule
  import opened Scheduler
  import B = BudgetStore

  datatype State = State(cronjobs: seq<CronJobRow>, tables: Tables)

  datatype Action =
    | TickTables(now: Instant, estimates: seq<Estimate>)
    | BudgetAction(event: B.Event)
    | EditCronJob(k: nat, schedule: string, suspend: bool, startingDeadline: Option<int>, forbid: bool)

  /** A tick estimates a run of each CronJob; jobs that are admitted outside ticks are nobody's runs. */
  ghost predicate Fits(n: nat, a: Action) {
    && (a.TickTables? ==> |a.estimates| == n)
    && (a.BudgetAction? && a.event.AdmitJob? ==> a.event.job.owner == None)
  }

  ghost predicate AllFit(n: nat, actions: seq<Action>) {
    forall i :: 0 <= i < |actions| ==> Fits(n, actions[i])
  }

  function Edit(cj: CronJobRow, a: Action): CronJobRow
    requires a.EditCronJob?
  {
    cj.(schedule := a.schedule, suspend := a.suspend, startingDeadline := a.startingDeadline, forbid := a.forbid)
  }

  ghost function Act(c: Crate, s: State, a: Action): State
    requires Fits(|s.cronjobs|, a)
  {
    match a
    case TickTables(now, estimates) => s.(tables := TickAll(c, s.cronjobs, estimates, s.tables, now))
    case BudgetAction(event) =>
      var (budget, jobs) := B.Step(s.tables.budget, s.tables.jobs, event);
      s.(tables := Tables(budget, jobs))
    case EditCronJob(k, _, _, _, _) =>
      if k < |s.cronjobs| then s.(cronjobs := s.cronjobs[k := Edit(s.cronjobs[k], a)]) else s
  }

  ghost function ActAll(c: Crate, s: State, actions: seq<Action>): (r: State)
    requires AllFit(|s.cronjobs|, actions)
    ensures |r.cronjobs| == |s.cronjobs|
    decreases |actions|
  {
    if actions == [] then s else ActAll(c, Act(c, s, actions[0]), actions[1..])
  }

  // What one CronJob sees of it.

  function Seen(s: State, k: nat): seq<JobRow>
    requires k < |s.cronjobs|
  {
    RunsOf(s.tables.jobs, s.cronjobs[k].key)
  }

  /** The action as CronJob `k` sees it. */
  ghost function OwnEvent(c: Crate, s: State, a: Action, k: nat): seq<Event>
    requires Fits(|s.cronjobs|, a) && k < |s.cronjobs|
  {
    match a
    case TickTables(now, estimates) =>
      [Tick(now, Affordable(Turn(c, s.cronjobs, estimates, s.tables, now, k), estimates[k]), estimates[k].Known())]
    case BudgetAction(event) =>
      if event.CompleteJob? && event.i < |s.tables.jobs| && s.tables.jobs[event.i].owner == Some(s.cronjobs[k].key)
      then [Finished(|RunsOf(s.tables.jobs[..event.i], s.cronjobs[k].key)|)]
      else []
    case EditCronJob(j, schedule, suspend, deadline, forbid) =>
      if j == k then [Edited(schedule, suspend, deadline, forbid)] else []
  }

  ghost function OwnEvents(c: Crate, s: State, actions: seq<Action>, k: nat): seq<Event>
    requires AllFit(|s.cronjobs|, actions) && k < |s.cronjobs|
    decreases |actions|
  {
    if actions == [] then [] else OwnEvent(c, s, actions[0], k) + OwnEvents(c, Act(c, s, actions[0]), actions[1..], k)
  }

  lemma StepOne(c: Crate, cj: CronJobRow, runs: seq<JobRow>, e: Event)
    ensures StepAll(c, cj, runs, [e]) == Step(c, cj, runs, e)
  {
    assert [e][1..] == [];
  }

  lemma {:induction false} StepAppend(c: Crate, cj: CronJobRow, runs: seq<JobRow>, a: seq<Event>, b: seq<Event>)
    ensures StepAll(c, cj, runs, a + b) == (var (cj', runs') := StepAll(c, cj, runs, a); StepAll(c, cj', runs', b))
    decreases |a|
  {
    if a == [] {
      assert a + b == b;
    } else {
      assert (a + b)[1..] == a[1..] + b;
      var (cj', runs') := Step(c, cj, runs, a[0]);
      StepAppend(c, cj', runs', a[1..], b);
    }
  }

  lemma RunsOfFirst(jobs: seq<JobRow>, key: JobKey)
    requires jobs != []
    ensures RunsOf(jobs, key) == (if jobs[0].owner == Some(key) then [jobs[0]] else []) + RunsOf(jobs[1..], key)
  {
  }

  lemma Later<T>(first: seq<T>, rest: seq<T>, n: nat, x: T)
    requires n < |rest|
    ensures (first + rest)[|first| + n] == rest[n] && (first + rest)[|first| + n := x] == first + rest[n := x]
  {
  }

  /** A completion reaches the runs of the job's own CronJob, and no others. */
  lemma {:induction false} RunsOfCompleted(jobs: seq<JobRow>, i: nat, key: JobKey)
    requires i < |jobs|
    ensures var done := jobs[i].(preCompletion := false);
      var (runs, n) := (RunsOf(jobs, key), |RunsOf(jobs[..i], key)|);
      if jobs[i].owner == Some(key) then
        n < |runs| && runs[n] == jobs[i] && RunsOf(jobs[i := done], key) == runs[n := done]
      else RunsOf(jobs[i := done], key) == runs
  {
    var done := jobs[i].(preCompletion := false);
    var first := if jobs[0].owner == Some(key) then [jobs[0]] else [];
    RunsOfFirst(jobs, key);
    RunsOfFirst(jobs[i := done], key);
    if i == 0 {
      assert jobs[0 := done][1..] == jobs[1..];
    } else {
      RunsOfCompleted(jobs[1..], i - 1, key);
      RunsOfFirst(jobs[..i], key);
      assert jobs[..i][1..] == jobs[1..][..i - 1] && jobs[i := done][1..] == jobs[1..][i - 1 := done];
      if jobs[i].owner == Some(key) {
        Later(first, RunsOf(jobs[1..], key), |RunsOf(jobs[1..][..i - 1], key)|, done);
      }
    }
  }

  lemma SeenAfter(c: Crate, s: State, a: Action, k: nat)
    requires Fits(|s.cronjobs|, a) && k < |s.cronjobs| && DistinctKeys(s.cronjobs)
    ensures var next := Act(c, s, a);
      && DistinctKeys(next.cronjobs) && next.cronjobs[k].key == s.cronjobs[k].key
      && StepAll(c, s.cronjobs[k], Seen(s, k), OwnEvent(c, s, a, k)) == (next.cronjobs[k], Seen(next, k))
  {
    var own := OwnEvent(c, s, a, k);
    var key := s.cronjobs[k].key;
    if own != [] {
      StepOne(c, s.cronjobs[k], Seen(s, k), own[0]);
    }
    match a
    case TickTables(now, estimates) => TickSeenFrom(c, s.cronjobs, estimates, s.tables, now, k);
    case BudgetAction(event) =>
      if event.CompleteJob? && event.i < |s.tables.jobs| {
        RunsOfCompleted(s.tables.jobs, event.i, key);
      } else if event.AdmitJob? {
        RunsOfSnoc(s.tables.jobs, event.job, key);
      }
    case EditCronJob(_, _, _, _, _) =>
  }

  /**
   * Whatever happens to the tables, one CronJob and its runs go through a history of their own: so what holds of
   * every history of one CronJob holds of each CronJob over every run of the tables.
   */
  lemma {:induction false} TablesSeenFrom(c: Crate, s: State, actions: seq<Action>, k: nat)
    requires AllFit(|s.cronjobs|, actions) && k < |s.cronjobs| && DistinctKeys(s.cronjobs)
    ensures var after := ActAll(c, s, actions);
      StepAll(c, s.cronjobs[k], Seen(s, k), OwnEvents(c, s, actions, k)) == (after.cronjobs[k], Seen(after, k))
    decreases |actions|
  {
    if actions != [] {
      var next := Act(c, s, actions[0]);
      SeenAfter(c, s, actions[0], k);
      TablesSeenFrom(c, next, actions[1..], k);
      StepAppend(c, s.cronjobs[k], Seen(s, k), OwnEvent(c, s, actions[0], k), OwnEvents(c, next, actions[1..], k));
    }
  }

  /** Over every run of the tables, every run of every CronJob created in it uses up an instant of its own. */
  lemma EveryRunItsInstant(c: Crate, s: State, actions: seq<Action>, k: nat)
    requires c.Valid() && AllFit(|s.cronjobs|, actions) && k < |s.cronjobs| && DistinctKeys(s.cronjobs)
    ensures OwnInstants(c, Seen(ActAll(c, s, actions), k), |Seen(s, k)|, s.cronjobs[k].createdAt)
  {
    TablesSeenFrom(c, s, actions, k);
    EachRunItsInstant(c, s.cronjobs[k], Seen(s, k), |Seen(s, k)|, OwnEvents(c, s, actions, k));
  }

  /** No edit takes `Forbid` back from CronJob `k`. */
  predicate ForbidStays(actions: seq<Action>, k: nat) {
    forall i :: 0 <= i < |actions| && actions[i].EditCronJob? && actions[i].k == k ==> actions[i].forbid
  }

  lemma {:induction false} OwnForbid(c: Crate, s: State, actions: seq<Action>, k: nat)
    requires AllFit(|s.cronjobs|, actions) && k < |s.cronjobs| && ForbidStays(actions, k)
    ensures forall e <- OwnEvents(c, s, actions, k) :: e.Edited? ==> e.forbid
    decreases |actions|
  {
    if actions != [] {
      OwnForbid(c, Act(c, s, actions[0]), actions[1..], k);
    }
  }

  /** Over every run of the tables during which a CronJob forbids it, no two runs created in it are active at once. */
  lemma NeverTwoActive(c: Crate, s: State, actions: seq<Action>, k: nat)
    requires AllFit(|s.cronjobs|, actions) && k < |s.cronjobs| && DistinctKeys(s.cronjobs)
    requires s.cronjobs[k].forbid && ForbidStays(actions, k)
    ensures |Seen(s, k)| <= |Seen(ActAll(c, s, actions), k)|
    ensures CountActive(Seen(ActAll(c, s, actions), k)[|Seen(s, k)|..]) <= 1
  {
    TablesSeenFrom(c, s, actions, k);
    OwnForbid(c, s, actions, k);
    assert Seen(s, k)[|Seen(s, k)|..] == [];
    ForbidAtMostOne(c, s.cronjobs[k], Seen(s, k), OwnEvents(c, s, actions, k), |Seen(s, k)|);
  }

  /** No edit resumes CronJob `k`. */
  predicate StaysSuspended(actions: seq<Action>, k: nat) {
    forall i :: 0 <= i < |actions| && actions[i].EditCronJob? && actions[i].k == k ==> actions[i].suspend
  }

  lemma {:induction false} OwnSuspended(c: Crate, s: State, actions: seq<Action>, k: nat)
    requires AllFit(|s.cronjobs|, actions) && k < |s.cronjobs| && StaysSuspended(actions, k)
    ensures forall e <- OwnEvents(c, s, actions, k) :: e.Edited? ==> e.suspend
    decreases |actions|
  {
    if actions != [] {
      OwnSuspended(c, Act(c, s, actions[0]), actions[1..], k);
    }
  }

  /** Over every run of the tables during which a CronJob stays suspended, no run of it is created. */
  lemma SuspendedNeverRuns(c: Crate, s: State, actions: seq<Action>, k: nat)
    requires AllFit(|s.cronjobs|, actions) && k < |s.cronjobs| && DistinctKeys(s.cronjobs)
    requires s.cronjobs[k].suspend && StaysSuspended(actions, k)
    ensures |Seen(ActAll(c, s, actions), k)| == |Seen(s, k)|
  {
    TablesSeenFrom(c, s, actions, k);
    OwnSuspended(c, s, actions, k);
    SuspendedCreatesNone(c, s.cronjobs[k], Seen(s, k), OwnEvents(c, s, actions, k));
  }

  /** What a tick of the tables does for one CronJob, and when. */
  lemma TickRunsExactly(c: Crate, s: State, now: Instant, estimates: seq<Estimate>, k: nat)
    requires c.Valid() && |estimates| == |s.cronjobs| && k < |s.cronjobs| && DistinctKeys(s.cronjobs)
    ensures var (cj, runs) := (s.cronjobs[k], Seen(s, k));
      var turn := Turn(c, s.cronjobs, estimates, s.tables, now, k);
      Seen(Act(c, s, TickTables(now, estimates)), k) ==
      if && !cj.suspend && Affordable(turn, estimates[k])
         && (cj.forbid ==> forall i :: 0 <= i < |runs| ==> !runs[i].preCompletion)
         && Trim(cj.schedule) != "" && (forall i :: 0 <= i < |Parts(cj.schedule)| ==> c.accepts(Parts(cj.schedule)[i]))
         && exists t :: Missed(c, cj, runs, t, now)
      then runs + [JobRow(Some(cj.key), cj.schedule, now, true, estimates[k].Known())]
      else runs
  {
    TickSeenFrom(c, s.cronjobs, estimates, s.tables, now, k);
    CreatedExactly(c, s.cronjobs[k], Seen(s, k), now,
                   Affordable(Turn(c, s.cronjobs, estimates, s.tables, now, k), estimates[k]), estimates[k].Known());
  }

  /** Estimates and top-ups are never negative. */
  ghost predicate Sensible(a: Action) {
    && (a.BudgetAction? ==> B.Sensible(a.event))
    && (a.TickTables? ==> forall i :: 0 <= i < |a.estimates| && a.estimates[i].Known().Some? ==> a.estimates[i].cost.value >= 0.0)
  }

  /** And over every run of the tables committed spend stays covered by the balance. */
  lemma {:induction false} TablesStayCovered(c: Crate, s: State, actions: seq<Action>)
    requires AllFit(|s.cronjobs|, actions) && B.Covered(s.tables.budget, s.tables.jobs)
    requires forall i :: 0 <= i < |actions| ==> Sensible(actions[i])
    ensures var after := ActAll(c, s, actions).tables;
      B.Covered(after.budget, after.jobs)
    decreases |actions|
  {
    if actions != [] {
      match actions[0] {
        case TickTables(now, estimates) => TickKeepsCovered(c, s.cronjobs, estimates, s.tables, now);
        case BudgetAction(event) => B.StepKeepsCovered(s.tables.budget, s.tables.jobs, event);
        case EditCronJob(_, _, _, _, _) =>
      }
      TablesStayCovered(c, Act(c, s, actions[0]), actions[1..]);
    }
  }
}
