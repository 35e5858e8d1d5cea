/** The budget guard on the database rows it reads and rewrites (src/pricing/mod.rs). */
module BudgetStore {
  import opened Wrappers
  import opened Numbers
  import opened Jobs
  import opened Currency
  import opened Budget

  /** The settings a caller sees. */
  datatype BudgetSettings = BudgetSettings(mainCurrency: string, dailyRate: real, rolloverCapDays: nat)

  function SettingsOf(row: BudgetRow): BudgetSettings {
    BudgetSettings(row.mainCurrency, row.dailyRate, row.rolloverCapDays)
  }

  /** The claim one job holds on the balance. */
  function Claim(job: JobRow): real {
    if job.preCompletion && job.estimatedCost.Some? then job.estimatedCost.value else 0.0
  }

  /** `committed_budget`. */
  function Committed(jobs: seq<JobRow>): real {
    if jobs == [] then 0.0 else Claim(jobs[0]) + Committed(jobs[1..])
  }

  class BudgetStore {
    var row: Option<BudgetRow>
    var jobs: seq<JobRow>

    /** Seeds the row on a first boot only. */
    method EnsureSeeded(seed: BudgetSettings, now: int)
      modifies `row
      ensures row == if old(row).Some? then old(row)
                     else Some(BudgetRow(0.0, now, seed.mainCurrency, seed.dailyRate, seed.rolloverCapDays))
    {
      if row.None? {
        row := Some(BudgetRow(0.0, now, seed.mainCurrency, seed.dailyRate, seed.rolloverCapDays));
      }
    }

    method SettleAccrual(now: int) returns (r: Option<(real, BudgetSettings)>)
      modifies `row
      ensures old(row).None? ==> row.None? && r.None?
      ensures old(row).Some? ==>
        row == Some(Settle(old(row).value, now)) && r == Some((row.value.balance, SettingsOf(row.value)))
    {
      if row.None? {
        return None;
      }
      var stored := row.value;
      if stored.dailyRate <= 0.0 {
        // Nothing accrues, but the clock moves on, so this time is never credited later.
        row := Some(stored.(lastAccrualAt := now));
        return Some((stored.balance, SettingsOf(stored)));
      }
      var elapsed := now - stored.lastAccrualAt;
      var elapsedDays := (if elapsed < 0 then 0 else elapsed) as real / SECONDS_PER_DAY;
      var cap := stored.dailyRate * stored.rolloverCapDays as real;
      var roomLeftBelowCap := MaxReal(cap - stored.balance, 0.0);
      var accrued := MinReal(stored.dailyRate * elapsedDays, roomLeftBelowCap);
      assert Accrued(stored, now) == accrued by {
        assert Earned(stored.dailyRate, elapsed) == stored.dailyRate * elapsedDays;
      }
      var newBalance := stored.balance + accrued;
      row := Some(stored.(balance := newBalance, lastAccrualAt := now));
      r := Some((newBalance, SettingsOf(stored)));
    }

    method ApplyTopup(amount: real, now: int) returns (r: Result<(real, real), BudgetError>)
      modifies `row
      ensures old(row).None? ==> row.None? && r == Err(NotSeeded)
      ensures old(row).Some? ==> row == Some(TopUp(old(row).value, now, amount))
      ensures old(row).Some? ==> r == Ok((row.value.balance, AppliedDelta(old(row).value, now, amount)))
    {
      var settled := SettleAccrual(now);
      if settled.None? {
        return Err(NotSeeded);
      }
      var balance := settled.value.0;
      var newBalance := if balance + amount < 0.0 then 0.0 else balance + amount;
      row := Some(row.value.(balance := newBalance));
      r := Ok((newBalance, newBalance - balance));
    }

    /** On a missing exchange rate only the settling has happened. */
    method PatchSettings(rates: Rates, patch: SettingsPatch, now: int) returns (r: Result<BudgetRow, BudgetError>)
      requires Positive(rates)
      modifies `row
      ensures old(row).None? ==> row.None? && r == Err(NotSeeded)
      ensures old(row).Some? ==> r == Patch(rates, old(row).value, now, patch)
      ensures old(row).Some? ==> row == Some(if r.Ok? then r.value else Settle(old(row).value, now))
    {
      var settled := SettleAccrual(now);
      if settled.None? {
        return Err(NotSeeded);
      }
      var (balance, settings) := settled.value;
      if patch.mainCurrency.Some? && patch.mainCurrency.value != settings.mainCurrency {
        var target := patch.mainCurrency.value;
        var convertedBalance := Convert(rates, balance, settings.mainCurrency, target);
        if convertedBalance.None? {
          return Err(CurrencyConversionUnavailable(settings.mainCurrency, target));
        }
        if patch.dailyRate.None? {
          var convertedRate := Convert(rates, settings.dailyRate, settings.mainCurrency, target);
          if convertedRate.None? {
            return Err(CurrencyConversionUnavailable(settings.mainCurrency, target));
          }
          settings := settings.(dailyRate := convertedRate.value);
        }
        balance := convertedBalance.value;
        settings := settings.(mainCurrency := target);
      }
      if patch.dailyRate.Some? {
        settings := settings.(dailyRate := patch.dailyRate.value);
      }
      if patch.rolloverCapDays.Some? {
        settings := settings.(rolloverCapDays := patch.rolloverCapDays.value);
      }
      row := Some(BudgetRow(balance, row.value.lastAccrualAt, settings.mainCurrency, settings.dailyRate, settings.rolloverCapDays));
      r := Ok(row.value);
    }

    /** `None` while budgeting is disabled. */
    method AvailableBudget(now: int) returns (available: Option<real>)
      modifies `row
      ensures row == if old(row).Some? then Some(Settle(old(row).value, now)) else None
      ensures available ==
        if row.Some? && row.value.Enabled() then Some(row.value.balance - Committed(jobs)) else None
    {
      var settled := SettleAccrual(now);
      if settled.None? || settled.value.1.dailyRate <= 0.0 {
        return None;
      }
      available := Some(settled.value.0 - Committed(jobs));
    }

    /** Whether a job estimated at `cost` may be admitted: not only if both cost and budget are known and it is too dear. */
    method CheckBudget(cost: Option<real>, now: int) returns (sufficient: bool)
      modifies `row
      ensures row == if old(row).Some? then Some(Settle(old(row).value, now)) else None
      ensures sufficient == Sufficient(row, jobs, cost)
    {
      var available := AvailableBudget(now);
      sufficient := available.None? || cost.None? || available.value >= cost.value;
    }

    /** The check and the insert behind it, as one step. */
    method Admit(job: JobRow, now: int) returns (admitted: bool)
      modifies this
      ensures (row, jobs) == Step(old(row), old(jobs), AdmitJob(now, job))
      ensures jobs == if admitted then old(jobs) + [job] else old(jobs)
    {
      admitted := CheckBudget(job.estimatedCost, now);
      if admitted {
        jobs := jobs + [job];
      }
    }

    /** The insert without a check, of a job that cannot be estimated for want of a deadline. */
    method Insert(job: JobRow)
      modifies `jobs
      ensures jobs == old(jobs) + [job]
    {
      jobs := jobs + [job];
    }

    /** A job leaves the states before completion, and its claim is gone. */
    method Complete(i: nat)
      requires i < |jobs|
      modifies `jobs
      ensures (row, jobs) == Step(row, old(jobs), CompleteJob(i))
    {
      jobs := jobs[i := jobs[i].(preCompletion := false)];
    }
  }

  function Settled(row: Option<BudgetRow>, at: int): Option<BudgetRow> {
    if row.Some? then Some(Settle(row.value, at)) else None
  }

  predicate Sufficient(row: Option<BudgetRow>, jobs: seq<JobRow>, cost: Option<real>) {
    row.Some? && row.value.Enabled() && cost.Some? ==> row.value.balance - Committed(jobs) >= cost.value
  }

  // Committed spend stays covered.

  datatype Event =
    | SettleAt(at: int)
    | TopUpAt(at: int, amount: real)
    | AdmitJob(at: int, job: JobRow)
    | CompleteJob(i: nat)

  function Step(row: Option<BudgetRow>, jobs: seq<JobRow>, e: Event): (Option<BudgetRow>, seq<JobRow>) {
    match e
    case SettleAt(at) => (Settled(row, at), jobs)
    case TopUpAt(at, amount) => (if row.Some? then Some(TopUp(row.value, at, amount)) else None, jobs)
    case AdmitJob(at, job) =>
      (Settled(row, at), if Sufficient(Settled(row, at), jobs, job.estimatedCost) then jobs + [job] else jobs)
    case CompleteJob(i) => (row, if i < |jobs| then jobs[i := jobs[i].(preCompletion := false)] else jobs)
  }

  function StepAll(row: Option<BudgetRow>, jobs: seq<JobRow>, events: seq<Event>): (Option<BudgetRow>, seq<JobRow>)
    decreases |events|
  {
    if events == [] then (row, jobs)
    else
      var (next, left) := Step(row, jobs, events[0]);
      StepAll(next, left, events[1..])
  }

  /** Estimates and top-ups are never negative. */
  ghost predicate Sensible(e: Event) {
    (e.TopUpAt? ==> e.amount >= 0.0) && (e.AdmitJob? ==> Claim(e.job) >= 0.0)
  }

  /** With budgeting enabled, the claims of all jobs before completion fit the balance. */
  ghost predicate Covered(row: Option<BudgetRow>, jobs: seq<JobRow>) {
    && row.Some? && row.value.Enabled()
    && Committed(jobs) <= row.value.balance
    && forall i :: 0 <= i < |jobs| ==> Claim(jobs[i]) >= 0.0
  }

  lemma {:induction false} CommittedSnoc(jobs: seq<JobRow>, job: JobRow)
    ensures Committed(jobs + [job]) == Committed(jobs) + Claim(job)
  {
    if jobs == [] {
      assert [job][1..] == [];
    } else {
      assert (jobs + [job])[1..] == jobs[1..] + [job];
      CommittedSnoc(jobs[1..], job);
    }
  }

  /** A job counts with its estimate, if it has one, as long as it is before completion. */
  lemma CommittedExactly(jobs: seq<JobRow>, job: JobRow)
    ensures Committed([]) == 0.0
    ensures Committed(jobs + [job]) == Committed(jobs) +
      match job.estimatedCost case Some(cost) => (if job.preCompletion then cost else 0.0) case None => 0.0
  {
    CommittedSnoc(jobs, job);
  }

  lemma {:induction false} CommittedUpdate(jobs: seq<JobRow>, i: nat, job: JobRow)
    requires i < |jobs|
    ensures Committed(jobs[i := job]) == Committed(jobs) - Claim(jobs[i]) + Claim(job)
  {
    if i > 0 {
      assert jobs[i := job][1..] == jobs[1..][i - 1 := job];
      CommittedUpdate(jobs[1..], i - 1, job);
    }
  }

  lemma StepKeepsCovered(row: Option<BudgetRow>, jobs: seq<JobRow>, e: Event)
    requires Covered(row, jobs) && Sensible(e)
    ensures Covered(Step(row, jobs, e).0, Step(row, jobs, e).1)
  {
    match e
    case SettleAt(at) => SettleBounds(row.value, at);
    case TopUpAt(at, amount) => SettleBounds(row.value, at);
    case AdmitJob(at, job) =>
      SettleBounds(row.value, at);
      CommittedSnoc(jobs, job);
    case CompleteJob(i) =>
      if i < |jobs| {
        CommittedUpdate(jobs, i, jobs[i].(preCompletion := false));
      }
  }

  /**
   * In every state reached by settles, nonnegative top-ups, admissions and completions, in any order and
   * at any times, the committed spend is covered by the balance.
   */
  lemma {:induction false} CommittedStaysCovered(row: Option<BudgetRow>, jobs: seq<JobRow>, events: seq<Event>)
    requires Covered(row, jobs)
    requires forall i :: 0 <= i < |events| ==> Sensible(events[i])
    ensures Covered(StepAll(row, jobs, events).0, StepAll(row, jobs, events).1)
    decreases |events|
  {
    if events != [] {
      StepKeepsCovered(row, jobs, events[0]);
      var (next, left) := Step(row, jobs, events[0]);
      CommittedStaysCovered(next, left, events[1..]);
    }
  }

  // Nothing is ever charged.

  /** The same events as far as the balance goes: an admission settles it, a completion leaves it alone. */
  function BudgetEvents(events: seq<Event>): seq<Event> {
    if events == [] then []
    else
      (match events[0]
       case AdmitJob(at, _) => [SettleAt(at)]
       case CompleteJob(_) => []
       case _ => [events[0]]) + BudgetEvents(events[1..])
  }

  /**
   * Over every run, admitting and completing jobs never moves the balance: it is what settles and top-ups alone
   * would have made it, whatever jobs there are.
   */
  lemma {:induction false} JobsAreNeverCharged(row: Option<BudgetRow>, jobs: seq<JobRow>, others: seq<JobRow>, events: seq<Event>)
    ensures StepAll(row, jobs, events).0 == StepAll(row, others, BudgetEvents(events)).0
    decreases |events|
  {
    if events != [] {
      var (next, left) := Step(row, jobs, events[0]);
      var rest := BudgetEvents(events[1..]);
      JobsAreNeverCharged(next, left, others, events[1..]);
      if events[0].CompleteJob? {
        assert BudgetEvents(events) == [] + rest == rest;
      } else {
        assert BudgetEvents(events)[1..] == rest;
      }
    }
  }

  /** So a balance is spent twice: two jobs that each cost all of it run one after the other. */
  lemma SpentTwice(balance: real, job: JobRow)
    requires balance > 0.0 && job.preCompletion && job.estimatedCost == Some(balance)
    ensures var row := Some(BudgetRow(balance, 0, "EUR", balance, 1));
      var (after, jobs) := StepAll(row, [], [AdmitJob(0, job), CompleteJob(0), AdmitJob(0, job)]);
      after == row && jobs == [job.(preCompletion := false), job]
  {
    var row := Some(BudgetRow(balance, 0, "EUR", balance, 1));
    var events := [AdmitJob(0, job), CompleteJob(0), AdmitJob(0, job)];
    var done := job.(preCompletion := false);
    SettleBounds(row.value, 0);
    assert Accrued(row.value, 0) == 0.0 by {
      assert Earned(balance, 0) == 0.0;
    }
    assert Settled(row, 0) == row;
    var (none, first, second, both) := ([], [job], [done], [done, job]);
    assert Committed(second) == Claim(done) + Committed(second[1..]) == 0.0;
    assert first == none + [job] && second == first[0 := done] && both == second + [job];
    assert Step(row, none, events[0]) == (row, first);
    assert Step(row, first, events[1]) == (row, second);
    assert Step(row, second, events[2]) == (row, both);
    var (later, last) := (events[1..], [events[2]]);
    assert later[1..] == last && last[1..] == [];
    assert StepAll(row, second, last) == (row, both);
    assert StepAll(row, first, later) == (row, both);
  }
}
