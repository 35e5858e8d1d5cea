/** The rolling budget's ledger (src/pricing/mod.rs). Money is exact; time is whole seconds. */
module Budget {
  import opened Wrappers
  import opened Numbers
  import opened Currency

  const SECONDS_PER_DAY := 86400.0

  /** The single row of `budget_state`. */
  datatype BudgetRow = BudgetRow(
    balance: real,
    lastAccrualAt: int,
    mainCurrency: string,
    dailyRate: real,
    rolloverCapDays: nat)
  {
    function Cap(): real {
      dailyRate * rolloverCapDays as real
    }

    predicate Enabled() {
      dailyRate > 0.0
    }
  }

  datatype SettingsPatch = SettingsPatch(dailyRate: Option<real>, rolloverCapDays: Option<nat>, mainCurrency: Option<string>)

  datatype BudgetError =
    | NotSeeded
    | CurrencyConversionUnavailable(from: string, to: string)

  function Days(seconds: int): real {
    (if seconds < 0 then 0 else seconds) as real / SECONDS_PER_DAY
  }

  /** What a daily rate earns in some time. */
  function Earned(rate: real, seconds: int): real {
    rate * Days(seconds)
  }

  /** The part of `earned` that fits below the cap. */
  function Fits(balance: real, cap: real, earned: real): real {
    MinReal(earned, MaxReal(cap - balance, 0.0))
  }

  /** What settling at `now` credits. */
  function Accrued(row: BudgetRow, now: int): real {
    if !row.Enabled() then 0.0
    else Fits(row.balance, row.Cap(), Earned(row.dailyRate, now - row.lastAccrualAt))
  }

  function Settle(row: BudgetRow, now: int): BudgetRow {
    row.(balance := row.balance + Accrued(row, now), lastAccrualAt := now)
  }

  function TopUp(row: BudgetRow, now: int, amount: real): BudgetRow {
    var settled := Settle(row, now);
    settled.(balance := MaxReal(settled.balance + amount, 0.0))
  }

  /** The part of a top-up that landed. */
  function AppliedDelta(row: BudgetRow, now: int, amount: real): real {
    MaxReal(Settle(row, now).balance + amount, 0.0) - Settle(row, now).balance
  }

  /** The row in another currency; `convertRate` is off when the patch sets the rate itself. */
  function InCurrency(rates: Rates, row: BudgetRow, currency: string, convertRate: bool): Result<BudgetRow, BudgetError>
    requires Positive(rates)
  {
    if currency == row.mainCurrency then Ok(row)
    else
      var balance := Convert(rates, row.balance, row.mainCurrency, currency);
      var rate := if convertRate then Convert(rates, row.dailyRate, row.mainCurrency, currency) else Some(row.dailyRate);
      if balance.None? || rate.None? then Err(CurrencyConversionUnavailable(row.mainCurrency, currency))
      else Ok(row.(balance := balance.value, dailyRate := rate.value, mainCurrency := currency))
  }

  /** The settled row with the patched settings. */
  function Patch(rates: Rates, row: BudgetRow, now: int, patch: SettingsPatch): Result<BudgetRow, BudgetError>
    requires Positive(rates)
  {
    var settled := Settle(row, now);
    var converted :- if patch.mainCurrency.Some?
                     then InCurrency(rates, settled, patch.mainCurrency.value, patch.dailyRate.None?)
                     else Ok(settled);
    Ok(converted.(
       dailyRate := if patch.dailyRate.Some? then patch.dailyRate.value else converted.dailyRate,
       rolloverCapDays := if patch.rolloverCapDays.Some? then patch.rolloverCapDays.value else converted.rolloverCapDays))
  }

  // Settling.

  lemma DaysAdd(a: int, b: int)
    requires a >= 0 && b >= 0
    ensures Days(a + b) == Days(a) + Days(b)
  {
  }

  lemma EarnedAdd(rate: real, a: int, b: int)
    requires a >= 0 && b >= 0
    ensures Earned(rate, a + b) == Earned(rate, a) + Earned(rate, b)
  {
    DaysAdd(a, b);
    assert rate * (Days(a) + Days(b)) == rate * Days(a) + rate * Days(b);
  }

  lemma EarnedMonotone(rate: real, a: int, b: int)
    requires rate > 0.0 && a <= b
    ensures 0.0 <= Earned(rate, a) <= Earned(rate, b)
    ensures a < b && 0 < b ==> Earned(rate, a) < Earned(rate, b)
  {
    var (x, y) := (Days(a), Days(b));
    assert 0.0 <= x <= y;
    assert a < b && 0 < b ==> x < y;
    Scales(rate, x, y);
    Scales(rate, 0.0, x);
  }

  lemma Scales(k: real, x: real, y: real)
    requires k > 0.0
    ensures x <= y <==> k * x <= k * y
    ensures x < y <==> k * x < k * y
  {
    assert k * y - k * x == k * (y - x);
    if x < y {
      assert k * (y - x) > 0.0;
    } else if x > y {
      assert k * (x - y) > 0.0;
      assert k * (x - y) == -(k * (y - x));
    }
  }

  /** A settle credits nothing negative, nothing past the cap, and no more than the time since the last one earned. */
  lemma SettleBounds(row: BudgetRow, now: int)
    ensures row.balance <= Settle(row, now).balance <= MaxReal(row.balance, row.Cap())
    ensures 0.0 <= Accrued(row, now)
    ensures row.Enabled() ==> Accrued(row, now) <= Earned(row.dailyRate, now - row.lastAccrualAt)
    ensures !row.Enabled() ==> Settle(row, now) == row.(lastAccrualAt := now)
  {
    if row.Enabled() {
      EarnedMonotone(row.dailyRate, now - row.lastAccrualAt, now - row.lastAccrualAt);
    }
  }

  /** Enabled and below the cap, the balance grows by the daily rate for the time elapsed, up to the cap; else it stays. */
  lemma SettledExactly(row: BudgetRow, now: int)
    ensures var elapsed := if now < row.lastAccrualAt then 0 else now - row.lastAccrualAt;
      var (grown, cap) := (row.balance + row.dailyRate * (elapsed as real / 86400.0), row.dailyRate * row.rolloverCapDays as real);
      Settle(row, now) == row.(
        lastAccrualAt := now,
        balance := if row.dailyRate <= 0.0 || row.balance >= cap then row.balance else if grown < cap then grown else cap)
  {
    if row.Enabled() {
      EarnedMonotone(row.dailyRate, now - row.lastAccrualAt, now - row.lastAccrualAt);
    }
  }

  /** A top-up adds to the settled balance, and never leaves it below zero. */
  lemma ToppedUpExactly(row: BudgetRow, now: int, amount: real)
    ensures var before := Settle(row, now);
      TopUp(row, now, amount) == before.(balance := if before.balance + amount < 0.0 then 0.0 else before.balance + amount)
    ensures AppliedDelta(row, now, amount) == TopUp(row, now, amount).balance - Settle(row, now).balance
  {
  }

  /**
   * What a change of settings leaves: each setting as given or as it was; balance and, unless it is given, rate in the
   * new currency; refused exactly if an amount has to be converted for which a rate is missing.
   */
  lemma PatchedExactly(rates: Rates, row: BudgetRow, now: int, patch: SettingsPatch)
    requires Positive(rates)
    ensures var before := Settle(row, now);
      var currency := if patch.mainCurrency.Some? then patch.mainCurrency.value else row.mainCurrency;
      var known := currency == row.mainCurrency || (Known(rates, row.mainCurrency) && Known(rates, currency));
      && (Patch(rates, row, now, patch).Ok? <==> known)
      && (known ==>
            var after := Patch(rates, row, now, patch).value;
            && after.balance == before.balance * Factor(rates, row.mainCurrency, currency)
            && after.lastAccrualAt == now
            && after.mainCurrency == currency
            && after.rolloverCapDays == (if patch.rolloverCapDays.Some? then patch.rolloverCapDays.value else row.rolloverCapDays)
            && after.dailyRate == (if patch.dailyRate.Some? then patch.dailyRate.value
                                   else row.dailyRate * Factor(rates, row.mainCurrency, currency)))
  {
    var before := Settle(row, now);
    var currency := if patch.mainCurrency.Some? then patch.mainCurrency.value else row.mainCurrency;
    ConvertScales(rates, before.balance, row.mainCurrency, currency);
    ConvertScales(rates, row.dailyRate, row.mainCurrency, currency);
  }

  /** Whether settling at `first` before `last` loses or grants nothing: decidable before either settle, for any clock. */
  predicate HarmlessStop(row: BudgetRow, first: int, last: int) {
    || row.lastAccrualAt <= first <= last
    || last <= first <= row.lastAccrualAt
    || first == last
    || !row.Enabled()
    || row.balance >= row.Cap()
    || Earned(row.dailyRate, last - row.lastAccrualAt) >= row.Cap() - row.balance
  }

  /** Crediting two amounts up to a cap, one after the other, is crediting their sum up to it. */
  lemma CreditTwice(balance: real, cap: real, x: real, y: real)
    requires x >= 0.0 && y >= 0.0
    ensures Fits(balance, cap, x) + Fits(balance + Fits(balance, cap, x), cap, y) == Fits(balance, cap, x + y)
  {
  }

  /** Two different amounts are credited alike only if the smaller reaches the cap. */
  lemma CreditDiffers(balance: real, cap: real, x: real, y: real)
    requires 0.0 <= x < y
    ensures Fits(balance, cap, x) == Fits(balance, cap, y) <==> balance >= cap || x >= cap - balance
  {
  }

  /** An extra settle makes no difference exactly if the clock kept its direction, or could not matter. */
  lemma SettleTwice(row: BudgetRow, first: int, last: int)
    ensures Settle(Settle(row, first), last) == Settle(row, last) <==> HarmlessStop(row, first, last)
  {
    if row.Enabled() {
      if last < first {
        StopAhead(row, first, last);
      } else if row.lastAccrualAt <= first {
        StopOnTheWay(row, first, last);
      } else {
        StopInThePast(row, first, last);
      }
    }
  }

  /** A clock that jumps ahead and back can matter: two settles then credit more than one would. */
  lemma StopAheadCredits()
    ensures var row := BudgetRow(0.0, 100, "EUR", 86400.0, 1);
      Settle(Settle(row, 200), 150).balance == 100.0 && Settle(row, 150).balance == 50.0
  {
    var row := BudgetRow(0.0, 100, "EUR", 86400.0, 1);
    assert Earned(86400.0, 100) == 100.0 && Earned(86400.0, 50) == 50.0 && Earned(86400.0, -50) == 0.0;
    assert Settle(row, 200) == row.(balance := 100.0, lastAccrualAt := 200);
  }

  lemma StopAhead(row: BudgetRow, first: int, last: int)
    requires row.Enabled() && last < first
    ensures Settle(Settle(row, first), last) == Settle(row, last) <==> HarmlessStop(row, first, last)
  {
    var (rate, cap) := (row.dailyRate, row.Cap());
    var stop := Settle(row, first);
    var (x, y) := (Earned(rate, last - row.lastAccrualAt), Earned(rate, first - row.lastAccrualAt));
    assert Earned(rate, last - first) == 0.0;
    assert Settle(stop, last) == stop.(lastAccrualAt := last);
    EarnedMonotone(rate, last - row.lastAccrualAt, first - row.lastAccrualAt);
    assert stop.balance == row.balance + Fits(row.balance, cap, y);
    assert Settle(row, last).balance == row.balance + Fits(row.balance, cap, x);
    if row.lastAccrualAt < first {
      CreditDiffers(row.balance, cap, x, y);
    }
  }

  lemma StopOnTheWay(row: BudgetRow, first: int, last: int)
    requires row.Enabled() && row.lastAccrualAt <= first <= last
    ensures Settle(Settle(row, first), last) == Settle(row, last)
  {
    var rate, a, b := row.dailyRate, first - row.lastAccrualAt, last - first;
    EarnedAdd(rate, a, b);
    EarnedMonotone(rate, a, a);
    EarnedMonotone(rate, b, b);
    var stop := Settle(row, first);
    var (x, y, cap) := (Earned(rate, a), Earned(rate, b), row.Cap());
    CreditTwice(row.balance, cap, x, y);
    assert stop.balance == row.balance + Fits(row.balance, cap, x);
    assert Settle(stop, last).balance == stop.balance + Fits(stop.balance, cap, y);
    assert a + b == last - row.lastAccrualAt;
    assert Settle(row, last).balance == row.balance + Fits(row.balance, cap, x + y);
  }

  lemma StopInThePast(row: BudgetRow, first: int, last: int)
    requires row.Enabled() && first < row.lastAccrualAt && first <= last
    ensures Settle(Settle(row, first), last) == Settle(row, last) <==> HarmlessStop(row, first, last)
  {
    var (rate, cap) := (row.dailyRate, row.Cap());
    assert Earned(rate, first - row.lastAccrualAt) == 0.0;
    var stop := Settle(row, first);
    assert stop == row.(lastAccrualAt := first);
    var (x, y) := (Earned(rate, last - row.lastAccrualAt), Earned(rate, last - first));
    EarnedMonotone(rate, last - row.lastAccrualAt, last - first);
    assert Settle(stop, last).balance == row.balance + Fits(row.balance, cap, y);
    assert Settle(row, last).balance == row.balance + Fits(row.balance, cap, x);
    if first < last {
      CreditDiffers(row.balance, cap, x, y);
    }
  }

  predicate Nondecreasing(times: seq<int>, start: int) {
    times == [] || (start <= times[0] && Nondecreasing(times[1..], times[0]))
  }

  function SettleAll(row: BudgetRow, times: seq<int>): BudgetRow
    decreases |times|
  {
    if times == [] then row else SettleAll(Settle(row, times[0]), times[1..])
  }

  /** Settling on read is path-independent: however often, the row is the one a single settle at the end gives. */
  lemma {:induction false} SettlePathIndependent(row: BudgetRow, times: seq<int>)
    requires times != [] && Nondecreasing(times, row.lastAccrualAt)
    ensures SettleAll(row, times) == Settle(row, times[|times| - 1])
    decreases |times|
  {
    if |times| > 1 {
      var last := times[|times| - 1];
      SettlePathIndependent(Settle(row, times[0]), times[1..]);
      LaterThan(times[1..], times[0]);
      SettleTwice(row, times[0], last);
    }
  }

  lemma {:induction false} LaterThan(times: seq<int>, start: int)
    requires times != [] && Nondecreasing(times, start)
    ensures start <= times[|times| - 1]
  {
    if |times| > 1 {
      LaterThan(times[1..], times[0]);
    }
  }

  // Whole runs.

  datatype Op =
    | SettleOp(at: int)
    | TopUpOp(at: int, amount: real)
    | PatchOp(at: int, dailyRate: Option<real>, rolloverCapDays: Option<nat>)
  {
    function After(row: BudgetRow): BudgetRow {
      match this
      case SettleOp(at) => Settle(row, at)
      case TopUpOp(at, amount) => TopUp(row, at, amount)
      case PatchOp(at, rate, days) => Patch(map[], row, at, SettingsPatch(rate, days, None)).value
    }

    function Delta(row: BudgetRow): real {
      if TopUpOp? then AppliedDelta(row, at, amount) else 0.0
    }

    function RateAfter(rate: real): real {
      if PatchOp? && dailyRate.Some? then dailyRate.value else rate
    }
  }

  function Run(row: BudgetRow, ops: seq<Op>): BudgetRow
    decreases |ops|
  {
    if ops == [] then row else Run(ops[0].After(row), ops[1..])
  }

  function TotalAccrued(row: BudgetRow, ops: seq<Op>): real
    decreases |ops|
  {
    if ops == [] then 0.0 else Accrued(row, ops[0].at) + TotalAccrued(ops[0].After(row), ops[1..])
  }

  function TotalDelta(row: BudgetRow, ops: seq<Op>): real
    decreases |ops|
  {
    if ops == [] then 0.0 else ops[0].Delta(row) + TotalDelta(ops[0].After(row), ops[1..])
  }

  /** The rate in force times the time it was in force, over the intervals with budgeting enabled only. */
  function Allowance(rate: real, since: int, ops: seq<Op>): real
    decreases |ops|
  {
    if ops == [] then 0.0
    else Earned(MaxReal(rate, 0.0), ops[0].at - since) + Allowance(ops[0].RateAfter(rate), ops[0].at, ops[1..])
  }

  lemma OpMoves(row: BudgetRow, op: Op)
    ensures var next := op.After(row);
      && next.balance == row.balance + op.Delta(row) + Accrued(row, op.at)
      && next.lastAccrualAt == op.at
      && next.dailyRate == op.RateAfter(row.dailyRate)
      && (row.balance >= 0.0 ==> next.balance >= 0.0)
    ensures 0.0 <= Accrued(row, op.at) <= Earned(MaxReal(row.dailyRate, 0.0), op.at - row.lastAccrualAt)
  {
    SettleBounds(row, op.at);
    if !row.Enabled() {
      assert Earned(MaxReal(row.dailyRate, 0.0), op.at - row.lastAccrualAt) == 0.0;
    }
  }

  /**
   * The ledger balances over every run of settles, top-ups and settings changes: the balance moves by
   * exactly the applied deltas and the accrual; accrual never exceeds what the enabled time earned, so
   * disabled time is never credited later; and a balance that starts nonnegative stays so.
   */
  lemma {:induction false} LedgerBalances(row: BudgetRow, ops: seq<Op>)
    ensures Run(row, ops).balance - row.balance == TotalDelta(row, ops) + TotalAccrued(row, ops)
    ensures 0.0 <= TotalAccrued(row, ops) <= Allowance(row.dailyRate, row.lastAccrualAt, ops)
    ensures row.balance >= 0.0 ==> Run(row, ops).balance >= 0.0
    decreases |ops|
  {
    if ops != [] {
      OpMoves(row, ops[0]);
      LedgerBalances(ops[0].After(row), ops[1..]);
    }
  }

  // Changing the currency.

  function Scale(row: BudgetRow, k: real, currency: string): BudgetRow {
    row.(balance := row.balance * k, dailyRate := row.dailyRate * k, mainCurrency := currency)
  }

  lemma AccruedScales(row: BudgetRow, k: real, currency: string, now: int)
    requires k > 0.0
    ensures Accrued(Scale(row, k, currency), now) == Accrued(row, now) * k
    ensures Scale(row, k, currency).Enabled() <==> row.Enabled()
  {
    var scaled := Scale(row, k, currency);
    var seconds := now - row.lastAccrualAt;
    var (earned, cap) := (Earned(row.dailyRate, seconds), row.Cap());
    Scales(k, 0.0, row.dailyRate);
    CapScales(row, k, currency);
    EarnedScales(row.dailyRate, k, seconds);
    FitsScales(row.balance, cap, earned, k);
    assert row.Enabled() ==> Accrued(scaled, now) == Fits(scaled.balance, scaled.Cap(), Earned(scaled.dailyRate, seconds));
  }

  lemma CapScales(row: BudgetRow, k: real, currency: string)
    ensures Scale(row, k, currency).Cap() == row.Cap() * k
  {
    Swap(row.dailyRate, k, row.rolloverCapDays as real);
  }

  lemma EarnedScales(rate: real, k: real, seconds: int)
    ensures Earned(rate * k, seconds) == Earned(rate, seconds) * k
  {
    Swap(rate, k, Days(seconds));
  }

  lemma Swap(x: real, k: real, y: real)
    ensures x * k * y == x * y * k
  {
  }

  lemma FitsScales(balance: real, cap: real, earned: real, k: real)
    requires k > 0.0
    ensures Fits(balance * k, cap * k, earned * k) == Fits(balance, cap, earned) * k
  {
    var room := cap - balance;
    assert cap * k - balance * k == room * k;
    Scales(k, 0.0, room);
    Scales(k, earned, MaxReal(room, 0.0));
  }

  /** Settling and converting commute. */
  lemma SettleScales(row: BudgetRow, k: real, currency: string, now: int)
    requires k > 0.0
    ensures Settle(Scale(row, k, currency), now) == Scale(Settle(row, now), k, currency)
  {
    AccruedScales(row, k, currency, now);
    assert row.balance * k + Accrued(row, now) * k == (row.balance + Accrued(row, now)) * k;
  }

  function CurrencyOnly(currency: string): SettingsPatch {
    SettingsPatch(None, None, Some(currency))
  }

  predicate Convertible(rates: Rates, from: string, to: string) {
    from == to || (Currency.Known(rates, from) && Currency.Known(rates, to))
  }

  lemma InCurrencyScales(rates: Rates, row: BudgetRow, currency: string)
    requires Positive(rates)
    ensures InCurrency(rates, row, currency, true) ==
      if Convertible(rates, row.mainCurrency, currency)
      then Ok(Scale(row, Factor(rates, row.mainCurrency, currency), currency))
      else Err(CurrencyConversionUnavailable(row.mainCurrency, currency))
  {
    if row.mainCurrency == currency {
      ScaleByOne(row);
    } else {
      ConvertScales(rates, row.balance, row.mainCurrency, currency);
      ConvertScales(rates, row.dailyRate, row.mainCurrency, currency);
      if Convertible(rates, row.mainCurrency, currency) {
        var converted := InCurrency(rates, row, currency, true);
        assert converted.value == Scale(row, Factor(rates, row.mainCurrency, currency), currency);
      }
    }
  }

  /** A change of currency alone scales balance and rate by one positive factor, if both rates are known. */
  lemma CurrencyChangeScales(rates: Rates, row: BudgetRow, now: int, currency: string)
    requires Positive(rates)
    ensures Patch(rates, row, now, CurrencyOnly(currency)) ==
      if Convertible(rates, row.mainCurrency, currency)
      then Ok(Scale(Settle(row, now), Factor(rates, row.mainCurrency, currency), currency))
      else Err(CurrencyConversionUnavailable(row.mainCurrency, currency))
  {
    InCurrencyScales(rates, Settle(row, now), currency);
    PatchIsInCurrency(rates, row, now, currency);
  }

  lemma PatchIsInCurrency(rates: Rates, row: BudgetRow, now: int, currency: string)
    requires Positive(rates)
    ensures Patch(rates, row, now, CurrencyOnly(currency)) == InCurrency(rates, Settle(row, now), currency, true)
  {
    var converted := InCurrency(rates, Settle(row, now), currency, true);
    if converted.Ok? {
      var r := converted.value;
      assert r.(dailyRate := r.dailyRate, rolloverCapDays := r.rolloverCapDays) == r;
    }
  }

  lemma ScaleByOne(row: BudgetRow)
    ensures Scale(row, 1.0, row.mainCurrency) == row
  {
  }

  /** The days of headroom survive a change of currency. */
  lemma HeadroomKept(rates: Rates, row: BudgetRow, now: int, currency: string)
    requires Positive(rates) && row.dailyRate != 0.0
    requires Patch(rates, row, now, CurrencyOnly(currency)).Ok?
    ensures var patched := Patch(rates, row, now, CurrencyOnly(currency)).value;
      && patched.dailyRate != 0.0
      && patched.balance / patched.dailyRate == Settle(row, now).balance / row.dailyRate
  {
    CurrencyChangeScales(rates, row, now, currency);
    HeadroomScales(Settle(row, now), Factor(rates, row.mainCurrency, currency), currency);
  }

  lemma HeadroomScales(row: BudgetRow, k: real, currency: string)
    requires row.dailyRate != 0.0 && k > 0.0
    ensures Scale(row, k, currency).dailyRate != 0.0
    ensures Scale(row, k, currency).balance / Scale(row, k, currency).dailyRate == row.balance / row.dailyRate
  {
    RatioScales(row.balance, row.dailyRate, k);
  }

  lemma RatioScales(x: real, y: real, k: real)
    requires y != 0.0 && k > 0.0
    ensures y * k != 0.0 && (x * k) / (y * k) == x / y
  {
    assert y * k != 0.0;
    assert (x / y) * (y * k) == x * k;
  }

  /** Convert then settle is settle then convert: it does not matter when between settles the currency changes. */
  lemma ConvertSettleCommute(rates: Rates, row: BudgetRow, now: int, later: int, currency: string)
    requires Positive(rates) && row.lastAccrualAt <= now <= later
    requires Patch(rates, row, now, CurrencyOnly(currency)).Ok?
    ensures Patch(rates, row, later, CurrencyOnly(currency)) ==
      Ok(Settle(Patch(rates, row, now, CurrencyOnly(currency)).value, later))
  {
    CurrencyChangeScales(rates, row, now, currency);
    CurrencyChangeScales(rates, row, later, currency);
    SettleScales(Settle(row, now), Factor(rates, row.mainCurrency, currency), currency, later);
    SettleTwice(row, now, later);
  }

  /** Through a third currency is as good as directly; with `c` the first currency, both amounts come back. */
  lemma CurrencyChangesCompose(rates: Rates, row: BudgetRow, now: int, b: string, c: string)
    requires Positive(rates)
    requires Patch(rates, row, now, CurrencyOnly(b)).Ok?
    requires Patch(rates, Patch(rates, row, now, CurrencyOnly(b)).value, now, CurrencyOnly(c)).Ok?
    ensures Patch(rates, Patch(rates, row, now, CurrencyOnly(b)).value, now, CurrencyOnly(c))
      == Patch(rates, row, now, CurrencyOnly(c))
    ensures c == row.mainCurrency ==> Patch(rates, row, now, CurrencyOnly(c)) == Ok(Settle(row, now))
  {
    var settled := Settle(row, now);
    CurrencyChangeScales(rates, row, now, b);
    var first := Patch(rates, row, now, CurrencyOnly(b)).value;
    CurrencyChangeScales(rates, first, now, c);
    FactorsCompose(rates, row.mainCurrency, b, c);
    var direct := Factor(rates, row.mainCurrency, c);
    CurrencyChangeScales(rates, row, now, c);
    assert Patch(rates, row, now, CurrencyOnly(c)) == Ok(Scale(settled, direct, c));
    var (j, k) := (Factor(rates, row.mainCurrency, b), Factor(rates, b, c));
    assert first == Scale(settled, j, b);
    SettleScales(settled, j, b, now);
    SettleTwice(row, now, now);
    assert Settle(first, now) == first;
    ScaleTwice(settled, j, b, k, c);
    assert Patch(rates, first, now, CurrencyOnly(c)) == Ok(Scale(Settle(first, now), k, c));
    assert direct == j * k;
    if c == row.mainCurrency {
      ScaleByOne(settled);
    }
  }

  lemma ScaleTwice(row: BudgetRow, j: real, b: string, k: real, c: string)
    ensures Scale(Scale(row, j, b), k, c) == Scale(row, j * k, c)
  {
    assert row.balance * j * k == row.balance * (j * k);
    assert row.dailyRate * j * k == row.dailyRate * (j * k);
  }
}
