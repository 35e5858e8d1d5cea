/** Choosing the cheapest fitting server plan, and billing a job for it (src/workload.rs, src/pricing/mod.rs). */
module Plans {
  import opened Wrappers
  import opened Currency
  import opened Seqs

  const WORKER_BOOT_DISK_GB := 10

  datatype ServerPlan = ServerPlan(name: string, cpuCores: nat, memoryMb: nat, storageGb: nat)

  /** A cached price: `price` cents an hour buy `amount` units. */
  datatype Price = Price(amount: real, price: real) {
    function PerUnit(): real
      requires amount > 0.0
    {
      price / amount
    }
  }

  /** The cached prices of one zone. */
  type Prices = map<string, Price>

  const BOOT_DISK_KEY := "storage_standard"
  const IPV4_KEY := "ipv4_address"

  function PlanKey(name: string): string {
    "server_plan_" + name
  }

  ghost predicate Sellable(prices: Prices) {
    forall key <- prices :: prices[key].amount > 0.0 && prices[key].price >= 0.0
  }

  predicate Bundles(storageGb: nat) {
    storageGb >= WORKER_BOOT_DISK_GB
  }

  // Ranking.

  /** The cores and GB to ask for: one of each where the job says nothing, and no fraction cut off. */
  function WholeUnits(cpuMillicores: Option<nat>, memoryMb: Option<nat>): (nat, nat) {
    var cpu := if cpuMillicores.Some? then cpuMillicores.value else 1000;
    var memory := if memoryMb.Some? then memoryMb.value else 1024;
    ((cpu + 999) / 1000, (memory + 1023) / 1024)
  }

  predicate Fits(plan: ServerPlan, cpuCores: nat, memoryGb: nat) {
    plan.cpuCores >= cpuCores && plan.memoryMb >= memoryGb * 1024
  }

  function PerUnitOrZero(prices: Prices, key: string): real
    requires Sellable(prices)
  {
    if key in prices then prices[key].PerUnit() else 0.0
  }

  predicate Priced(prices: Prices, plan: ServerPlan) {
    PlanKey(plan.name) in prices
  }

  /** The cents an hour a priced plan is ranked by, unbundled boot disk and address included. */
  function RankCost(prices: Prices, plan: ServerPlan): real
    requires Sellable(prices) && Priced(prices, plan)
  {
    prices[PlanKey(plan.name)].PerUnit()
      + if plan.storageGb < WORKER_BOOT_DISK_GB
        then PerUnitOrZero(prices, BOOT_DISK_KEY) * WORKER_BOOT_DISK_GB as real + PerUnitOrZero(prices, IPV4_KEY)
        else 0.0
  }

  predicate TextLe(a: string, b: string) {
    a == "" || (b != "" && (a[0] < b[0] || (a[0] == b[0] && TextLe(a[1..], b[1..]))))
  }

  /** The plan query's ORDER BY: priced plans first, by cost, then by size, then by name. */
  predicate RankLe(prices: Prices, a: ServerPlan, b: ServerPlan)
    requires Sellable(prices)
  {
    if Priced(prices, a) != Priced(prices, b) then Priced(prices, a)
    else if Priced(prices, a) && RankCost(prices, a) != RankCost(prices, b) then RankCost(prices, a) < RankCost(prices, b)
    else if a.cpuCores != b.cpuCores then a.cpuCores < b.cpuCores
    else if a.memoryMb != b.memoryMb then a.memoryMb < b.memoryMb
    else TextLe(a.name, b.name)
  }

  /** The first of the fitting plans in rank order. */
  function CheapestFitting(prices: Prices, plans: seq<ServerPlan>, cpuCores: nat, memoryGb: nat): Option<ServerPlan>
    requires Sellable(prices)
  {
    if plans == [] then None
    else
      var rest := CheapestFitting(prices, plans[1..], cpuCores, memoryGb);
      if !Fits(plans[0], cpuCores, memoryGb) then rest
      else if rest.None? || RankLe(prices, plans[0], rest.value) then Some(plans[0])
      else rest
  }

  function PlanForRequests(prices: Prices, plans: seq<ServerPlan>, cpuMillicores: Option<nat>, memoryMb: Option<nat>)
    : Option<ServerPlan>
    requires Sellable(prices)
  {
    var (cpuCores, memoryGb) := WholeUnits(cpuMillicores, memoryMb);
    CheapestFitting(prices, plans, cpuCores, memoryGb)
  }

  lemma {:induction false} TextOrder(a: string, b: string, c: string)
    ensures TextLe(a, b) || TextLe(b, a)
    ensures TextLe(a, b) && TextLe(b, c) ==> TextLe(a, c)
  {
    if a != "" && b != "" {
      TextOrder(a[1..], b[1..], if c == "" then "" else c[1..]);
    }
  }

  lemma RankOrder(prices: Prices, a: ServerPlan, b: ServerPlan, c: ServerPlan)
    requires Sellable(prices)
    ensures RankLe(prices, a, b) || RankLe(prices, b, a)
    ensures RankLe(prices, a, b) && RankLe(prices, b, c) ==> RankLe(prices, a, c)
  {
    TextOrder(a.name, b.name, c.name);
  }

  /** The query returns a fitting plan ranked no lower than any other fitting plan, and nothing only if none fits. */
  lemma {:induction false} CheapestIsLeast(prices: Prices, plans: seq<ServerPlan>, cpuCores: nat, memoryGb: nat)
    requires Sellable(prices)
    ensures var best := CheapestFitting(prices, plans, cpuCores, memoryGb);
      && (best.None? <==> forall q <- plans :: !Fits(q, cpuCores, memoryGb))
      && (best.Some? ==>
            && best.value in plans
            && Fits(best.value, cpuCores, memoryGb)
            && forall q <- plans :: Fits(q, cpuCores, memoryGb) ==> RankLe(prices, best.value, q))
  {
    if plans != [] {
      CheapestIsLeast(prices, plans[1..], cpuCores, memoryGb);
      var best := CheapestFitting(prices, plans, cpuCores, memoryGb);
      var rest := CheapestFitting(prices, plans[1..], cpuCores, memoryGb);
      forall q | q in plans && Fits(q, cpuCores, memoryGb)
        ensures best.Some? && RankLe(prices, best.value, q)
      {
        assert q == plans[0] || q in plans[1..];
        RankOrder(prices, plans[0], if rest.Some? then rest.value else q, q);
        RankOrder(prices, q, q, q);
      }
      assert plans[0] in plans;
    }
  }

  // Billing.

  datatype Charge = Charge(skuPriceId: string, quantity: real, unitPrice: real, total: real)

  /** A job's ephemeral volume: its size and the price key of its tier. */
  datatype Volume = Volume(sizeGb: nat, priceKey: string)

  function ChargeFor(key: string, unitPrice: real, hours: real): Charge {
    Charge(key, hours, unitPrice, unitPrice * hours)
  }

  /** What an hour of one item costs in whole currency units; storage is priced per GB. */
  function UnitPrice(price: Price, gb: Option<nat>): real
    requires price.amount > 0.0
  {
    if gb.None? then price.PerUnit() / 100.0 else price.PerUnit() / 100.0 * gb.value as real
  }

  /** One charge for what `key` prices, if a price is cached. */
  function ChargeIfPriced(prices: Prices, key: string, gb: Option<nat>, hours: real): seq<Charge>
    requires Sellable(prices)
  {
    if key in prices then [ChargeFor(key, UnitPrice(prices[key], gb), hours)] else []
  }

  /** The boot disk and the address, for plans that do not bundle them. */
  function Extras(prices: Prices, planStorageGb: nat, hours: real): seq<Charge>
    requires Sellable(prices)
  {
    if Bundles(planStorageGb) then []
    else ChargeIfPriced(prices, BOOT_DISK_KEY, Some(WORKER_BOOT_DISK_GB), hours) + ChargeIfPriced(prices, IPV4_KEY, None, hours)
  }

  function VolumeCharges(prices: Prices, volume: Option<Volume>, hours: real): seq<Charge>
    requires Sellable(prices)
  {
    if volume.None? then [] else ChargeIfPriced(prices, volume.value.priceKey, Some(volume.value.sizeGb), hours)
  }

  /** Plan, boot disk and address, then volume; `None` while the plan's price is not cached. */
  function Charges(prices: Prices, planName: string, planStorageGb: nat, volume: Option<Volume>, hours: real)
    : Option<seq<Charge>>
    requires Sellable(prices)
  {
    if PlanKey(planName) !in prices then None
    else Some(
      ChargeIfPriced(prices, PlanKey(planName), None, hours)
      + Extras(prices, planStorageGb, hours)
      + VolumeCharges(prices, volume, hours))
  }

  method ChargeBreakdown(prices: Prices, planName: string, planStorageGb: nat, volume: Option<Volume>, hours: real)
    returns (r: Option<seq<Charge>>)
    requires Sellable(prices)
    ensures r == Charges(prices, planName, planStorageGb, volume, hours)
  {
    var vmKey := PlanKey(planName);
    if vmKey !in prices {
      return None;
    }
    var vmUnitPrice := prices[vmKey].PerUnit() / 100.0;
    assert vmUnitPrice == UnitPrice(prices[vmKey], None);
    var charges := [ChargeFor(vmKey, vmUnitPrice, hours)];
    ghost var vm := charges;
    assert vm == ChargeIfPriced(prices, vmKey, None, hours);
    if Bundles(planStorageGb) {
      assert vm == vm + Extras(prices, planStorageGb, hours);
    } else {
      ghost var disk := ChargeIfPriced(prices, BOOT_DISK_KEY, Some(WORKER_BOOT_DISK_GB), hours);
      ghost var ip := ChargeIfPriced(prices, IPV4_KEY, None, hours);
      if BOOT_DISK_KEY in prices {
        var unitPrice := prices[BOOT_DISK_KEY].PerUnit() / 100.0 * WORKER_BOOT_DISK_GB as real;
        assert unitPrice == UnitPrice(prices[BOOT_DISK_KEY], Some(WORKER_BOOT_DISK_GB));
        charges := charges + [ChargeFor(BOOT_DISK_KEY, unitPrice, hours)];
      }
      assert charges == vm + disk;
      if IPV4_KEY in prices {
        var unitPrice := prices[IPV4_KEY].PerUnit() / 100.0;
        assert unitPrice == UnitPrice(prices[IPV4_KEY], None);
        charges := charges + [ChargeFor(IPV4_KEY, unitPrice, hours)];
      }
      assert charges == vm + disk + ip;
      Assoc(vm, disk, ip);
    }
    ghost var noVolume := charges;
    assert noVolume == vm + Extras(prices, planStorageGb, hours);
    if volume.Some? && volume.value.priceKey in prices {
      var unitPrice := prices[volume.value.priceKey].PerUnit() / 100.0 * volume.value.sizeGb as real;
      assert unitPrice == UnitPrice(prices[volume.value.priceKey], Some(volume.value.sizeGb));
      charges := charges + [ChargeFor(volume.value.priceKey, unitPrice, hours)];
    }
    assert charges == noVolume + VolumeCharges(prices, volume, hours);
    r := Some(charges);
  }

  function Total(charges: seq<Charge>): real {
    if charges == [] then 0.0 else charges[0].total + Total(charges[1..])
  }

  lemma {:induction false} TotalAppend(a: seq<Charge>, b: seq<Charge>)
    ensures Total(a + b) == Total(a) + Total(b)
  {
    if a == [] {
      assert a + b == b;
    } else {
      assert (a + b)[1..] == a[1..] + b;
      TotalAppend(a[1..], b);
    }
  }

  /** What `cents` an hour come to in whole currency units. */
  function Bills(cents: real, hours: real): real {
    cents * hours / 100.0
  }

  lemma BillsAdd(x: real, y: real, hours: real)
    ensures Bills(x + y, hours) == Bills(x, hours) + Bills(y, hours)
  {
    assert (x + y) * hours == x * hours + y * hours;
  }

  function ItemRate(prices: Prices, key: string, gb: Option<nat>): real
    requires Sellable(prices)
  {
    if gb.None? then PerUnitOrZero(prices, key) else PerUnitOrZero(prices, key) * gb.value as real
  }

  lemma ItemTotal(prices: Prices, key: string, gb: Option<nat>, hours: real)
    requires Sellable(prices)
    ensures Total(ChargeIfPriced(prices, key, gb, hours)) == Bills(ItemRate(prices, key, gb), hours)
  {
    if key in prices {
      var p := prices[key].PerUnit();
      var charge := ChargeFor(key, UnitPrice(prices[key], gb), hours);
      assert [charge][1..] == [];
      if gb.None? {
        assert p / 100.0 * hours == p * hours / 100.0;
      } else {
        Hundredths(p, gb.value as real, hours);
      }
    }
  }

  lemma Hundredths(p: real, n: real, hours: real)
    ensures p / 100.0 * n * hours == p * n * hours / 100.0
  {
  }

  function ExtrasRate(prices: Prices, planStorageGb: nat): real
    requires Sellable(prices)
  {
    if Bundles(planStorageGb) then 0.0
    else ItemRate(prices, BOOT_DISK_KEY, Some(WORKER_BOOT_DISK_GB)) + ItemRate(prices, IPV4_KEY, None)
  }

  lemma ExtrasTotal(prices: Prices, planStorageGb: nat, hours: real)
    requires Sellable(prices)
    ensures Total(Extras(prices, planStorageGb, hours)) == Bills(ExtrasRate(prices, planStorageGb), hours)
  {
    if !Bundles(planStorageGb) {
      ItemTotal(prices, BOOT_DISK_KEY, Some(WORKER_BOOT_DISK_GB), hours);
      ItemTotal(prices, IPV4_KEY, None, hours);
      TotalAppend(ChargeIfPriced(prices, BOOT_DISK_KEY, Some(WORKER_BOOT_DISK_GB), hours),
                  ChargeIfPriced(prices, IPV4_KEY, None, hours));
      BillsAdd(ItemRate(prices, BOOT_DISK_KEY, Some(WORKER_BOOT_DISK_GB)), ItemRate(prices, IPV4_KEY, None), hours);
    }
  }

  function VolumeRate(prices: Prices, volume: Option<Volume>): real
    requires Sellable(prices)
  {
    if volume.None? then 0.0 else ItemRate(prices, volume.value.priceKey, Some(volume.value.sizeGb))
  }

  lemma VolumeTotal(prices: Prices, volume: Option<Volume>, hours: real)
    requires Sellable(prices)
    ensures Total(VolumeCharges(prices, volume, hours)) == Bills(VolumeRate(prices, volume), hours)
  {
    if volume.Some? {
      ItemTotal(prices, volume.value.priceKey, Some(volume.value.sizeGb), hours);
    }
  }

  /** The ORDER BY expression is the billed rate of plan, boot disk and address. */
  lemma RankIsRate(prices: Prices, plan: ServerPlan)
    requires Sellable(prices) && Priced(prices, plan)
    ensures RankCost(prices, plan) == ItemRate(prices, PlanKey(plan.name), None) + ExtrasRate(prices, plan.storageGb)
  {
  }

  function JobRate(prices: Prices, plan: ServerPlan, volume: Option<Volume>): real
    requires Sellable(prices) && Priced(prices, plan)
  {
    RankCost(prices, plan) + VolumeRate(prices, volume)
  }

  /**
   * Ranking agrees with billing: what a priced plan costs is its rank in cents an hour, plus the volume's
   * rate, times the hours.
   */
  lemma RankIsBill(prices: Prices, plan: ServerPlan, volume: Option<Volume>, hours: real)
    requires Sellable(prices) && Priced(prices, plan)
    ensures var charges := Charges(prices, plan.name, plan.storageGb, volume, hours);
      charges.Some? && Total(charges.value) == Bills(RankCost(prices, plan) + VolumeRate(prices, volume), hours)
  {
    var vm := ChargeIfPriced(prices, PlanKey(plan.name), None, hours);
    var extras := Extras(prices, plan.storageGb, hours);
    ItemTotal(prices, PlanKey(plan.name), None, hours);
    ExtrasTotal(prices, plan.storageGb, hours);
    VolumeTotal(prices, volume, hours);
    TotalAppend(vm, extras);
    TotalAppend(vm + extras, VolumeCharges(prices, volume, hours));
    RankIsRate(prices, plan);
    BillsAdd(ItemRate(prices, PlanKey(plan.name), None), ExtrasRate(prices, plan.storageGb), hours);
    BillsAdd(RankCost(prices, plan), VolumeRate(prices, volume), hours);
  }

  /** What the whole job bills on `plan` for `hours`. */
  function Bill(prices: Prices, plan: ServerPlan, volume: Option<Volume>, hours: real): real
    requires Sellable(prices) && Priced(prices, plan)
  {
    match Charges(prices, plan.name, plan.storageGb, volume, hours)
    case Some(charges) => Total(charges)
    case None => 0.0
  }

  lemma BillOrder(prices: Prices, a: ServerPlan, b: ServerPlan, volume: Option<Volume>, hours: real)
    requires Sellable(prices) && Priced(prices, a) && Priced(prices, b) && hours >= 0.0
    requires RankCost(prices, a) <= RankCost(prices, b)
    ensures Bill(prices, a, volume, hours) <= Bill(prices, b, volume, hours)
  {
    RankIsBill(prices, a, volume, hours);
    RankIsBill(prices, b, volume, hours);
    BillsMonotone(JobRate(prices, a, volume), JobRate(prices, b, volume), hours);
  }

  lemma BillsMonotone(x: real, y: real, hours: real)
    requires x <= y && hours >= 0.0
    ensures Bills(x, hours) <= Bills(y, hours)
  {
    assert (y - x) * hours >= 0.0;
    assert y * hours - x * hours == (y - x) * hours;
  }

  lemma BillsLonger(cents: real, less: real, more: real)
    requires 0.0 <= cents && 0.0 <= less <= more
    ensures 0.0 <= Bills(cents, less) <= Bills(cents, more)
  {
    assert cents * less >= 0.0 && cents * (more - less) >= 0.0;
    assert cents * more == cents * less + cents * (more - less);
  }

  /**
   * The chosen plan covers the request in millicores and MB, and no priced fitting plan would bill the job
   * less; it is unpriced only if every fitting plan is.
   */
  lemma ChosenIsCheapest(prices: Prices, plans: seq<ServerPlan>, cpuMillicores: nat, memoryMb: nat,
                         volume: Option<Volume>, hours: real)
    requires Sellable(prices) && hours >= 0.0
    requires PlanForRequests(prices, plans, Some(cpuMillicores), Some(memoryMb)).Some?
    ensures var chosen := PlanForRequests(prices, plans, Some(cpuMillicores), Some(memoryMb)).value;
      var (cpu, memory) := WholeUnits(Some(cpuMillicores), Some(memoryMb));
      && chosen in plans
      && chosen.cpuCores * 1000 >= cpuMillicores && chosen.memoryMb >= memoryMb
      && forall q <- plans :: Fits(q, cpu, memory) && Priced(prices, q) ==>
           Priced(prices, chosen) && Bill(prices, chosen, volume, hours) <= Bill(prices, q, volume, hours)
  {
    var (cpu, memory) := WholeUnits(Some(cpuMillicores), Some(memoryMb));
    CheapestIsLeast(prices, plans, cpu, memory);
    var chosen := PlanForRequests(prices, plans, Some(cpuMillicores), Some(memoryMb)).value;
    forall q | q in plans && Fits(q, cpu, memory) && Priced(prices, q)
      ensures Priced(prices, chosen) && Bill(prices, chosen, volume, hours) <= Bill(prices, q, volume, hours)
    {
      BillOrder(prices, chosen, q, volume, hours);
    }
  }

  /** A larger request never finds a plan where a smaller one finds none, and never a cheaper one. */
  lemma LargerIsNoCheaper(prices: Prices, plans: seq<ServerPlan>, cpu: nat, memory: nat, moreCpu: nat, moreMemory: nat,
                          volume: Option<Volume>, hours: real)
    requires Sellable(prices) && hours >= 0.0 && cpu <= moreCpu && memory <= moreMemory
    requires PlanForRequests(prices, plans, Some(moreCpu), Some(moreMemory)).Some?
    ensures PlanForRequests(prices, plans, Some(cpu), Some(memory)).Some?
    ensures var small := PlanForRequests(prices, plans, Some(cpu), Some(memory)).value;
      var large := PlanForRequests(prices, plans, Some(moreCpu), Some(moreMemory)).value;
      Priced(prices, large) ==>
        Priced(prices, small) && Bill(prices, small, volume, hours) <= Bill(prices, large, volume, hours)
  {
    var (a, b) := WholeUnits(Some(cpu), Some(memory));
    var (c, d) := WholeUnits(Some(moreCpu), Some(moreMemory));
    var large := PlanForRequests(prices, plans, Some(moreCpu), Some(moreMemory)).value;
    CheapestIsLeast(prices, plans, a, b);
    CheapestIsLeast(prices, plans, c, d);
    assert Fits(large, a, b);
    ChosenIsCheapest(prices, plans, cpu, memory, volume, hours);
  }

  // Estimates are upper bounds.

  const SECONDS_PER_HOUR := 3600.0

  function Hours(seconds: int): real {
    (if seconds < 0 then 0 else seconds) as real / SECONDS_PER_HOUR
  }

  /** A job's charges for a duration: on the plan it got, or else on the one it would get now. */
  function JobCharges(prices: Prices, plans: seq<ServerPlan>, cpu: Option<nat>, memory: Option<nat>,
                      volume: Option<Volume>, recordedPlan: Option<string>, seconds: int): Option<seq<Charge>>
    requires Sellable(prices)
  {
    match recordedPlan
    case Some(name) =>
      var stored := PlanNamed(plans, name);
      Charges(prices, name, if stored.Some? then stored.value.storageGb else WORKER_BOOT_DISK_GB, volume, Hours(seconds))
    case None =>
      match PlanForRequests(prices, plans, cpu, memory)
      case None => None
      case Some(plan) => Charges(prices, plan.name, plan.storageGb, volume, Hours(seconds))
  }

  /** The sum of the charges in the operator's currency. */
  function JobCost(rates: Rates, charges: Option<seq<Charge>>, from: string, to: string): Option<real>
    requires Positive(rates)
  {
    if charges.None? then None else Convert(rates, Total(charges.value), from, to)
  }

  function PlanNamed(plans: seq<ServerPlan>, name: string): Option<ServerPlan> {
    if plans == [] then None
    else if plans[0].name == name then Some(plans[0])
    else PlanNamed(plans[1..], name)
  }

  lemma {:induction false} PlanNamedFinds(plans: seq<ServerPlan>, plan: ServerPlan)
    requires plan in plans && forall p, q :: p in plans && q in plans && p.name == q.name ==> p == q
    ensures PlanNamed(plans, plan.name) == Some(plan)
  {
    assert plans[0] in plans;
    if plans[0].name != plan.name {
      forall p, q | p in plans[1..] && q in plans[1..] && p.name == q.name ensures p == q {
        assert p in plans && q in plans;
      }
      PlanNamedFinds(plans[1..], plan);
    }
  }

  /** At a fixed plan and price table a job's cost is monotone in its duration. */
  lemma DurationMonotone(prices: Prices, plan: ServerPlan, volume: Option<Volume>, less: int, more: int)
    requires Sellable(prices) && Priced(prices, plan) && less <= more
    ensures 0.0 <= Bill(prices, plan, volume, Hours(less)) <= Bill(prices, plan, volume, Hours(more))
  {
    RankIsBill(prices, plan, volume, Hours(less));
    RankIsBill(prices, plan, volume, Hours(more));
    RatesNotNegative(prices, plan, volume);
    BillsLonger(JobRate(prices, plan, volume), Hours(less), Hours(more));
  }

  lemma RatesNotNegative(prices: Prices, plan: ServerPlan, volume: Option<Volume>)
    requires Sellable(prices) && Priced(prices, plan)
    ensures JobRate(prices, plan, volume) >= 0.0
  {
    NotNegative(prices, PlanKey(plan.name), None);
    NotNegative(prices, BOOT_DISK_KEY, Some(WORKER_BOOT_DISK_GB));
    NotNegative(prices, IPV4_KEY, None);
    RankIsRate(prices, plan);
    if volume.Some? {
      NotNegative(prices, volume.value.priceKey, Some(volume.value.sizeGb));
    }
  }

  lemma NotNegative(prices: Prices, key: string, gb: Option<nat>)
    requires Sellable(prices)
    ensures ItemRate(prices, key, gb) >= 0.0
  {
    assert PerUnitOrZero(prices, key) >= 0.0;
    if gb.Some? {
      assert PerUnitOrZero(prices, key) * gb.value as real >= 0.0;
    }
  }

  /**
   * A job that ran on the plan its estimate chose, no longer than the deadline the estimate assumed, costs
   * at most the estimate, in the operator's currency too.
   */
  lemma ActualWithinEstimate(prices: Prices, rates: Rates, plans: seq<ServerPlan>, cpu: Option<nat>, memory: Option<nat>,
                             volume: Option<Volume>, from: string, to: string, deadline: int, seconds: int)
    requires Sellable(prices) && Positive(rates) && seconds <= deadline
    requires forall p, q :: p in plans && q in plans && p.name == q.name ==> p == q
    requires JobCost(rates, JobCharges(prices, plans, cpu, memory, volume, None, deadline), from, to).Some?
    ensures var estimate := JobCost(rates, JobCharges(prices, plans, cpu, memory, volume, None, deadline), from, to).value;
      var plan := PlanForRequests(prices, plans, cpu, memory);
      && plan.Some?
      && var actual := JobCost(rates, JobCharges(prices, plans, cpu, memory, volume, Some(plan.value.name), seconds), from, to);
         actual.Some? && 0.0 <= actual.value <= estimate
  {
    var plan := PlanForRequests(prices, plans, cpu, memory).value;
    var (c, m) := WholeUnits(cpu, memory);
    CheapestIsLeast(prices, plans, c, m);
    PlanNamedFinds(plans, plan);
    var (x, y) := (Bill(prices, plan, volume, Hours(seconds)), Bill(prices, plan, volume, Hours(deadline)));
    DurationMonotone(prices, plan, volume, seconds, deadline);
    ConvertScales(rates, x, from, to);
    ConvertScales(rates, y, from, to);
    ScaleMonotone(x, y, Factor(rates, from, to));
  }

  lemma ScaleMonotone(x: real, y: real, k: real)
    requires 0.0 <= x <= y && k > 0.0
    ensures 0.0 <= x * k <= y * k
  {
    assert (y - x) * k >= 0.0;
  }

  // What the parts come to.

  /** The fewest whole cores and GB that hold the request; one of each by default. */
  lemma UnitsExactly(cpuMillicores: Option<nat>, memoryMb: Option<nat>)
    ensures var (cores, gb) := WholeUnits(cpuMillicores, memoryMb);
      && (if cpuMillicores.None? then cores == 1 else (cores - 1) * 1000 < cpuMillicores.value <= cores * 1000)
      && (if memoryMb.None? then gb == 1 else (gb - 1) * 1024 < memoryMb.value <= gb * 1024)
  {
  }

  /** A plan fits if it has the cores, and 1024 MB for each of the GB. */
  lemma FitsExactly(prices: Prices, plans: seq<ServerPlan>, cpuMillicores: Option<nat>, memoryMb: Option<nat>)
    requires Sellable(prices)
    ensures var (cores, gb) := WholeUnits(cpuMillicores, memoryMb);
      var chosen := PlanForRequests(prices, plans, cpuMillicores, memoryMb);
      && (chosen.None? <==> forall q <- plans :: q.cpuCores < cores || q.memoryMb < 1024 * gb)
      && (chosen.Some? ==> chosen.value in plans && chosen.value.cpuCores >= cores && chosen.value.memoryMb >= 1024 * gb)
  {
    var (cores, gb) := WholeUnits(cpuMillicores, memoryMb);
    CheapestIsLeast(prices, plans, cores, gb);
  }

  /** Cents an hour: the plan, and where it holds less than 10 GB also 10 GB of standard storage and an address. */
  function CentsAnHour(prices: Prices, plan: ServerPlan): real
    requires Sellable(prices) && "server_plan_" + plan.name in prices
  {
    var own := prices["server_plan_" + plan.name];
    var disk := if "storage_standard" in prices then prices["storage_standard"].price / prices["storage_standard"].amount else 0.0;
    var ip := if "ipv4_address" in prices then prices["ipv4_address"].price / prices["ipv4_address"].amount else 0.0;
    own.price / own.amount + if plan.storageGb < 10 then disk * 10.0 + ip else 0.0
  }

  /** The order of names in SQL: by the first character that differs, the shorter first. */
  predicate Precedes(a: string, b: string) {
    a <= b || exists i :: 0 <= i < |a| && i < |b| && a[..i] == b[..i] && a[i] < b[i]
  }

  lemma {:induction false} TextLeMeans(a: string, b: string)
    ensures TextLe(a, b) ==> Precedes(a, b)
  {
    if a != "" && b != "" && a[0] == b[0] && TextLe(a, b) {
      TextLeMeans(a[1..], b[1..]);
      if a[1..] <= b[1..] {
        assert a <= b;
      } else {
        var i :| 0 <= i < |a[1..]| && i < |b[1..]| && a[1..][..i] == b[1..][..i] && a[1..][i] < b[1..][i];
        assert a[..i + 1] == [a[0]] + a[1..][..i] && b[..i + 1] == [b[0]] + b[1..][..i];
        assert a[i + 1] < b[i + 1];
      }
    } else if a != "" && TextLe(a, b) {
      assert a[..0] == b[..0];
    }
  }

  /** The order in which plans are chosen, against every other plan that fits. */
  lemma RankedExactly(prices: Prices, plans: seq<ServerPlan>, cpuMillicores: Option<nat>, memoryMb: Option<nat>, q: ServerPlan)
    requires Sellable(prices) && q in plans
    requires var (cores, gb) := WholeUnits(cpuMillicores, memoryMb); q.cpuCores >= cores && q.memoryMb >= 1024 * gb
    ensures PlanForRequests(prices, plans, cpuMillicores, memoryMb).Some?
    ensures var p := PlanForRequests(prices, plans, cpuMillicores, memoryMb).value;
      var (pricedP, pricedQ) := ("server_plan_" + p.name in prices, "server_plan_" + q.name in prices);
      && (pricedQ ==> pricedP && CentsAnHour(prices, p) <= CentsAnHour(prices, q))
      && (pricedP == pricedQ && (pricedP ==> CentsAnHour(prices, p) == CentsAnHour(prices, q)) ==>
            || p.cpuCores < q.cpuCores
            || (p.cpuCores == q.cpuCores && p.memoryMb < q.memoryMb)
            || (p.cpuCores == q.cpuCores && p.memoryMb == q.memoryMb && Precedes(p.name, q.name)))
  {
    var (cores, gb) := WholeUnits(cpuMillicores, memoryMb);
    CheapestIsLeast(prices, plans, cores, gb);
    var p := PlanForRequests(prices, plans, cpuMillicores, memoryMb).value;
    TextLeMeans(p.name, q.name);
    if Priced(prices, p) {
      CentsAre(prices, p);
    }
    if Priced(prices, q) {
      CentsAre(prices, q);
    }
  }

  lemma CentsAre(prices: Prices, plan: ServerPlan)
    requires Sellable(prices) && Priced(prices, plan)
    ensures CentsAnHour(prices, plan) == RankCost(prices, plan)
  {
  }

  /** A charge for some units of what is priced in cents an hour. */
  function HourlyCharge(key: string, price: Price, units: real, hours: real): Charge
    requires price.amount > 0.0
  {
    var unitPrice := price.price / price.amount / 100.0 * units;
    Charge(key, hours, unitPrice, unitPrice * hours)
  }

  function Billed(prices: Prices, key: string, units: real, hours: real): seq<Charge>
    requires Sellable(prices)
  {
    if key in prices then [HourlyCharge(key, prices[key], units, hours)] else []
  }

  /** The charges of a priced plan, item by item. */
  lemma ChargedExactly(prices: Prices, planName: string, planStorageGb: nat, volume: Option<Volume>, hours: real)
    requires Sellable(prices)
    ensures Charges(prices, planName, planStorageGb, volume, hours) ==
      if "server_plan_" + planName !in prices then None
      else Some(
        Billed(prices, "server_plan_" + planName, 1.0, hours)
        + (if planStorageGb < 10 then Billed(prices, "storage_standard", 10.0, hours) + Billed(prices, "ipv4_address", 1.0, hours) else [])
        + if volume.Some? then Billed(prices, volume.value.priceKey, volume.value.sizeGb as real, hours) else [])
  {
    ItemBilled(prices, "server_plan_" + planName, None, hours);
    ItemBilled(prices, "storage_standard", Some(10), hours);
    ItemBilled(prices, "ipv4_address", None, hours);
    if volume.Some? {
      ItemBilled(prices, volume.value.priceKey, Some(volume.value.sizeGb), hours);
    }
  }

  lemma ItemBilled(prices: Prices, key: string, gb: Option<nat>, hours: real)
    requires Sellable(prices)
    ensures ChargeIfPriced(prices, key, gb, hours) == Billed(prices, key, if gb.Some? then gb.value as real else 1.0, hours)
  {
    if key in prices {
      ChargeIsHourly(key, prices[key], gb, hours, if gb.Some? then gb.value as real else 1.0);
    }
  }

  lemma ChargeIsHourly(key: string, price: Price, gb: Option<nat>, hours: real, units: real)
    requires price.amount > 0.0 && units == if gb.Some? then gb.value as real else 1.0
    ensures ChargeFor(key, UnitPrice(price, gb), hours) == HourlyCharge(key, price, units, hours)
  {
    var cents := price.price / price.amount / 100.0;
    if gb.None? {
      assert cents * units == cents;
    }
    assert UnitPrice(price, gb) == cents * units;
    SameCharge(key, UnitPrice(price, gb), cents * units, hours);
  }

  lemma SameCharge(key: string, x: real, y: real, hours: real)
    requires x == y
    ensures ChargeFor(key, x, hours) == Charge(key, hours, y, y * hours)
  {
  }

  /** A job is charged by the hour, and for no less than none. */
  lemma HoursExactly(seconds: int)
    ensures Hours(seconds) * 3600.0 == if seconds < 0 then 0.0 else seconds as real
  {
  }

  /** On a plan that the catalog no longer has, a job is charged as if the plan had included disk and address. */
  lemma RetiredPlan(prices: Prices, plans: seq<ServerPlan>, cpu: Option<nat>, memory: Option<nat>, volume: Option<Volume>,
                    name: string, seconds: int)
    requires Sellable(prices) && forall p <- plans :: p.name != name
    ensures JobCharges(prices, plans, cpu, memory, volume, Some(name), seconds) == Charges(prices, name, 10, volume, Hours(seconds))
  {
    PlanNotNamed(plans, name);
  }

  lemma {:induction false} PlanNotNamed(plans: seq<ServerPlan>, name: string)
    requires forall p <- plans :: p.name != name
    ensures PlanNamed(plans, name) == None
  {
    if plans != [] {
      assert plans[0] in plans;
      PlanNotNamed(plans[1..], name);
    }
  }

  /** On one that it has, by that plan's own storage. */
  lemma RecordedPlan(prices: Prices, plans: seq<ServerPlan>, cpu: Option<nat>, memory: Option<nat>, volume: Option<Volume>,
                     plan: ServerPlan, seconds: int)
    requires Sellable(prices) && plan in plans && forall p, q :: p in plans && q in plans && p.name == q.name ==> p == q
    ensures JobCharges(prices, plans, cpu, memory, volume, Some(plan.name), seconds) ==
      Charges(prices, plan.name, plan.storageGb, volume, Hours(seconds))
  {
    PlanNamedFinds(plans, plan);
  }

  /** A job's cost is the sum of its charges, in the operator's currency. */
  lemma CostExactly(rates: Rates, charges: seq<Charge>, from: string, to: string)
    requires Positive(rates)
    ensures JobCost(rates, Some(charges), from, to).Some? <==> from == to || (Known(rates, from) && Known(rates, to))
    ensures JobCost(rates, Some(charges), from, to).Some? ==>
      JobCost(rates, Some(charges), from, to).value == Total(charges) * Factor(rates, from, to)
  {
    ConvertScales(rates, Total(charges), from, to);
  }
}
