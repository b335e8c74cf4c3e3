/** What a month of email costs at a provider, by the reviewed price catalog. */
module EmailPricing {
  import opened Wrappers
  import opened Lists
  import opened Rounding
  import opened PriceRanges

  datatype Plan = Plan(
    monthlyMinimum: real, includedMonthlyUnits: int, overageUnitSize: int, overagePrice: real,
      maximumMonthlyUnits: Option<int>)

  datatype AddOn = AddOn(id: string, unitPrice: real)

  /** Times are in milliseconds, and absent where a date does not parse. */
  datatype PricingRule = PricingRule(currency: string, plans: seq<Plan>, addOns: seq<AddOn>, verifiedAt: Option<int>)

  datatype Usage = Usage(
    monthlyVolume: Option<int>, currency: string, region: Option<string>, dedicatedIpRequired: bool,
    averageAttachmentMegabytes: Option<real>)

  datatype Override = Override(serviceId: string, monthlyCost: Range)

  datatype Missing = CatalogReview | UsageCurrency | MonthlyVolume | AwsRegion | DedicatedIpPrice

  datatype Pricing =
    | Incomplete(missingInputs: seq<Missing>)
    | Complete(monthlyCost: Range, stale: bool)

  const SES := "ses"
  const ATTACHMENT_DATA := "attachment-data"
  const DEDICATED_IP := "dedicated-ip"
  const DAY_MS := 86_400_000

  // ---- the shipped catalog ----

  /** 2026-08-25T00:00:00.000Z */
  const VERIFIED_AT := 1_787_616_000_000

  const RESEND_RULE := PricingRule(
    "USD", [Plan(20.0, 50_000, 1_000, 0.9, None)], [AddOn(DEDICATED_IP, 30.0)], Some(VERIFIED_AT))

  const SES_RULE := PricingRule(
    "USD", [Plan(0.0, 0, 1_000, 0.1, None)], [AddOn(ATTACHMENT_DATA, 0.12), AddOn("dedicated-ip-standard", 24.95)],
    Some(VERIFIED_AT))

  const POSTMARK_RULE := PricingRule("USD", [Plan(15.0, 10_000, 1_000, 1.8, None)], [], Some(VERIFIED_AT))

  function Catalog(): map<string, PricingRule> {
    map["resend" := RESEND_RULE, SES := SES_RULE, "postmark" := POSTMARK_RULE]
  }

  /** Plans and prices that make sense. */
  predicate ValidPlan(p: Plan) {
    p.overageUnitSize > 0 && p.overagePrice >= 0.0 && p.monthlyMinimum >= 0.0
  }

  predicate ValidRule(rule: PricingRule) {
    && rule.plans != [] && (forall i :: 0 <= i < |rule.plans| ==> ValidPlan(rule.plans[i]))
    && (forall a :: a in rule.addOns ==> a.unitPrice >= 0.0)
  }

  function ExactRange(value: real): Range {
    Range(Cents(value), Cents(value), Cents(value))
  }

  /** Steps that can be divided by. */
  predicate Divides(rule: PricingRule) {
    rule.plans != [] ==> rule.plans[0].overageUnitSize != 0
  }

  /** `Math.ceil(n / size)` */
  function CeilDiv(n: nat, size: int): int
    requires size != 0
  {
    if size > 0 then (n + size - 1) / size else -(n / -size)
  }

  /** The units over what is included, in steps that have been begun. */
  function OverageSteps(plan: Plan, monthlyVolume: int): int
    requires plan.overageUnitSize != 0
  {
    if monthlyVolume <= plan.includedMonthlyUnits then 0
    else CeilDiv(monthlyVolume - plan.includedMonthlyUnits, plan.overageUnitSize)
  }

  function PlanCost(plan: Plan, monthlyVolume: int): Result<real>
    requires plan.overageUnitSize != 0
  {
    if plan.maximumMonthlyUnits.Some? && monthlyVolume > plan.maximumMonthlyUnits.value then
      Err("Monthly volume exceeds the plan.")
    else Ok(plan.monthlyMinimum + Times(OverageSteps(plan, monthlyVolume) as real, plan.overagePrice))
  }

  /** `id.includes(part)` */
  predicate Includes(id: string, part: string) {
    part <= id || (id != [] && Includes(id[1..], part))
  }

  function FirstPrice(addOns: seq<AddOn>, wanted: AddOn -> bool): (r: Option<real>)
    ensures r.Some? ==> exists a :: a in addOns && wanted(a) && a.unitPrice == r.value
  {
    if addOns == [] then None
    else if wanted(addOns[0]) then Some(addOns[0].unitPrice)
    else FirstPrice(addOns[1..], wanted)
  }

  function OrZero(x: Option<real>): real {
    if x.Some? then x.value else 0.0
  }

  function IsStale(verifiedAt: Option<int>, now: Option<int>, staleAfterDays: int): bool {
    verifiedAt.None? || now.None? || now.value - verifiedAt.value > staleAfterDays * DAY_MS
  }

  /** What the attachments of a month cost, where data is billed. */
  function AttachmentCost(rule: PricingRule, serviceId: string, volume: int, megabytes: Option<real>): real {
    if serviceId == SES then Times(Gigabytes(volume, OrZero(megabytes)), DataPrice(rule)) else 0.0
  }

  function Times(x: real, y: real): real { x * y }

  function Gigabytes(volume: int, megabytes: real): real {
    Times(volume as real, megabytes) / 1024.0
  }

  function DataPrice(rule: PricingRule): real {
    OrZero(FirstPrice(rule.addOns, (a: AddOn) => a.id == ATTACHMENT_DATA))
  }

  function DedicatedIp(rule: PricingRule): Option<real> {
    FirstPrice(rule.addOns, (a: AddOn) => Includes(a.id, DEDICATED_IP))
  }

  /** The amount of the catalog, before rounding; none if the address has no reviewed price. */
  function Amount(rule: PricingRule, serviceId: string, usage: Usage, volume: int): Result<Option<real>>
    requires Divides(rule)
  {
    if rule.plans == [] then Err("The rule has no plan.")
    else
      match PlanCost(rule.plans[0], volume)
      case Err(reason) => Err(reason)
      case Ok(base) =>
        var amount := base + AttachmentCost(rule, serviceId, volume, usage.averageAttachmentMegabytes);
        if !usage.dedicatedIpRequired then Ok(Some(amount))
        else
          match DedicatedIp(rule)
          case None => Ok(None)
          case Some(price) => Ok(Some(amount + price))
  }

  function If(condition: bool, m: Missing): seq<Missing> {
    if condition then [m] else []
  }

  /** Catalog review, currency, volume and region, of these each once and in this order. */
  predicate InOrder(missingInputs: seq<Missing>) {
    missingInputs ==
    If(CatalogReview in missingInputs, CatalogReview) + If(UsageCurrency in missingInputs, UsageCurrency)
    + If(MonthlyVolume in missingInputs, MonthlyVolume) + If(AwsRegion in missingInputs, AwsRegion)
  }

  /** Lists, each once, the inputs without which there is no estimate. */
  method CollectMissing(rule: PricingRule, approved: bool, serviceId: string, usage: Usage)
    returns (missingInputs: seq<Missing>)
    ensures CatalogReview in missingInputs <==> !approved
    ensures UsageCurrency in missingInputs <==> usage.currency != rule.currency
    ensures MonthlyVolume in missingInputs <==> usage.monthlyVolume.None?
    ensures AwsRegion in missingInputs <==> serviceId == "ses" && (usage.region.None? || usage.region.value == "")
    ensures DedicatedIpPrice !in missingInputs
    ensures InOrder(missingInputs)
  {
    missingInputs := [];
    if !approved { missingInputs := missingInputs + [CatalogReview]; }
    if usage.currency != rule.currency { missingInputs := missingInputs + [UsageCurrency]; }
    if usage.monthlyVolume.None? { missingInputs := missingInputs + [MonthlyVolume]; }
    if serviceId == SES && (usage.region.None? || usage.region.value == "") {
      missingInputs := missingInputs + [AwsRegion];
    }
  }

  predicate Supplied(rule: PricingRule, approved: bool, serviceId: string, usage: Usage) {
    approved && usage.currency == rule.currency && usage.monthlyVolume.Some?
    && (serviceId == "ses" ==> usage.region.Some? && usage.region.value != "")
  }

  /** The plan that is billed does not take the volume, or there is none. */
  predicate NoPlanFor(rule: PricingRule, volume: int) {
    || rule.plans == []
    || (rule.plans[0].maximumMonthlyUnits.Some? && volume > rule.plans[0].maximumMonthlyUnits.value)
  }

  method EstimateEmailPricing(
    rule: PricingRule, approved: bool, serviceId: string, usage: Usage, ownerOverride: Option<Override>,
    now: Option<int>, staleAfterDays: int) returns (r: Result<Pricing>)
    requires Divides(rule)
    ensures r.Err? <==>
            || (usage.monthlyVolume.Some? && usage.monthlyVolume.value < 0)
            || (usage.averageAttachmentMegabytes.Some? && usage.averageAttachmentMegabytes.value < 0.0)
            || (ownerOverride.Some?
                && !(ownerOverride.value.monthlyCost.minimum <= ownerOverride.value.monthlyCost.likely
                     <= ownerOverride.value.monthlyCost.maximum))
            || (ownerOverride.Some? && ownerOverride.value.serviceId != serviceId)
            || (Supplied(rule, approved, serviceId, usage) && ownerOverride.None?
                && NoPlanFor(rule, usage.monthlyVolume.value))
    ensures r.Ok? && !Supplied(rule, approved, serviceId, usage) ==>
              && r.value.Incomplete?
              && (CatalogReview in r.value.missingInputs <==> !approved)
              && (UsageCurrency in r.value.missingInputs <==> usage.currency != rule.currency)
              && (MonthlyVolume in r.value.missingInputs <==> usage.monthlyVolume.None?)
              && (AwsRegion in r.value.missingInputs <==>
                    serviceId == "ses" && (usage.region.None? || usage.region.value == ""))
              && DedicatedIpPrice !in r.value.missingInputs && InOrder(r.value.missingInputs)
    ensures r.Ok? && Supplied(rule, approved, serviceId, usage) ==>
              if ownerOverride.None? && usage.dedicatedIpRequired && DedicatedIp(rule).None? then
                r.value == Incomplete([DedicatedIpPrice])
              else
                && r.value.Complete? && r.value.stale == IsStale(rule.verifiedAt, now, staleAfterDays)
                && if ownerOverride.Some? then r.value.monthlyCost == ownerOverride.value.monthlyCost
                   else
                     var amount := Amount(rule, serviceId, usage, usage.monthlyVolume.value);
                     amount.Ok? && amount.value.Some? && r.value.monthlyCost == ExactRange(amount.value.value)
  {
    var missingInputs := CollectMissing(rule, approved, serviceId, usage);
    if usage.monthlyVolume.Some? && usage.monthlyVolume.value < 0 {
      return Err("Monthly email volume must be a non-negative integer.");
    }
    if usage.averageAttachmentMegabytes.Some? && usage.averageAttachmentMegabytes.value < 0.0 {
      return Err("Average attachment size must be non-negative.");
    }
    if ownerOverride.Some? && !Ordered(ownerOverride.value.monthlyCost) {
      return Err("Owner pricing override range must be ordered.");
    }
    if ownerOverride.Some? && ownerOverride.value.serviceId != serviceId {
      return Err("Owner pricing override service does not match the estimate target.");
    }
    NothingListed(missingInputs);
    if missingInputs != [] { return Ok(Incomplete(missingInputs)); }
    var stale := IsStale(rule.verifiedAt, now, staleAfterDays);
    if ownerOverride.Some? { return Ok(Complete(ownerOverride.value.monthlyCost, stale)); }
    var volume := usage.monthlyVolume.value;
    if rule.plans == [] { return Err("The rule has no plan."); }
    var base := PlanCost(rule.plans[0], volume);
    if base.Err? { return Err(base.reason); }
    var amount := base.value;
    amount := amount + AttachmentCost(rule, serviceId, volume, usage.averageAttachmentMegabytes);
    if usage.dedicatedIpRequired {
      var dedicated := DedicatedIp(rule);
      if dedicated.None? { return Ok(Incomplete([DedicatedIpPrice])); }
      amount := amount + dedicated.value;
    }
    r := Ok(Complete(ExactRange(amount), stale));
  }

  lemma NothingListed(missingInputs: seq<Missing>)
    ensures missingInputs == [] <==>
            && CatalogReview !in missingInputs && UsageCurrency !in missingInputs && MonthlyVolume !in missingInputs
            && AwsRegion !in missingInputs && DedicatedIpPrice !in missingInputs
  {
    if missingInputs != [] {
      var m := missingInputs[0];
      assert m in missingInputs;
      assert m == CatalogReview || m == UsageCurrency || m == MonthlyVolume || m == AwsRegion || m == DedicatedIpPrice;
    }
  }

  lemma {:induction false} StartsNowhere(id: string, part: string)
    requires part != [] && forall i :: 0 <= i <= |id| - |part| ==> id[i] != part[0]
    ensures !Includes(id, part)
  {
    if id != [] {
      assert forall i :: 0 <= i < |id| - 1 ==> id[1..][i] == id[i + 1];
      StartsNowhere(id[1..], part);
      assert |part| <= |id| ==> id[0] != part[0];
    }
  }

  lemma ShippedAddresses()
    ensures DedicatedIp(RESEND_RULE).Some? && DedicatedIp(SES_RULE).Some? && DedicatedIp(POSTMARK_RULE).None?
  {
    AddressNames();
    FirstPriceHas(RESEND_RULE.addOns, 0, (a: AddOn) => Includes(a.id, DEDICATED_IP));
    FirstPriceHas(SES_RULE.addOns, 1, (a: AddOn) => Includes(a.id, DEDICATED_IP));
  }

  lemma {:induction false} FirstPriceHas(addOns: seq<AddOn>, i: nat, wanted: AddOn -> bool)
    requires i < |addOns| && wanted(addOns[i])
    ensures FirstPrice(addOns, wanted).Some?
  {
    if !wanted(addOns[0]) {
      FirstPriceHas(addOns[1..], i - 1, wanted);
    }
  }

  /** The shipped rules make sense and take every volume; only Postmark has no reviewed address. */
  lemma ShippedRules(serviceId: string)
    requires serviceId in Catalog()
    ensures ValidRule(Catalog()[serviceId])
    ensures forall volume :: !NoPlanFor(Catalog()[serviceId], volume)
    ensures DedicatedIp(Catalog()[serviceId]).None? <==> serviceId == "postmark"
  {
    var rule := Catalog()[serviceId];
    assert rule == RESEND_RULE || rule == SES_RULE || rule == POSTMARK_RULE;
    ShippedAddresses();
  }

  // ---- more volume never costs less ----

  lemma CeilDivMonotone(n: nat, m: nat, size: int)
    requires size > 0 && n <= m
    ensures 0 <= CeilDiv(n, size) <= CeilDiv(m, size)
  {
    StepsCover(m, size, CeilDiv(m, size));
    StepsCover(n, size, CeilDiv(m, size));
  }

  lemma TimesMonotone(a: int, b: int, size: int)
    requires a <= b && size > 0
    ensures a * size <= b * size
  {
  }

  /** The steps are the least number that covers the overage. */
  lemma StepsCover(n: nat, size: int, k: nat)
    requires size > 0
    ensures CeilDiv(n, size) <= k <==> n <= k * size
  {
    var p, r := (n + size - 1) / size, (n + size - 1) % size;
    assert n + size - 1 == size * p + r;
    if p <= k { TimesMonotone(p, k, size); } else { TimesMonotone(k + 1, p, size); }
  }

  lemma PlanCostMonotone(plan: Plan, v: int, w: int)
    requires ValidPlan(plan) && v <= w && PlanCost(plan, w).Ok?
    ensures PlanCost(plan, v).Ok? && plan.monthlyMinimum <= PlanCost(plan, v).value <= PlanCost(plan, w).value
  {
    if v > plan.includedMonthlyUnits {
      CeilDivMonotone(v - plan.includedMonthlyUnits, w - plan.includedMonthlyUnits, plan.overageUnitSize);
    }
    ProductMonotone(
      OverageSteps(plan, v) as real, OverageSteps(plan, w) as real, plan.overagePrice, plan.overagePrice);
  }

  lemma PricesAreNonNegative(rule: PricingRule, wanted: AddOn -> bool)
    requires ValidRule(rule)
    ensures OrZero(FirstPrice(rule.addOns, wanted)) >= 0.0
  {
  }

  lemma AttachmentCostMonotone(rule: PricingRule, serviceId: string, v: int, w: int, megabytes: Option<real>)
    requires ValidRule(rule) && 0 <= v <= w && OrZero(megabytes) >= 0.0
    ensures 0.0 <= AttachmentCost(rule, serviceId, v, megabytes) <= AttachmentCost(rule, serviceId, w, megabytes)
  {
    PricesAreNonNegative(rule, (a: AddOn) => a.id == ATTACHMENT_DATA);
    ProductMonotone(v as real, w as real, OrZero(megabytes), OrZero(megabytes));
    ProductMonotone(
      Gigabytes(v, OrZero(megabytes)), Gigabytes(w, OrZero(megabytes)), DataPrice(rule), DataPrice(rule));
  }

  /** If the larger volume has a price, so has the smaller, and it is not higher. */
  lemma PricingIsMonotone(rule: PricingRule, serviceId: string, usage: Usage, v: int, w: int)
    requires ValidRule(rule) && 0 <= v <= w && OrZero(usage.averageAttachmentMegabytes) >= 0.0
    requires Amount(rule, serviceId, usage, w).Ok? && Amount(rule, serviceId, usage, w).value.Some?
    ensures var a, b := Amount(rule, serviceId, usage, v), Amount(rule, serviceId, usage, w);
            && a.Ok? && a.value.Some?
            && Below(ExactRange(a.value.value), ExactRange(b.value.value))
            && NonNegative(ExactRange(a.value.value)) && Ordered(ExactRange(a.value.value))
  {
    PlanCostMonotone(rule.plans[0], v, w);
    AttachmentCostMonotone(rule, serviceId, v, w, usage.averageAttachmentMegabytes);
    PricesAreNonNegative(rule, (a: AddOn) => Includes(a.id, DEDICATED_IP));
    var a, b := Amount(rule, serviceId, usage, v).value, Amount(rule, serviceId, usage, w).value;
    CentsMonotone(a.value, b.value);
    CentsSign(a.value);
  }

  // ---- the price itself ----

  /** The least number of steps of overage that covers the volume. */
  predicate CoversWith(plan: Plan, volume: int, steps: nat) {
    && volume <= plan.includedMonthlyUnits + steps * plan.overageUnitSize
    && (steps > 0 ==> volume > plan.includedMonthlyUnits + (steps - 1) * plan.overageUnitSize)
  }

  lemma NonNegativeTimes(a: nat, size: int)
    requires size > 0
    ensures a * size >= 0
  {
  }

  /** Within the plan a volume costs the minimum, and each step that it takes beyond costs the price of a step. */
  lemma PlanCostIs(plan: Plan, volume: int, steps: nat)
    requires plan.overageUnitSize > 0 && CoversWith(plan, volume, steps)
    ensures if plan.maximumMonthlyUnits.Some?
        && volume > plan.maximumMonthlyUnits.value then PlanCost(plan, volume).Err?
            else PlanCost(plan, volume) == Ok(plan.monthlyMinimum + steps as real * plan.overagePrice)
  {
    StepsAre(plan, volume, steps);
    assert Times(steps as real, plan.overagePrice) == steps as real * plan.overagePrice;
  }

  lemma StepsAre(plan: Plan, volume: int, steps: nat)
    requires plan.overageUnitSize > 0 && CoversWith(plan, volume, steps)
    ensures OverageSteps(plan, volume) == steps
  {
    var over := volume - plan.includedMonthlyUnits;
    if steps > 0 { NonNegativeTimes(steps - 1, plan.overageUnitSize); }
    if over > 0 {
      StepsCover(over, plan.overageUnitSize, steps);
      if steps > 0 { StepsCover(over, plan.overageUnitSize, steps - 1); }
          else { StepsCover(over, plan.overageUnitSize, 0); }
    }
  }

  /** The catalog in figures: at Resend fifty thousand messages cost 20.00, and each thousand begun beyond costs
      0.90. */
  lemma ResendPrices(volume: int)
    requires 0 <= volume
    ensures volume <= 50_000 ==> PlanCost(RESEND_RULE.plans[0], volume) == Ok(20.0)
    ensures 50_000 < volume <= 51_000 ==> PlanCost(RESEND_RULE.plans[0], volume) == Ok(20.9)
    ensures 99_000 < volume <= 100_000 ==> PlanCost(RESEND_RULE.plans[0], volume) == Ok(65.0)
  {
    var plan := RESEND_RULE.plans[0];
    if volume <= 50_000 { PlanCostIs(plan, volume, 0); }
    else if volume <= 51_000 { PlanCostIs(plan, volume, 1); }
    else if 99_000 < volume <= 100_000 { PlanCostIs(plan, volume, 50); }
  }

  /** At SES two thousand messages cost 0.20; with half a megabyte attached to each, and an address, 0.12 for
      each of the thousand megabytes over 1024, and 24.95, are added. */
  lemma SesPrices(usage: Usage)
    requires usage.averageAttachmentMegabytes == Some(0.512)
    ensures Amount(SES_RULE, SES, usage, 2_000) ==
            Ok(Some(0.2 + 0.12 + if usage.dedicatedIpRequired then 24.95 else 0.0))
  {
    SesPlan();
    SesAddress();
    SesAttachments();
    AmountIs(SES_RULE, SES, usage, 2_000, 0.2, 24.95);
  }

  lemma SesPlan()
    ensures Divides(SES_RULE) && PlanCost(SES_RULE.plans[0], 2_000) == Ok(0.2)
  {
    PlanCostIs(SES_RULE.plans[0], 2_000, 2);
  }

  lemma SesAttachments()
    ensures AttachmentCost(SES_RULE, "ses", 2_000, Some(0.512)) == 0.12
  {
    SesData();
    assert Gigabytes(2_000, 0.512) == 1.0;
    assert Times(1.0, 0.12) == 0.12;
  }

  /** The amount is made up of the plan, of attachments, and of an address where one is wanted. */
  lemma AmountIs(rule: PricingRule, serviceId: string, usage: Usage, volume: int, base: real, address: real)
    requires rule.plans != [] && Divides(rule) && PlanCost(rule.plans[0], volume) == Ok(base)
    requires DedicatedIp(rule) == Some(address)
    ensures Amount(rule, serviceId, usage, volume) ==
            Ok(Some(base + AttachmentCost(rule, serviceId, volume, usage.averageAttachmentMegabytes)
                    + if usage.dedicatedIpRequired then address else 0.0))
  {
  }

  /** Attachments cost something at SES only. */
  lemma OnlySesBillsData(rule: PricingRule, serviceId: string, volume: int, megabytes: Option<real>)
    requires serviceId != "ses" || megabytes.None?
    ensures AttachmentCost(rule, serviceId, volume, megabytes) == 0.0
  {
  }

  lemma StartIsIncluded(part: string, rest: string)
    ensures Includes(part + rest, part)
  {
  }

  lemma AddressNames()
    ensures !Includes(ATTACHMENT_DATA, DEDICATED_IP)
    ensures Includes(DEDICATED_IP, DEDICATED_IP) && Includes("dedicated-ip-standard", DEDICATED_IP)
  {
    StartsNowhere(ATTACHMENT_DATA, DEDICATED_IP);
    StandardName();
    StartIsIncluded(DEDICATED_IP, "");
    assert DEDICATED_IP + "" == DEDICATED_IP;
  }

  lemma StandardName()
    ensures Includes("dedicated-ip-standard", DEDICATED_IP)
  {
    var name := DEDICATED_IP + "-standard";
    StartIsIncluded(DEDICATED_IP, "-standard");
    assert name == "dedicated-ip-standard";
  }

  lemma SesAddress()
    ensures DedicatedIp(SES_RULE) == Some(24.95)
  {
    AddressNames();
    SecondPrice(
      AddOn(ATTACHMENT_DATA, 0.12), AddOn("dedicated-ip-standard", 24.95), (a: AddOn) => Includes(a.id, DEDICATED_IP));
  }

  lemma SecondPrice(a: AddOn, b: AddOn, wanted: AddOn -> bool)
    requires !wanted(a) && wanted(b)
    ensures FirstPrice([a, b], wanted) == Some(b.unitPrice)
  {
    FirstPriceAt([a, b], 1, wanted);
  }

  lemma SesData()
    ensures DataPrice(SES_RULE) == 0.12
  {
    FirstPriceAt(SES_RULE.addOns, 0, (a: AddOn) => a.id == ATTACHMENT_DATA);
  }

  lemma ResendAddress()
    ensures DedicatedIp(RESEND_RULE) == Some(30.0)
  {
    AddressNames();
    FirstPriceAt(RESEND_RULE.addOns, 0, (a: AddOn) => Includes(a.id, DEDICATED_IP));
  }

  lemma {:induction false} FirstPriceAt(addOns: seq<AddOn>, i: nat, wanted: AddOn -> bool)
    requires i < |addOns| && wanted(addOns[i]) && forall j :: 0 <= j < i ==> !wanted(addOns[j])
    ensures FirstPrice(addOns, wanted) == Some(addOns[i].unitPrice)
  {
    if i > 0 {
      assert forall j :: 0 <= j < i - 1 ==> addOns[1..][j] == addOns[j + 1];
      FirstPriceAt(addOns[1..], i - 1, wanted);
    }
  }

  /** A price is stale if its date or today's cannot be read, or if it is older than so many days. */
  lemma StaleIff(verifiedAt: Option<int>, now: Option<int>, days: int)
    ensures IsStale(verifiedAt, now, days) <==>
            verifiedAt.None? || now.None? || now.value > verifiedAt.value + days * 24 * 60 * 60 * 1000
  {
  }

  /** The providers of the shipped catalog. */
  lemma Providers()
    ensures Catalog().Keys == {"resend", "ses", "postmark"}
    ensures Catalog()["resend"] == RESEND_RULE && Catalog()["ses"] == SES_RULE && Catalog()["postmark"] == POSTMARK_RULE
  {
  }

  /** The catalog has no amount exactly where no plan takes the volume. */
  lemma NoAmountIff(rule: PricingRule, serviceId: string, usage: Usage, volume: int)
    requires Divides(rule)
    ensures Amount(rule, serviceId, usage, volume).Err? <==> NoPlanFor(rule, volume)
  {
  }

  /** What is supplied is all that can be missing. */
  lemma SuppliedIff(rule: PricingRule, approved: bool, serviceId: string, usage: Usage)
    ensures !Supplied(rule, approved, serviceId, usage) <==>
            || !approved || usage.currency != rule.currency || usage.monthlyVolume.None?
            || (serviceId == "ses" && (usage.region.None? || usage.region.value == ""))
  {
  }
}
