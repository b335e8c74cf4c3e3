/** Whether a service should be replaced: savings, their value after cost and risk, and the time they take to
    pay back. Amounts are reals. */
module Recommendation {
  import opened Wrappers
  import opened PriceRanges
  import opened MigrationEffort

  datatype Support = Exact | WithChanges | Unsupported | UnverifiedSupport

  datatype CompatibilityStatus = Compatible | CompatibleWithChanges | Unverified | Incompatible

  datatype CapabilityAssessment = CapabilityAssessment(required: bool, support: Support)

  datatype Compatibility = Compatibility(
    status: CompatibilityStatus, capabilities: seq<CapabilityAssessment>, unknowns: seq<string>)

  datatype Snapshot = Snapshot(monthlyCost: Range, stale: bool)

  datatype Policy = Policy(
    minimumAnnualSavings: real, maximumPaybackMonths: real, allowReplaceWithChangedCapabilities: bool,
    maximumAnnualOperationalCost: Option<real>)

  datatype Advice = Keep | Investigate | Replace | InsufficientData

  datatype Recommended = Recommended(advice: Advice, annualSavings: Range, value: Range, paybackMonths: Range)

  /** `Number.MAX_SAFE_INTEGER` */
  const MAX_SAFE: real := 9007199254740991.0

  const EMPTY := Range(0.0, 0.0, 0.0)

  function AtLeastZero(x: real): real {
    if x >= 0.0 then x else 0.0
  }

  function Clamped(minimum: real, likely: real, maximum: real): Range {
    Range(AtLeastZero(minimum), AtLeastZero(likely), AtLeastZero(maximum))
  }

  function AnnualSavings(current: Range, target: Range): Range {
    Clamped(
      (current.minimum - target.maximum) * 12.0, (current.likely - target.likely) * 12.0,
      (current.maximum - target.minimum) * 12.0)
  }

  function RiskAdjusted(savings: Range, e: Estimate): Range {
    Clamped(
      savings.minimum - e.engineeringCost.maximum - e.operationalCostChangeAnnual.maximum - e.riskAllowance.maximum,
      savings.likely - e.engineeringCost.likely - e.operationalCostChangeAnnual.likely - e.riskAllowance.likely,
      savings.maximum - e.engineeringCost.minimum - e.operationalCostChangeAnnual.minimum - e.riskAllowance.minimum)
  }

  /** The months in which yearly savings pay back what was spent, or the largest number if there are none. */
  function Months(spent: real, savings: real): real {
    if savings > 0.0 then spent / (savings / 12.0) else MAX_SAFE
  }

  function Payback(savings: Range, e: Estimate): Range {
    Clamped(
      Months(e.engineeringCost.minimum + e.riskAllowance.minimum, savings.maximum),
      Months(e.engineeringCost.likely + e.riskAllowance.likely, savings.likely),
      Months(e.engineeringCost.maximum + e.riskAllowance.maximum, savings.minimum))
  }

  predicate Required(c: Compatibility, support: Support) {
    exists a :: a in c.capabilities && a.required && a.support == support
  }

  /** The status claims more than the required capabilities show. */
  predicate Contradictory(c: Compatibility) {
    || (c.status == Compatible && exists a :: a in c.capabilities && a.required && a.support != Exact)
    || (c.status == CompatibleWithChanges && (Required(c, Unsupported) || Required(c, UnverifiedSupport)))
  }

  predicate Unresolved(c: Compatibility, current: Option<Snapshot>, target: Option<Snapshot>) {
    c.status == Unverified || c.unknowns != [] || current.None? || target.None? || current.value.stale
      || target.value.stale
  }

  predicate ClearsPolicy(c: Compatibility, savings: Range, value: Range, months: Range, e: Estimate, policy: Policy) {
    && (c.status != CompatibleWithChanges || policy.allowReplaceWithChangedCapabilities)
    && (policy.maximumAnnualOperationalCost.None?
        || e.operationalCostChangeAnnual.likely <= policy.maximumAnnualOperationalCost.value)
    && savings.likely >= policy.minimumAnnualSavings
    && value.likely > 0.0
    && months.likely <= policy.maximumPaybackMonths
  }

  function RecommendServiceChange(
    c: Compatibility, current: Option<Snapshot>, target: Option<Snapshot>, e: Estimate, policy: Policy): Recommended
  {
    if Contradictory(c) then Recommended(Investigate, EMPTY, EMPTY, EMPTY)
    else if c.status == Incompatible then Recommended(Keep, EMPTY, EMPTY, EMPTY)
    else if Unresolved(c, current, target) then
      Recommended(if current.Some? && target.Some? then Investigate else InsufficientData, EMPTY, EMPTY, EMPTY)
    else
      var savings := AnnualSavings(current.value.monthlyCost, target.value.monthlyCost);
      var value, months := RiskAdjusted(savings, e), Payback(savings, e);
      Recommended(if ClearsPolicy(c, savings, value, months, e, policy) then Replace else Keep, savings, value, months)
  }

  // ---- the ranges stay ordered ----

  lemma SavingsAreOrdered(current: Range, target: Range)
    requires Ordered(current) && Ordered(target)
    ensures Ordered(AnnualSavings(current, target)) && NonNegative(AnnualSavings(current, target))
  {
  }

  predicate OrderedCosts(e: Estimate) {
    Ordered(e.engineeringCost) && Ordered(e.operationalCostChangeAnnual) && Ordered(e.riskAllowance)
  }

  lemma ValueIsOrdered(savings: Range, e: Estimate)
    requires Ordered(savings) && OrderedCosts(e)
    ensures Ordered(RiskAdjusted(savings, e)) && NonNegative(RiskAdjusted(savings, e))
  {
  }

  predicate NonNegativeCosts(e: Estimate) {
    NonNegative(e.engineeringCost) && NonNegative(e.riskAllowance)
  }

  lemma QuotientIsMonotone(a: real, b: real, s: real, t: real)
    requires 0.0 <= a <= b && 0.0 < s <= t
    ensures 0.0 <= a / t <= b / s
  {
    assert a / t * t == a && b / s * s == b;
    var p, q := a / t, b / s;
    if p > q { assert p * t > q * t >= q * s; }
  }

  lemma MonthsAreMonotone(a: real, b: real, s: real, t: real)
    requires 0.0 <= a <= b && 0.0 < s <= t
    ensures 0.0 <= Months(a, t) <= Months(b, s)
  {
    QuotientIsMonotone(a, b, s / 12.0, t / 12.0);
  }

  /** The payback range is ordered exactly if no quotient is larger than the number that stands for "never": the
      least where only the greatest savings are positive, the likely one where only the least savings are not. */
  lemma PaybackIsOrderedIff(savings: Range, e: Estimate)
    requires Ordered(savings) && NonNegative(savings) && OrderedCosts(e) && NonNegativeCosts(e)
    ensures var least := Months(e.engineeringCost.minimum + e.riskAllowance.minimum, savings.maximum);
            var likely := Months(e.engineeringCost.likely + e.riskAllowance.likely, savings.likely);
            Ordered(Payback(savings, e)) <==>
              && (savings.likely == 0.0 ==> least <= MAX_SAFE)
              && (savings.minimum == 0.0 ==> likely <= MAX_SAFE)
  {
    var a := e.engineeringCost.minimum + e.riskAllowance.minimum;
    var b := e.engineeringCost.likely + e.riskAllowance.likely;
    var c := e.engineeringCost.maximum + e.riskAllowance.maximum;
    if savings.maximum > 0.0 { MonthsAreMonotone(a, a, savings.maximum, savings.maximum); }
    if savings.likely > 0.0 {
      MonthsAreMonotone(a, b, savings.likely, savings.maximum);
      MonthsAreMonotone(b, b, savings.likely, savings.likely);
    }
    if savings.minimum > 0.0 {
      MonthsAreMonotone(b, c, savings.minimum, savings.likely);
      MonthsAreMonotone(c, c, savings.minimum, savings.minimum);
    }
  }

  /** An estimate of a migration has the order and the signs that the lemmas above ask for. */
  lemma EstimatesAreSound(i: EffortInput, operational: Range)
    requires ValidInput(i) && Ordered(operational)
    ensures OrderedCosts(EstimateOf(i, operational)) && NonNegativeCosts(EstimateOf(i, operational))
  {
    EstimateIsOrdered(i, operational);
  }

  // ---- when to replace ----

  /** What is replaced pays back in less than twelve months on the likely figures, whatever payback the policy
      would allow. */
  lemma ReplacePaysBackWithinAYear(
    c: Compatibility, current: Option<Snapshot>, target: Option<Snapshot>, e: Estimate, policy: Policy)
    requires NonNegativeCosts(e) && e.operationalCostChangeAnnual.likely >= 0.0
    requires RecommendServiceChange(c, current, target, e, policy).advice == Replace
    ensures RecommendServiceChange(c, current, target, e, policy).paybackMonths.likely < 12.0
  {
    var savings := AnnualSavings(current.value.monthlyCost, target.value.monthlyCost);
    var spent := e.engineeringCost.likely + e.riskAllowance.likely;
    assert spent < savings.likely;
    var monthly := savings.likely / 12.0;
    assert spent < monthly * 12.0;
    QuotientBelow(spent, monthly, 12.0);
  }

  lemma QuotientBelow(a: real, b: real, k: real)
    requires 0.0 <= a < b * k && b > 0.0
    ensures 0.0 <= a / b < k
  {
    var q := a / b;
    assert q * b == a;
  }

  /** A replacement is advised exactly if both prices are known and fresh, nothing is unknown, the required
      capabilities bear out a status that allows it, and the policy is cleared. */
  lemma ReplaceIff(
    c: Compatibility, current: Option<Snapshot>, target: Option<Snapshot>, e: Estimate, policy: Policy)
    ensures RecommendServiceChange(c, current, target, e, policy).advice == Replace <==>
            && current.Some? && target.Some? && !current.value.stale && !target.value.stale && c.unknowns == []
            && ((c.status == Compatible && forall a :: a in c.capabilities && a.required ==> a.support == Exact)
                || (c.status == CompatibleWithChanges && policy.allowReplaceWithChangedCapabilities
                    && forall a :: a in c.capabilities && a.required ==>
                        a.support == Exact || a.support == WithChanges))
            && var savings := (current.value.monthlyCost.likely - target.value.monthlyCost.likely) * 12.0;
               var cost := e.engineeringCost.likely + e.riskAllowance.likely;
               && (policy.maximumAnnualOperationalCost.None?
                   || e.operationalCostChangeAnnual.likely <= policy.maximumAnnualOperationalCost.value)
               && AtLeastZero(savings) >= policy.minimumAnnualSavings
               && AtLeastZero(savings) > cost + e.operationalCostChangeAnnual.likely
               && AtLeastZero(Months(cost, AtLeastZero(savings))) <= policy.maximumPaybackMonths
  {
  }

  /** The status claims what the required capabilities do not show: an exact match of which one is not exact, or a match
      with changes of which one is unsupported or was not verified. */
  predicate Overclaims(c: Compatibility) {
    exists a :: a in c.capabilities && a.required
                && ((c.status == Compatible && a.support != Exact)
                    || (c.status == CompatibleWithChanges
                      && (a.support == Unsupported || a.support == UnverifiedSupport)))
  }

  predicate Open(c: Compatibility, current: Option<Snapshot>, target: Option<Snapshot>) {
    || c.status == Unverified || c.unknowns != [] || current.None? || target.None?
    || current.value.stale || target.value.stale
  }

  lemma OverclaimsIff(c: Compatibility)
    ensures Contradictory(c) <==> Overclaims(c)
  {
  }

  /** More data is asked for exactly if a price is missing and neither the status settles the question nor the
      capabilities contradict it. */
  lemma InsufficientDataIff(
    c: Compatibility, current: Option<Snapshot>, target: Option<Snapshot>, e: Estimate, policy: Policy)
    ensures RecommendServiceChange(c, current, target, e, policy).advice == InsufficientData <==>
            !Overclaims(c) && c.status != Incompatible && (current.None? || target.None?)
  {
    OverclaimsIff(c);
  }

  /** A closer look is advised exactly at such a contradiction, or where both prices are there and something is open. */
  lemma InvestigateIff(
    c: Compatibility, current: Option<Snapshot>, target: Option<Snapshot>, e: Estimate, policy: Policy)
    ensures RecommendServiceChange(c, current, target, e, policy).advice == Investigate <==>
            || Overclaims(c)
            || (c.status != Incompatible && current.Some? && target.Some? && Open(c, current, target))
  {
    OverclaimsIff(c);
  }

  /** The service is kept exactly if it cannot be replaced, or all is known and some clause of the policy is not met. */
  lemma KeepIff(
    c: Compatibility, current: Option<Snapshot>, target: Option<Snapshot>, e: Estimate, policy: Policy)
    ensures RecommendServiceChange(c, current, target, e, policy).advice == Keep <==>
            && !Overclaims(c)
            && (c.status == Incompatible
                || (!Open(c, current, target)
                    && RecommendServiceChange(c, current, target, e, policy).advice != Replace))
  {
    OverclaimsIff(c);
  }

  /** Nothing is promised where nothing was compared; otherwise the amounts are those of the two prices and the
      estimate. */
  lemma AmountsAre(
    c: Compatibility, current: Option<Snapshot>, target: Option<Snapshot>, e: Estimate, policy: Policy)
    ensures var r := RecommendServiceChange(c, current, target, e, policy);
            if Overclaims(c) || c.status == Incompatible || Open(c, current, target) then
              r.annualSavings == r.value == r.paybackMonths == Range(0.0, 0.0, 0.0)
            else
              var now, later := current.value.monthlyCost, target.value.monthlyCost;
              && r.annualSavings.minimum == AtLeastZero(12.0 * (now.minimum - later.maximum))
              && r.annualSavings.likely == AtLeastZero(12.0 * (now.likely - later.likely))
              && r.annualSavings.maximum == AtLeastZero(12.0 * (now.maximum - later.minimum))
              && r.value.minimum == AtLeastZero(r.annualSavings.minimum - TotalCost(
                   e.engineeringCost.maximum, e.operationalCostChangeAnnual.maximum, e.riskAllowance.maximum))
              && r.value.likely == AtLeastZero(r.annualSavings.likely - TotalCost(
                   e.engineeringCost.likely, e.operationalCostChangeAnnual.likely, e.riskAllowance.likely))
              && r.value.maximum == AtLeastZero(r.annualSavings.maximum - TotalCost(
                   e.engineeringCost.minimum, e.operationalCostChangeAnnual.minimum, e.riskAllowance.minimum))
  {
    OverclaimsIff(c);
  }

  function TotalCost(engineering: real, operation: real, risk: real): real {
    engineering + operation + risk
  }

  /** Where savings are positive, the months of each part pay back its cost: their share of the yearly savings
      is what is spent at the other end of the range. */
  lemma PaybackPaysBack(savings: Range, e: Estimate)
    requires NonNegativeCosts(e)
    ensures var months := Payback(savings, e);
            && (if savings.maximum > 0.0 then
                  months.minimum * savings.maximum == 12.0 * (e.engineeringCost.minimum + e.riskAllowance.minimum)
                else months.minimum == 9007199254740991.0)
            && (if savings.likely > 0.0 then
                  months.likely * savings.likely == 12.0 * (e.engineeringCost.likely + e.riskAllowance.likely)
                else months.likely == 9007199254740991.0)
            && (if savings.minimum > 0.0 then
                  months.maximum * savings.minimum == 12.0 * (e.engineeringCost.maximum + e.riskAllowance.maximum)
                else months.maximum == 9007199254740991.0)
  {
    if savings.maximum > 0.0 { MonthsPayBack(e.engineeringCost.minimum + e.riskAllowance.minimum, savings.maximum); }
    if savings.likely > 0.0 { MonthsPayBack(e.engineeringCost.likely + e.riskAllowance.likely, savings.likely); }
    if savings.minimum > 0.0 { MonthsPayBack(e.engineeringCost.maximum + e.riskAllowance.maximum, savings.minimum); }
  }

  lemma MonthsPayBack(spent: real, savings: real)
    requires spent >= 0.0 && savings > 0.0
    ensures Months(spent, savings) >= 0.0 && Months(spent, savings) * savings == 12.0 * spent
  {
    var monthly := savings / 12.0;
    QuotientIsMonotone(spent, spent, monthly, monthly);
    assert Months(spent, savings) * monthly == spent;
    assert savings == 12.0 * monthly;
  }
}
