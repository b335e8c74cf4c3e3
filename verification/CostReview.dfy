/** The review of what a repair does to the monthly cost of the infrastructure. Amounts are reals. */
module CostReview {
  import opened Wrappers
  import opened Rounding

  datatype CostStatus = NotApplicable | CostPassed | CostReviewRequired | CostBlocked

  datatype Policy = Policy(
    enabled: bool, requireEstimate: bool, currency: string,
    maxMonthlyIncrease: Option<real>, maxPercentageIncrease: Option<real>)

  datatype Estimate = Estimate(monthlyCost: real, currency: string, unsupportedResources: seq<string>)

  datatype Scan = Scan(output: string, durationMs: nat)

  /** What is known of the cost of the two versions; any part may be missing. */
  datatype Inputs = Inputs(
    baseline: Option<Estimate>, proposed: Option<Estimate>,
    baselineScan: Option<Scan>, proposedScan: Option<Scan>,
    baselinePath: Option<string>, proposedPath: Option<string>)

  datatype Reason =
    | NothingDetected | NoEstimate | OverMonthlyLimit | OverPercentageLimit | WrongCurrency | NotPriced
    | OwnerReview | WithinPolicy

  datatype Amounts = Amounts(baseline: real, proposed: real, change: real, percentage: real)

  datatype Evidence = Evidence(status: CostStatus, amounts: Option<Amounts>, reasons: seq<Reason>, durationMs: nat)

  /** `rounded` */
  function Rounded(x: real): real {
    Cents(x + EPSILON)
  }

  function Change(baseline: real, proposed: real): real {
    Rounded(proposed - baseline)
  }

  function Percentage(baseline: real, proposed: real): real {
    if baseline == 0.0 then (if proposed == 0.0 then 0.0 else 100.0)
    else Rounded(Change(baseline, proposed) / baseline * 100.0)
  }

  predicate Given(path: Option<string>) {
    path.Some? && path.value != ""
  }

  predicate Complete(i: Inputs) {
    && i.baseline.Some? && i.proposed.Some? && i.baselineScan.Some? && i.proposedScan.Some?
    && Given(i.baselinePath) && Given(i.proposedPath)
  }

  predicate Exceeds(amount: real, limit: Option<real>) {
    limit.Some? && amount > limit.value
  }

  /** The status that a complete comparison is given. */
  function Judged(policy: Policy, baseline: Estimate, proposed: Estimate): CostStatus {
    var change := Change(baseline.monthlyCost, proposed.monthlyCost);
    var percentage := Percentage(baseline.monthlyCost, proposed.monthlyCost);
    var unpriced := proposed.unsupportedResources != [];
    if || Exceeds(change, policy.maxMonthlyIncrease)
       || Exceeds(percentage, policy.maxPercentageIncrease)
       || proposed.currency != policy.currency || baseline.currency != policy.currency
       || (unpriced && policy.requireEstimate)
    then CostBlocked
    else if change > 0.0 || unpriced then CostReviewRequired
    else CostPassed
  }

  /** What there is to say against the proposed version. */
  function Objections(policy: Policy, baseline: Estimate, proposed: Estimate): set<Reason> {
    (if Exceeds(Change(baseline.monthlyCost, proposed.monthlyCost), policy.maxMonthlyIncrease)
      then {OverMonthlyLimit} else {})
    + (if Exceeds(Percentage(baseline.monthlyCost, proposed.monthlyCost), policy.maxPercentageIncrease)
       then {OverPercentageLimit} else {})
    + (if proposed.currency != policy.currency || baseline.currency != policy.currency then {WrongCurrency} else {})
    + (if proposed.unsupportedResources != [] then {NotPriced} else {})
  }

  function StatusOf(policy: Policy, detectedFiles: seq<string>, i: Inputs): CostStatus {
    if detectedFiles == [] then NotApplicable
    else if !Complete(i) then (if policy.requireEstimate then CostBlocked else CostReviewRequired)
    else Judged(policy, i.baseline.value, i.proposed.value)
  }

  function DurationOf(scan: Option<Scan>): nat {
    if scan.Some? then scan.value.durationMs else 0
  }

  method EvaluateCostChange(policy: Policy, detectedFiles: seq<string>, i: Inputs) returns (evidence: Evidence)
    ensures evidence.status == StatusOf(policy, detectedFiles, i)
    ensures evidence.amounts.Some? <==>
              && detectedFiles != [] && i.baseline.Some? && i.proposed.Some? && i.baselineScan.Some?
              && i.proposedScan.Some?
              && i.baselinePath.Some? && i.baselinePath.value != "" && i.proposedPath.Some?
              && i.proposedPath.value != ""
    ensures evidence.amounts.Some? ==>
              var b, p := i.baseline.value.monthlyCost, i.proposed.value.monthlyCost;
              evidence.amounts.value == Amounts(Rounded(b), Rounded(p), Change(b, p), Percentage(b, p))
    ensures evidence.amounts.None? ==> evidence.reasons == [if detectedFiles == [] then NothingDetected else NoEstimate]
    ensures evidence.amounts.Some? ==>
              && evidence.reasons != []
              && forall r :: r in Objections(policy, i.baseline.value, i.proposed.value) <==>
                             r in evidence.reasons && r != OwnerReview && r != WithinPolicy
    ensures evidence.durationMs ==
            if detectedFiles == [] then 0
            else (if i.baselineScan.Some? then i.baselineScan.value.durationMs else 0)
                 + if i.proposedScan.Some? then i.proposedScan.value.durationMs else 0
  {
    if detectedFiles == [] {
      return Evidence(NotApplicable, None, [NothingDetected], 0);
    }
    var durationMs := DurationOf(i.baselineScan) + DurationOf(i.proposedScan);
    if !Complete(i) {
      return Evidence(if policy.requireEstimate then CostBlocked else CostReviewRequired, None, [NoEstimate],
        durationMs);
    }
    var baseline, proposed := i.baseline.value, i.proposed.value;
    var change := Rounded(proposed.monthlyCost - baseline.monthlyCost);
    var percentage :=
      if baseline.monthlyCost == 0.0 then (if proposed.monthlyCost == 0.0 then 0.0 else 100.0)
      else Rounded(change / baseline.monthlyCost * 100.0);
    var reasons: seq<Reason> := [];
    if policy.maxMonthlyIncrease.Some? && change > policy.maxMonthlyIncrease.value {
      reasons := reasons + [OverMonthlyLimit];
    }
    if policy.maxPercentageIncrease.Some? && percentage > policy.maxPercentageIncrease.value {
      reasons := reasons + [OverPercentageLimit];
    }
    if proposed.currency != policy.currency || baseline.currency != policy.currency {
      reasons := reasons + [WrongCurrency];
    }
    var blocked := |reasons| > 0;
    if proposed.unsupportedResources != [] {
      reasons := reasons + [NotPriced];
      blocked := blocked || policy.requireEstimate;
    }
    var reviewRequired := change > 0.0 || proposed.unsupportedResources != [];
    evidence := Evidence(
      if blocked then CostBlocked else if reviewRequired then CostReviewRequired else CostPassed,
      Some(Amounts(Rounded(baseline.monthlyCost), Rounded(proposed.monthlyCost), change, percentage)),
      if reasons != [] then reasons else [if change > 0.0 then OwnerReview else WithinPolicy],
      durationMs);
  }

  /** The limits that the parser of an oath lets through. */
  predicate ValidPolicy(policy: Policy) {
    && (policy.maxMonthlyIncrease.Some? ==> policy.maxMonthlyIncrease.value >= 0.0)
    && (policy.maxPercentageIncrease.Some? ==> policy.maxPercentageIncrease.value >= 0.0)
  }

  lemma RoundedSign(x: real)
    ensures Rounded(x) <= 0.0 <==> x < 0.005 - EPSILON
  {
    CentsSign(x + EPSILON);
  }

  /** A fall that is priced at least as a whole cent has no positive percentage. */
  lemma PercentageOfFall(baseline: real, proposed: real)
    requires baseline >= 0.0 && proposed >= 0.0 && Change(baseline, proposed) <= 0.0
    ensures Percentage(baseline, proposed) <= 0.0 || (baseline == 0.0 && proposed > 0.0)
  {
    if baseline > 0.0 {
      var quotient := Change(baseline, proposed) / baseline;
      assert quotient <= 0.0;
      RoundedSign(quotient * 100.0);
    }
  }

  /** The cost is passed exactly if infrastructure was found, both versions are estimated in the currency of
      the policy and in full, and the cost grows by less than half a cent; but where nothing was paid before,
      even a smaller growth counts as a hundred percent. */
  lemma CostPassesIff(policy: Policy, detectedFiles: seq<string>, i: Inputs)
    requires ValidPolicy(policy)
    requires Complete(i) ==> i.baseline.value.monthlyCost >= 0.0 && i.proposed.value.monthlyCost >= 0.0
    ensures StatusOf(policy, detectedFiles, i) == CostPassed <==>
            && detectedFiles != [] && Complete(i)
            && i.baseline.value.currency == policy.currency == i.proposed.value.currency
            && i.proposed.value.unsupportedResources == []
            && i.proposed.value.monthlyCost - i.baseline.value.monthlyCost < 0.005 - EPSILON
            && (i.baseline.value.monthlyCost == 0.0 < i.proposed.value.monthlyCost ==>
                  !Exceeds(100.0, policy.maxPercentageIncrease))
  {
    if Complete(i) {
      var b, p := i.baseline.value.monthlyCost, i.proposed.value.monthlyCost;
      RoundedSign(p - b);
      if Change(b, p) <= 0.0 { PercentageOfFall(b, p); }
    }
  }

  /** Without the assumption on the amounts, what a passing cost still tells. */
  lemma CostPassesOnlyIf(policy: Policy, detectedFiles: seq<string>, i: Inputs)
    requires StatusOf(policy, detectedFiles, i) == CostPassed
    ensures Complete(i) && i.proposed.value.monthlyCost - i.baseline.value.monthlyCost < 0.005 - EPSILON
    ensures i.baseline.value.currency == policy.currency == i.proposed.value.currency
    ensures i.proposed.value.unsupportedResources == []
  {
    RoundedSign(i.proposed.value.monthlyCost - i.baseline.value.monthlyCost);
  }

  // ---- what blocks, and what asks for a review ----

  /** The amount exceeds the limit once it is rounded: it reaches the middle before the next whole cent above
      the limit. */
  predicate Above(amount: real, limit: real) {
    amount + EPSILON >= ((limit * 100.0).Floor as real + 0.5) / 100.0
  }

  lemma RoundedAboveIff(amount: real, limit: real)
    ensures Rounded(amount) > limit <==> Above(amount, limit)
  {
    var cents, whole := Round((amount + EPSILON) * 100.0), (limit * 100.0).Floor;
    assert Rounded(amount) > limit <==> cents as real > limit * 100.0;
    assert cents as real > limit * 100.0 <==> cents >= whole + 1;
    assert cents >= whole + 1 <==> (amount + EPSILON) * 100.0 + 0.5 >= (whole + 1) as real;
  }

  /** A rounded amount is a number of cents, no further from the amount than half a cent. */
  lemma RoundedIsNearest(x: real)
    ensures Rounded(x) * 100.0 == (Rounded(x) * 100.0).Floor as real
    ensures x + EPSILON - 0.005 < Rounded(x) <= x + EPSILON + 0.005
  {
    CentsNear(x + EPSILON);
    assert Rounded(x) * 100.0 == Round((x + EPSILON) * 100.0) as real;
  }

  /** The rise in percent of what was paid before, where something was. */
  predicate PercentageAbove(b: real, p: real, limit: real) {
    if b == 0.0 then (if p == 0.0 then 0.0 else 100.0) > limit else Above(Rounded(p - b) / b * 100.0, limit)
  }

  /** What stops a repair for its cost: an estimate that is asked for and missing, a rise over a limit, another
      currency, or a resource without a price where an estimate is asked for. */
  predicate Stops(policy: Policy, detectedFiles: seq<string>, i: Inputs) {
    && detectedFiles != []
    && if !Complete(i) then policy.requireEstimate
       else
         var b, p := i.baseline.value, i.proposed.value;
         || (policy.maxMonthlyIncrease.Some? && Above(p.monthlyCost - b.monthlyCost, policy.maxMonthlyIncrease.value))
         || (policy.maxPercentageIncrease.Some?
             && PercentageAbove(b.monthlyCost, p.monthlyCost, policy.maxPercentageIncrease.value))
         || b.currency != policy.currency || p.currency != policy.currency
         || (policy.requireEstimate && p.unsupportedResources != [])
  }

  lemma LimitsAreReached(b: real, p: real, limit: real)
    ensures Change(b, p) > limit <==> Above(p - b, limit)
    ensures Percentage(b, p) > limit <==> PercentageAbove(b, p, limit)
  {
    RoundedAboveIff(p - b, limit);
    if b != 0.0 { RoundedAboveIff(Rounded(p - b) / b * 100.0, limit); }
  }

  /** The cost is blocked exactly if one of these stops it. */
  lemma CostBlockedIff(policy: Policy, detectedFiles: seq<string>, i: Inputs)
    ensures StatusOf(policy, detectedFiles, i) == CostBlocked <==> Stops(policy, detectedFiles, i)
  {
    if Complete(i) {
      var b, p := i.baseline.value.monthlyCost, i.proposed.value.monthlyCost;
      if policy.maxMonthlyIncrease.Some? { LimitsAreReached(b, p, policy.maxMonthlyIncrease.value); }
      if policy.maxPercentageIncrease.Some? { LimitsAreReached(b, p, policy.maxPercentageIncrease.value); }
    }
  }

  /** It is left to the owner exactly if nothing stops it, and an estimate is missing, the cost rises by half a cent or
      more, or a resource has no price. */
  lemma CostReviewRequiredIff(policy: Policy, detectedFiles: seq<string>, i: Inputs)
    ensures StatusOf(policy, detectedFiles, i) == CostReviewRequired <==>
            && detectedFiles != [] && !Stops(policy, detectedFiles, i)
            && (!Complete(i) || i.proposed.value.unsupportedResources != []
                || i.proposed.value.monthlyCost - i.baseline.value.monthlyCost >= 0.005 - EPSILON)
  {
    CostBlockedIff(policy, detectedFiles, i);
    if Complete(i) { RoundedSign(i.proposed.value.monthlyCost - i.baseline.value.monthlyCost); }
  }

  lemma CostNotApplicableIff(policy: Policy, detectedFiles: seq<string>, i: Inputs)
    ensures StatusOf(policy, detectedFiles, i) == NotApplicable <==> detectedFiles == []
  {
  }

  /** Which objection is raised when. */
  lemma ObjectionsAre(policy: Policy, baseline: Estimate, proposed: Estimate)
    ensures var r, b, p := Objections(policy, baseline, proposed), baseline.monthlyCost, proposed.monthlyCost;
            && (OverMonthlyLimit in r <==>
                  policy.maxMonthlyIncrease.Some? && Above(p - b, policy.maxMonthlyIncrease.value))
            && (OverPercentageLimit in r <==>
                  policy.maxPercentageIncrease.Some? && PercentageAbove(b, p, policy.maxPercentageIncrease.value))
            && (WrongCurrency in r <==> proposed.currency != policy.currency || baseline.currency != policy.currency)
            && (NotPriced in r <==> proposed.unsupportedResources != [])
            && r <= {OverMonthlyLimit, OverPercentageLimit, WrongCurrency, NotPriced}
  {
    var b, p := baseline.monthlyCost, proposed.monthlyCost;
    if policy.maxMonthlyIncrease.Some? { LimitsAreReached(b, p, policy.maxMonthlyIncrease.value); }
    if policy.maxPercentageIncrease.Some? { LimitsAreReached(b, p, policy.maxPercentageIncrease.value); }
  }
}
