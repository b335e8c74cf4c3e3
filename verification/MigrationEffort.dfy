/** The estimate of what a migration costs: hours added up driver by driver and rounded at every step, then
    priced. */
module MigrationEffort {
  import opened Wrappers
  import opened Rounding
  import opened PriceRanges

  // ---- operational complexity ----

  datatype Target = Ses | Postmark

  datatype ComplexityInput = ComplexityInput(
    target: Target, deliveryEvents: bool, inboundEmail: bool, dedicatedIp: bool, multipleRegions: bool,
      ownerHourlyCost: real)

  datatype ComplexityLevel = LowComplexity | MediumComplexity | HighComplexity

  datatype ComplexityReason =
    | OwnerOperations | EventOwnership | InboundState | AddressReputation | RegionWork | NoDriver

  datatype Complexity = Complexity(level: ComplexityLevel, annualCost: Range, reasons: seq<ComplexityReason>)

  function Points(condition: bool, points: nat): nat {
    if condition then points else 0
  }

  function Score(i: ComplexityInput): nat {
    Points(i.target == Ses, 2) + Points(i.deliveryEvents, 1) + Points(i.inboundEmail, 2) + Points(i.dedicatedIp, 2)
    + Points(i.multipleRegions, 2)
  }

  function LevelOf(score: nat): ComplexityLevel {
    if score >= 6 then HighComplexity else if score >= 3 then MediumComplexity else LowComplexity
  }

  function Priced(hours: Range, hourly: real): Range {
    Range(CentProduct(hours.minimum, hourly), CentProduct(hours.likely, hourly), CentProduct(hours.maximum, hourly))
  }

  /** Eight, sixteen and twenty-eight hours a year for every point. */
  function AnnualHours(score: nat): Range {
    Range((score * 8) as real, (score * 16) as real, (score * 28) as real)
  }

  lemma WholeHours(n: int)
    ensures Cents(n as real) == n as real
  {
    assert n as real * 100.0 == (n * 100) as real;
    CentsNear(n as real);
  }

  method AssessOperationalComplexity(i: ComplexityInput) returns (r: Result<Complexity>)
    ensures r.Ok? <==> i.ownerHourlyCost > 0.0
    ensures r.Ok? ==>
        r.value.level == LevelOf(Score(i)) && r.value.annualCost == Priced(AnnualHours(Score(i)), i.ownerHourlyCost)
    ensures r.Ok? ==> (OwnerOperations in r.value.reasons <==> i.target == Ses)
                      && (EventOwnership in r.value.reasons <==> i.deliveryEvents)
                      && (InboundState in r.value.reasons <==> i.inboundEmail)
                      && (AddressReputation in r.value.reasons <==> i.dedicatedIp)
                      && (RegionWork in r.value.reasons <==> i.multipleRegions)
                      && (NoDriver in r.value.reasons <==> Score(i) == 0)
  {
    if i.ownerHourlyCost <= 0.0 { return Err("Owner hourly cost must be a positive finite number."); }
    var score := 0;
    var reasons: seq<ComplexityReason> := [];
    if i.target == Ses { score, reasons := 2, [OwnerOperations]; }
    if i.deliveryEvents { score, reasons := score + 1, reasons + [EventOwnership]; }
    if i.inboundEmail { score, reasons := score + 2, reasons + [InboundState]; }
    if i.dedicatedIp { score, reasons := score + 2, reasons + [AddressReputation]; }
    if i.multipleRegions { score, reasons := score + 2, reasons + [RegionWork]; }
    WholeHours(score * 8);
    WholeHours(score * 16);
    WholeHours(score * 28);
    var hours := CentRange((score * 8) as real, (score * 16) as real, (score * 28) as real);
    if reasons == [] { reasons := [NoDriver]; }
    r := Ok(Complexity(LevelOf(score), Priced(hours, i.ownerHourlyCost), reasons));
  }

  lemma PricedIsOrdered(hours: Range, hourly: real)
    requires NonNegative(hours) && Ordered(hours) && hourly >= 0.0
    ensures Ordered(Priced(hours, hourly)) && NonNegative(Priced(hours, hourly))
  {
    CentProductMonotone(hours.minimum, hours.likely, hourly, hourly);
    CentProductMonotone(hours.likely, hours.maximum, hourly, hourly);
  }

  lemma PricedIsMonotone(r: Range, s: Range, k: real, l: real)
    requires NonNegative(r) && Below(r, s) && 0.0 <= k <= l
    ensures Below(Priced(r, k), Priced(s, l))
  {
    CentProductMonotone(r.minimum, s.minimum, k, l);
    CentProductMonotone(r.likely, s.likely, k, l);
    CentProductMonotone(r.maximum, s.maximum, k, l);
  }

  /** Whoever asks for more pays no less, and nothing of what is asked lowers the level. */
  predicate AsksNoMore(i: ComplexityInput, j: ComplexityInput) {
    && (i.target == Ses ==> j.target == Ses) && (i.deliveryEvents ==> j.deliveryEvents)
    && (i.inboundEmail ==> j.inboundEmail) && (i.dedicatedIp ==> j.dedicatedIp)
    && (i.multipleRegions ==> j.multipleRegions) && i.ownerHourlyCost <= j.ownerHourlyCost
  }

  function LevelRank(level: ComplexityLevel): nat {
    match level
    case LowComplexity => 0
    case MediumComplexity => 1
    case HighComplexity => 2
  }

  lemma LevelsAreOrdered()
    ensures LevelRank(LowComplexity) < LevelRank(MediumComplexity) < LevelRank(HighComplexity)
  {
  }

  lemma ComplexityIsMonotone(i: ComplexityInput, j: ComplexityInput)
    requires AsksNoMore(i, j) && i.ownerHourlyCost > 0.0
    ensures LevelRank(LevelOf(Score(i))) <= LevelRank(LevelOf(Score(j)))
    ensures Below(Priced(AnnualHours(Score(i)), i.ownerHourlyCost), Priced(AnnualHours(Score(j)), j.ownerHourlyCost))
    ensures Ordered(Priced(AnnualHours(Score(i)), i.ownerHourlyCost))
  {
    PricedIsMonotone(AnnualHours(Score(i)), AnnualHours(Score(j)), i.ownerHourlyCost, j.ownerHourlyCost);
    PricedIsOrdered(AnnualHours(Score(i)), i.ownerHourlyCost);
  }

  /** Each end of a range of hours costs its rate. */
  lemma PricedIs(hours: Range, hourly: real)
    ensures Priced(hours, hourly).minimum == CentProduct(hours.minimum, hourly)
    ensures Priced(hours, hourly).likely == CentProduct(hours.likely, hourly)
    ensures Priced(hours, hourly).maximum == CentProduct(hours.maximum, hourly)
  {
  }

  /** In figures: two points for SES, one for delivery events, two for each of the other wishes; from three
      points on the complexity is medium, from six on high, and a point takes between 8 and 28 hours a year,
      likely 16. */
  lemma ComplexityInFigures(i: ComplexityInput)
    ensures var points := (if i.target == Ses then 2 else 0) + (if i.deliveryEvents then 1 else 0)
              + (if i.inboundEmail then 2 else 0) + (if i.dedicatedIp then 2 else 0)
                + (if i.multipleRegions then 2 else 0);
            && Score(i) == points
            && (LevelOf(points) == LowComplexity <==> points <= 2)
            && (LevelOf(points) == HighComplexity <==> points >= 6)
            && AnnualHours(points) == Range(8.0 * points as real, 16.0 * points as real, 28.0 * points as real)
  {
  }

  // ---- effort ----

  datatype DataMovement = NoData | BoundedData | SubstantialData
  datatype TestingScope = Focused | Integration | EndToEnd
  datatype Rollout = SimpleRollout | Staged | Parallel
  datatype Rollback = SimpleRollback | Stateful

  datatype EffortInput = EffortInput(
    affectedFiles: int, changedCapabilities: int, configurationChanges: int, dnsChanges: int,
      infrastructureChanges: int,
    dataMovement: DataMovement, testingScope: TestingScope, rollout: Rollout, rollback: Rollback, ownerHourlyCost: real)

  datatype Estimate = Estimate(
    engineeringHours: Range, engineeringCost: Range, operationalCostChangeAnnual: Range, riskAllowance: Range)

  predicate ValidInput(i: EffortInput) {
    && i.ownerHourlyCost > 0.0
    && i.affectedFiles >= 0 && i.changedCapabilities >= 0 && i.configurationChanges >= 0 && i.dnsChanges >= 0
    && i.infrastructureChanges >= 0
  }

  function DataHours(d: DataMovement): Range {
    match d
    case NoData => Range(0.0, 0.0, 0.0)
    case BoundedData => Range(2.0, 4.0, 8.0)
    case SubstantialData => Range(8.0, 20.0, 40.0)
  }

  function TestingHours(t: TestingScope): Range {
    match t
    case Focused => Range(2.0, 4.0, 6.0)
    case Integration => Range(4.0, 8.0, 14.0)
    case EndToEnd => Range(8.0, 16.0, 28.0)
  }

  function RolloutHours(r: Rollout): Range {
    match r
    case SimpleRollout => Range(1.0, 2.0, 4.0)
    case Staged => Range(3.0, 6.0, 10.0)
    case Parallel => Range(6.0, 12.0, 20.0)
  }

  function RollbackHours(r: Rollback): Range {
    match r
    case SimpleRollback => Range(1.0, 2.0, 4.0)
    case Stateful => Range(4.0, 8.0, 16.0)
  }

  function Times(count: int, minimum: real, likely: real, maximum: real): Range {
    Range(count as real * minimum, count as real * likely, count as real * maximum)
  }

  function Plus(r: Range, s: Range): Range {
    Range(r.minimum + s.minimum, r.likely + s.likely, r.maximum + s.maximum)
  }

  /** The hours for what was counted, without any rounding. */
  function CountedHours(i: EffortInput): Range {
    Plus(Plus(Plus(Plus(Plus(Range(4.0, 6.0, 10.0),
      Times(i.affectedFiles, 0.5, 1.0, 1.5)),
      Times(i.changedCapabilities, 1.0, 2.0, 4.0)),
      Times(i.configurationChanges, 0.5, 1.0, 2.0)),
      Times(i.dnsChanges, 1.0, 2.0, 4.0)),
      Times(i.infrastructureChanges, 2.0, 4.0, 8.0))
  }

  /** The hours for what was chosen. */
  function ScopeHours(i: EffortInput, counted: Range): Range {
    Plus(Plus(Plus(Plus(counted,
      DataHours(i.dataMovement)), TestingHours(i.testingScope)), RolloutHours(i.rollout)), RollbackHours(i.rollback))
  }

  function Hours(i: EffortInput): Range {
    ScopeHours(i, CountedHours(i))
  }

  /** What is set aside for risk: a tenth, a fifth and thirty-five hundredths. */
  function Allowance(cost: Range): Range {
    Range(CentProduct(cost.minimum, 0.1), CentProduct(cost.likely, 0.2), CentProduct(cost.maximum, 0.35))
  }

  function EstimateOf(i: EffortInput, operational: Range): Estimate {
    var cost := Priced(Hours(i), i.ownerHourlyCost);
    Estimate(Hours(i), cost, operational, Allowance(cost))
  }

  /** Whole and half hours, which rounding to cents leaves alone. */
  predicate InHalves(r: Range) {
    IsHalves(r.minimum) && IsHalves(r.likely) && IsHalves(r.maximum)
  }

  predicate IsHalves(x: real) {
    x * 2.0 == (x * 2.0).Floor as real
  }

  lemma HalvesAreExact(x: real)
    requires IsHalves(x)
    ensures Cents(x) == x
  {
    var k := (x * 2.0).Floor;
    assert x * 100.0 == (k * 50) as real;
    CentsNear(x);
  }

  lemma HalvesAdd(x: real, y: real)
    requires IsHalves(x) && IsHalves(y)
    ensures IsHalves(x + y)
  {
    var k, l := (x * 2.0).Floor, (y * 2.0).Floor;
    assert (x + y) * 2.0 == (k + l) as real;
  }

  lemma HalvesTimes(count: int, halves: int)
    ensures IsHalves(count as real * (halves as real / 2.0))
  {
    assert count as real * (halves as real / 2.0) * 2.0 == (count * halves) as real;
  }

  /** `range` of what is in halves. */
  lemma RangeOfHalves(r: Range)
    requires InHalves(r)
    ensures CentRange(r.minimum, r.likely, r.maximum) == r
  {
    HalvesAreExact(r.minimum);
    HalvesAreExact(r.likely);
    HalvesAreExact(r.maximum);
  }

  lemma TimesInHalves(count: int, a: int, b: int, c: int)
    ensures InHalves(Times(count, a as real / 2.0, b as real / 2.0, c as real / 2.0))
  {
    HalvesTimes(count, a);
    HalvesTimes(count, b);
    HalvesTimes(count, c);
  }

  /** `add`: one more driver. */
  method Add(hours: Range, values: Range) returns (sum: Range)
    requires InHalves(hours) && InHalves(values)
    ensures sum == Plus(hours, values) && InHalves(sum)
  {
    HalvesAdd(hours.minimum, values.minimum);
    HalvesAdd(hours.likely, values.likely);
    HalvesAdd(hours.maximum, values.maximum);
    RangeOfHalves(values);
    RangeOfHalves(Plus(hours, values));
    var rounded := CentRange(values.minimum, values.likely, values.maximum);
    sum := CentRange(hours.minimum + rounded.minimum, hours.likely + rounded.likely, hours.maximum + rounded.maximum);
  }

  method AddCounts(i: EffortInput) returns (hours: Range)
    ensures hours == CountedHours(i) && InHalves(hours)
  {
    RangeOfHalves(Range(4.0, 6.0, 10.0));
    hours := CentRange(4.0, 6.0, 10.0);
    TimesInHalves(i.affectedFiles, 1, 2, 3);
    hours := Add(hours, Times(i.affectedFiles, 0.5, 1.0, 1.5));
    TimesInHalves(i.changedCapabilities, 2, 4, 8);
    hours := Add(hours, Times(i.changedCapabilities, 1.0, 2.0, 4.0));
    TimesInHalves(i.configurationChanges, 1, 2, 4);
    hours := Add(hours, Times(i.configurationChanges, 0.5, 1.0, 2.0));
    TimesInHalves(i.dnsChanges, 2, 4, 8);
    hours := Add(hours, Times(i.dnsChanges, 1.0, 2.0, 4.0));
    TimesInHalves(i.infrastructureChanges, 4, 8, 16);
    hours := Add(hours, Times(i.infrastructureChanges, 2.0, 4.0, 8.0));
  }

  method AddScope(i: EffortInput, counted: Range) returns (hours: Range)
    requires InHalves(counted)
    ensures hours == ScopeHours(i, counted)
  {
    hours := Add(counted, DataHours(i.dataMovement));
    hours := Add(hours, TestingHours(i.testingScope));
    hours := Add(hours, RolloutHours(i.rollout));
    hours := Add(hours, RollbackHours(i.rollback));
  }

  /** Rounding at each of the steps loses nothing: the hours are the plain sum. */
  method EstimateMigrationEffort(i: EffortInput, operational: Complexity) returns (r: Result<Estimate>)
    ensures r.Ok? <==> ValidInput(i)
    ensures r.Ok? ==> r.value == EstimateOf(i, operational.annualCost)
  {
    if i.ownerHourlyCost <= 0.0 { return Err("Owner hourly cost must be a positive finite number."); }
    if i.affectedFiles < 0 || i.changedCapabilities < 0 || i.configurationChanges < 0 || i.dnsChanges < 0
       || i.infrastructureChanges < 0 {
      return Err("Counts must be non-negative integers.");
    }
    var hours := AddCounts(i);
    hours := AddScope(i, hours);
    var cost := Priced(hours, i.ownerHourlyCost);
    r := Ok(Estimate(hours, cost, operational.annualCost, Allowance(cost)));
  }

  lemma HoursAreOrdered(i: EffortInput)
    requires ValidInput(i)
    ensures Ordered(Hours(i)) && NonNegative(Hours(i))
  {
  }

  /** Every range of the estimate is ordered. */
  lemma EstimateIsOrdered(i: EffortInput, operational: Range)
    requires ValidInput(i) && Ordered(operational)
    ensures var e := EstimateOf(i, operational);
            && Ordered(e.engineeringHours) && Ordered(e.engineeringCost) && Ordered(e.riskAllowance)
            && Ordered(e.operationalCostChangeAnnual)
            && NonNegative(e.engineeringCost) && NonNegative(e.riskAllowance)
  {
    HoursAreOrdered(i);
    PricedIsOrdered(Hours(i), i.ownerHourlyCost);
    var cost := Priced(Hours(i), i.ownerHourlyCost);
    CentProductMonotone(cost.minimum, cost.likely, 0.1, 0.2);
    CentProductMonotone(cost.likely, cost.maximum, 0.2, 0.35);
  }

  /** No count, no choice and no hourly cost of the one is larger. */
  predicate NoLarger(i: EffortInput, j: EffortInput) {
    && i.affectedFiles <= j.affectedFiles && i.changedCapabilities <= j.changedCapabilities
    && i.configurationChanges <= j.configurationChanges && i.dnsChanges <= j.dnsChanges
    && i.infrastructureChanges <= j.infrastructureChanges && i.ownerHourlyCost <= j.ownerHourlyCost
    && Below(DataHours(i.dataMovement), DataHours(j.dataMovement))
    && Below(TestingHours(i.testingScope), TestingHours(j.testingScope))
    && Below(RolloutHours(i.rollout), RolloutHours(j.rollout))
    && Below(RollbackHours(i.rollback), RollbackHours(j.rollback))
  }

  /** More files, capabilities, settings, records or resources, or dearer hours, never cost less. */
  lemma EstimateIsMonotone(i: EffortInput, j: EffortInput, operational: Range)
    requires ValidInput(i) && NoLarger(i, j)
    ensures var d, e := EstimateOf(i, operational), EstimateOf(j, operational);
            && Below(d.engineeringHours, e.engineeringHours) && Below(d.engineeringCost, e.engineeringCost)
            && Below(d.riskAllowance, e.riskAllowance)
  {
    HoursAreOrdered(i);
    PricedIsMonotone(Hours(i), Hours(j), i.ownerHourlyCost, j.ownerHourlyCost);
    var c, d := Priced(Hours(i), i.ownerHourlyCost), Priced(Hours(j), j.ownerHourlyCost);
    PricedIsOrdered(Hours(i), i.ownerHourlyCost);
    CentProductMonotone(c.minimum, d.minimum, 0.1, 0.1);
    CentProductMonotone(c.likely, d.likely, 0.2, 0.2);
    CentProductMonotone(c.maximum, d.maximum, 0.35, 0.35);
  }

  /** The least hours in figures. */
  lemma LeastHours(i: EffortInput)
    ensures Hours(i).minimum ==
            4.0 + 0.5 * i.affectedFiles as real + i.changedCapabilities as real + 0.5 * i.configurationChanges as real
            + i.dnsChanges as real + 2.0 * i.infrastructureChanges as real
            + (if i.dataMovement == NoData then 0.0 else if i.dataMovement == BoundedData then 2.0 else 8.0)
            + (if i.testingScope == Focused then 2.0 else if i.testingScope == Integration then 4.0 else 8.0)
            + (if i.rollout == SimpleRollout then 1.0 else if i.rollout == Staged then 3.0 else 6.0)
            + (if i.rollback == SimpleRollback then 1.0 else 4.0)
  {
  }

  lemma LikelyHours(i: EffortInput)
    ensures Hours(i).likely ==
            6.0 + i.affectedFiles as real + 2.0 * i.changedCapabilities as real + i.configurationChanges as real
            + 2.0 * i.dnsChanges as real + 4.0 * i.infrastructureChanges as real
            + (if i.dataMovement == NoData then 0.0 else if i.dataMovement == BoundedData then 4.0 else 20.0)
            + (if i.testingScope == Focused then 4.0 else if i.testingScope == Integration then 8.0 else 16.0)
            + (if i.rollout == SimpleRollout then 2.0 else if i.rollout == Staged then 6.0 else 12.0)
            + (if i.rollback == SimpleRollback then 2.0 else 8.0)
  {
  }

  lemma MostHours(i: EffortInput)
    ensures Hours(i).maximum ==
            10.0 + 1.5 * i.affectedFiles as real + 4.0 * i.changedCapabilities as real
              + 2.0 * i.configurationChanges as real
            + 4.0 * i.dnsChanges as real + 8.0 * i.infrastructureChanges as real
            + (if i.dataMovement == NoData then 0.0 else if i.dataMovement == BoundedData then 8.0 else 40.0)
            + (if i.testingScope == Focused then 6.0 else if i.testingScope == Integration then 14.0 else 28.0)
            + (if i.rollout == SimpleRollout then 4.0 else if i.rollout == Staged then 10.0 else 20.0)
            + (if i.rollback == SimpleRollback then 4.0 else 16.0)
  {
  }

  /** A tenth, a fifth and thirty-five hundredths of the cost are set aside for risk, in whole cents. */
  lemma AllowanceIs(cost: Range)
    ensures Allowance(cost).minimum == CentProduct(cost.minimum, 0.1)
    ensures Allowance(cost).likely == CentProduct(cost.likely, 0.2)
    ensures Allowance(cost).maximum == CentProduct(cost.maximum, 0.35)
  {
  }

  /** The parts of the estimate follow from one another. */
  lemma PartsOfEstimate(i: EffortInput, operational: Range)
    ensures var e := EstimateOf(i, operational);
            && e.engineeringHours == Hours(i) && e.engineeringCost == Priced(e.engineeringHours, i.ownerHourlyCost)
            && e.riskAllowance == Allowance(e.engineeringCost) && e.operationalCostChangeAnnual == operational
  {
  }
}
