/** The promises of an oath, the evidence that is collected for them, and the report made of it. Running a
    command is a parameter: what it returned for each requirement of each rule. */
module OathEvidence {
  import opened Wrappers
  import opened Lists

  datatype Severity = Critical | High | Medium | Low

  datatype EvidenceKind = Command | Test | Review

  datatype EvidenceStatus = Passed | Failed | HumanReview

  datatype Decision = Ready | ReviewRequired | Blocked

  datatype Requirement = Requirement(kind: EvidenceKind, command: Option<string>, path: Option<string>, required: bool)

  datatype Rule = Rule(id: string, severity: Severity, evidence: seq<Requirement>)

  datatype Oath = Oath(rules: seq<Rule>, requireHumanFor: seq<Severity>)

  /** What the trusted runner returned; there is no exit code for a command that was cut off. */
  datatype Execution = Execution(exitCode: Option<int>, output: string)

  /** The execution of requirement `1` of rule `0`, by position. */
  type Runner = (nat, nat) -> Execution

  datatype EvidenceRecord = EvidenceRecord(
    ruleId: string, kind: EvidenceKind, status: EvidenceStatus, command: Option<string>, exitCode: Option<int>)

  datatype RuleEvaluation = RuleEvaluation(rule: Rule, status: EvidenceStatus, evidence: seq<EvidenceRecord>)

  datatype Report = Report(decision: Decision, passed: nat, failed: nat, humanReview: nat, rules: seq<RuleEvaluation>)

  /** There is a command to run; an empty one counts as none. */
  predicate Executable(r: Requirement) {
    r.kind != Review && r.command.Some? && r.command.value != ""
  }

  function RecordOf(rule: Rule, r: Requirement, result: Execution): EvidenceRecord {
    if !Executable(r) then EvidenceRecord(rule.id, r.kind, HumanReview, None, None)
    else EvidenceRecord(rule.id, r.kind, if result.exitCode == Some(0) then Passed else Failed, r.command,
      result.exitCode)
  }

  /** The records of the first `count` requirements of rule `i`. */
  function RuleRecords(oath: Oath, runner: Runner, i: nat, count: nat): seq<EvidenceRecord>
    requires i < |oath.rules| && count <= |oath.rules[i].evidence|
  {
    if count == 0 then []
    else
      RuleRecords(oath, runner, i, count - 1)
      + [RecordOf(oath.rules[i], oath.rules[i].evidence[count - 1], runner(i, count - 1))]
  }

  /** The records of the first `count` rules. */
  function Records(oath: Oath, runner: Runner, count: nat): seq<EvidenceRecord>
    requires count <= |oath.rules|
  {
    if count == 0 then []
    else Records(oath, runner, count - 1) + RuleRecords(oath, runner, count - 1, |oath.rules[count - 1].evidence|)
  }

  method CollectEvidence(oath: Oath, runner: Runner) returns (records: seq<EvidenceRecord>)
    ensures records == Records(oath, runner, |oath.rules|)
  {
    records := [];
    for i := 0 to |oath.rules|
      invariant records == Records(oath, runner, i)
    {
      var rule := oath.rules[i];
      for j := 0 to |rule.evidence|
        invariant records == Records(oath, runner, i) + RuleRecords(oath, runner, i, j)
      {
        var requirement := rule.evidence[j];
        if requirement.kind == Review {
          records := records + [EvidenceRecord(rule.id, Review, HumanReview, None, None)];
          continue;
        }
        if requirement.command.None? || requirement.command.value == "" {
          records := records + [EvidenceRecord(rule.id, requirement.kind, HumanReview, None, None)];
          continue;
        }
        var result := runner(i, j);
        records := records
          + [EvidenceRecord(rule.id, requirement.kind, if result.exitCode == Some(0) then Passed else Failed,
                            requirement.command, result.exitCode)];
      }
    }
  }

  function OfRule(id: string): EvidenceRecord -> bool { (r: EvidenceRecord) => r.ruleId == id }

  predicate HasStatus(evidence: seq<EvidenceRecord>, status: EvidenceStatus) {
    exists r :: r in evidence && r.status == status
  }

  predicate HasKind(evidence: seq<EvidenceRecord>, kind: EvidenceKind) {
    exists r :: r in evidence && r.kind == kind
  }

  predicate MissesEvidence(rule: Rule, evidence: seq<EvidenceRecord>) {
    exists q :: q in rule.evidence && q.required && !HasKind(evidence, q.kind)
  }

  function EvaluateRule(rule: Rule, records: seq<EvidenceRecord>): RuleEvaluation {
    var evidence := Filter(records, OfRule(rule.id));
    var status :=
      if HasStatus(evidence, Failed) then Failed
      else if MissesEvidence(rule, evidence) || HasStatus(evidence, HumanReview) then HumanReview
      else Passed;
    RuleEvaluation(rule, status, evidence)
  }

  function ByRecords(records: seq<EvidenceRecord>): Rule -> RuleEvaluation {
    (rule: Rule) => EvaluateRule(rule, records)
  }

  function InStatus(status: EvidenceStatus): RuleEvaluation -> bool {
    (e: RuleEvaluation) => e.status == status
  }

  predicate NeedsHuman(oath: Oath, e: RuleEvaluation) {
    e.status == HumanReview || (e.status == Passed && e.rule.severity in oath.requireHumanFor)
  }

  function EvaluateOath(oath: Oath, records: seq<EvidenceRecord>): Report {
    var rules := Map(oath.rules, ByRecords(records));
    var failed := |Filter(rules, InStatus(Failed))|;
    Report(
      if failed > 0 then Blocked
      else if exists e :: e in rules && NeedsHuman(oath, e) then ReviewRequired
      else Ready,
      |Filter(rules, InStatus(Passed))|, failed, |Filter(rules, InStatus(HumanReview))|, rules)
  }

  // ---- what the report means ----

  /** Requirement `j` of rule `i` is kept by a command that ended with exit code zero. */
  predicate Kept(oath: Oath, runner: Runner, i: nat, j: nat)
    requires i < |oath.rules| && j < |oath.rules[i].evidence|
  {
    var r := oath.rules[i].evidence[j];
    r.kind != Review && r.command.Some? && r.command.value != "" && runner(i, j).exitCode == Some(0)
  }

  /** It is broken: its command was run and did not end with exit code zero. */
  predicate Broken(oath: Oath, runner: Runner, i: nat, j: nat)
    requires i < |oath.rules| && j < |oath.rules[i].evidence|
  {
    var r := oath.rules[i].evidence[j];
    r.kind != Review && r.command.Some? && r.command.value != "" && runner(i, j).exitCode != Some(0)
  }

  function RecordAt(oath: Oath, runner: Runner, i: nat, j: nat): EvidenceRecord
    requires i < |oath.rules| && j < |oath.rules[i].evidence|
  {
    RecordOf(oath.rules[i], oath.rules[i].evidence[j], runner(i, j))
  }

  lemma {:induction false} RuleRecordsAre(oath: Oath, runner: Runner, i: nat, count: nat)
    requires i < |oath.rules| && count <= |oath.rules[i].evidence|
    ensures |RuleRecords(oath, runner, i, count)| == count
    ensures forall j :: 0 <= j < count ==> RuleRecords(oath, runner, i, count)[j] == RecordAt(oath, runner, i, j)
  {
    if count > 0 { RuleRecordsAre(oath, runner, i, count - 1); }
  }

  lemma {:induction false} RecordIsCollected(oath: Oath, runner: Runner, i: nat, j: nat, count: nat)
    requires i < count <= |oath.rules| && j < |oath.rules[i].evidence|
    ensures RecordAt(oath, runner, i, j) in Records(oath, runner, count)
  {
    if i == count - 1 {
      RuleRecordsAre(oath, runner, i, |oath.rules[i].evidence|);
      assert RuleRecords(oath, runner, i, |oath.rules[i].evidence|)[j] in Records(oath, runner, count);
    } else {
      RecordIsCollected(oath, runner, i, j, count - 1);
    }
  }

  lemma {:induction false} CollectedIsARecord(oath: Oath, runner: Runner, r: EvidenceRecord, count: nat)
    requires count <= |oath.rules| && r in Records(oath, runner, count)
    ensures exists i, j :: 0 <= i < count && 0 <= j < |oath.rules[i].evidence| && r == RecordAt(oath, runner, i, j)
  {
    var last := RuleRecords(oath, runner, count - 1, |oath.rules[count - 1].evidence|);
    if r in last {
      RuleRecordsAre(oath, runner, count - 1, |oath.rules[count - 1].evidence|);
      var j :| 0 <= j < |last| && last[j] == r;
    } else {
      CollectedIsARecord(oath, runner, r, count - 1);
    }
  }

  /** A rule is judged by the requirements of all rules that have its id. */
  lemma RuleIsJudged(oath: Oath, runner: Runner, rule: Rule, status: EvidenceStatus)
    ensures HasStatus(Filter(Records(oath, runner, |oath.rules|), OfRule(rule.id)), status) <==>
            exists i, j :: 0 <= i < |oath.rules| && 0 <= j < |oath.rules[i].evidence| && oath.rules[i].id == rule.id
                           && RecordAt(oath, runner, i, j).status == status
  {
    var records := Records(oath, runner, |oath.rules|);
    InFilter(records, OfRule(rule.id));
    if r :| r in Filter(records, OfRule(rule.id)) && r.status == status {
      CollectedIsARecord(oath, runner, r, |oath.rules|);
    }
    if i, j :| 0 <= i < |oath.rules| && 0 <= j < |oath.rules[i].evidence| && oath.rules[i].id == rule.id
               && RecordAt(oath, runner, i, j).status == status {
      RecordIsCollected(oath, runner, i, j, |oath.rules|);
      assert RecordAt(oath, runner, i, j) in Filter(records, OfRule(rule.id));
    }
  }

  /** Collected evidence misses no requirement. */
  lemma NothingIsMissed(oath: Oath, runner: Runner, k: nat)
    requires k < |oath.rules|
    ensures !MissesEvidence(oath.rules[k], Filter(Records(oath, runner, |oath.rules|), OfRule(oath.rules[k].id)))
  {
    var records, rule := Records(oath, runner, |oath.rules|), oath.rules[k];
    InFilter(records, OfRule(rule.id));
    forall q | q in rule.evidence ensures HasKind(Filter(records, OfRule(rule.id)), q.kind) {
      var j :| 0 <= j < |rule.evidence| && rule.evidence[j] == q;
      RecordIsCollected(oath, runner, k, j, |oath.rules|);
      assert RecordAt(oath, runner, k, j) in Filter(records, OfRule(rule.id));
    }
  }

  lemma FailedRules(oath: Oath, records: seq<EvidenceRecord>)
    ensures EvaluateOath(oath, records).decision == Blocked <==>
            exists k :: 0 <= k < |oath.rules| && EvaluateRule(oath.rules[k], records).status == Failed
  {
    var rules := Map(oath.rules, ByRecords(records));
    InFilter(rules, InStatus(Failed));
    if |Filter(rules, InStatus(Failed))| > 0 {
      var e := Filter(rules, InStatus(Failed))[0];
      assert e in Filter(rules, InStatus(Failed));
      var k :| 0 <= k < |rules| && rules[k] == e;
    }
    if k :| 0 <= k < |oath.rules| && EvaluateRule(oath.rules[k], records).status == Failed {
      assert rules[k] in Filter(rules, InStatus(Failed));
    }
  }

  lemma RuleFails(oath: Oath, runner: Runner, k: nat)
    requires k < |oath.rules|
    ensures EvaluateRule(oath.rules[k], Records(oath, runner, |oath.rules|)).status == Failed <==>
            exists i, j :: 0 <= i < |oath.rules| && 0 <= j < |oath.rules[i].evidence|
              && oath.rules[i].id == oath.rules[k].id
                           && Broken(oath, runner, i, j)
  {
    RuleIsJudged(oath, runner, oath.rules[k], Failed);
    assert forall i, j :: 0 <= i < |oath.rules| && 0 <= j < |oath.rules[i].evidence| ==>
      (Broken(oath, runner, i, j) <==> RecordAt(oath, runner, i, j).status == Failed);
  }

  /** The report is `blocked` exactly if some command of some rule failed. */
  lemma BlockedIffBroken(oath: Oath, runner: Runner)
    ensures EvaluateOath(oath, Records(oath, runner, |oath.rules|)).decision == Blocked <==>
            exists i, j :: 0 <= i < |oath.rules| && 0 <= j < |oath.rules[i].evidence| && Broken(oath, runner, i, j)
  {
    FailedRules(oath, Records(oath, runner, |oath.rules|));
    forall k | 0 <= k < |oath.rules|
      ensures EvaluateRule(oath.rules[k], Records(oath, runner, |oath.rules|)).status == Failed <==>
              exists i, j :: 0 <= i < |oath.rules| && 0 <= j < |oath.rules[i].evidence|
                && oath.rules[i].id == oath.rules[k].id
                             && Broken(oath, runner, i, j) {
      RuleFails(oath, runner, k);
    }
  }

  lemma ReadyRules(oath: Oath, records: seq<EvidenceRecord>)
    ensures EvaluateOath(oath, records).decision == Ready <==>
            forall k :: 0 <= k < |oath.rules| ==>
              EvaluateRule(oath.rules[k], records).status == Passed && oath.rules[k].severity !in oath.requireHumanFor
  {
    var rules := Map(oath.rules, ByRecords(records));
    FailedRules(oath, records);
    if EvaluateOath(oath, records).decision == Ready {
      forall k | 0 <= k < |oath.rules| ensures !NeedsHuman(oath, EvaluateRule(oath.rules[k], records)) {
        assert rules[k] in rules;
      }
    }
    if forall k :: 0 <= k < |oath.rules| ==>
      EvaluateRule(oath.rules[k], records).status == Passed && oath.rules[k].severity !in oath.requireHumanFor {
      forall e | e in rules ensures !NeedsHuman(oath, e) {
        var k :| 0 <= k < |rules| && rules[k] == e;
      }
    }
  }

  lemma RulePasses(oath: Oath, runner: Runner, k: nat)
    requires k < |oath.rules|
    ensures EvaluateRule(oath.rules[k], Records(oath, runner, |oath.rules|)).status == Passed <==>
            forall i, j :: 0 <= i < |oath.rules| && 0 <= j < |oath.rules[i].evidence|
                && oath.rules[i].id == oath.rules[k].id
              ==> Kept(oath, runner, i, j)
  {
    RuleIsJudged(oath, runner, oath.rules[k], Failed);
    RuleIsJudged(oath, runner, oath.rules[k], HumanReview);
    NothingIsMissed(oath, runner, k);
    assert forall i, j :: 0 <= i < |oath.rules| && 0 <= j < |oath.rules[i].evidence| ==>
      (Kept(oath, runner, i, j) <==> RecordAt(oath, runner, i, j).status == Passed);
  }

  /** The report is `ready` exactly if every requirement of every rule is kept by a command that ended with
      exit code zero, and no rule is of a severity that needs a human. Rule ids need not be unique. */
  lemma ReadyIffKept(oath: Oath, runner: Runner)
    ensures EvaluateOath(oath, Records(oath, runner, |oath.rules|)).decision == Ready <==>
            && (forall i, j :: 0 <= i < |oath.rules| && 0 <= j < |oath.rules[i].evidence| ==> Kept(oath, runner, i, j))
            && (forall i :: 0 <= i < |oath.rules| ==> oath.rules[i].severity !in oath.requireHumanFor)
  {
    ReadyRules(oath, Records(oath, runner, |oath.rules|));
    forall k | 0 <= k < |oath.rules|
      ensures EvaluateRule(oath.rules[k], Records(oath, runner, |oath.rules|)).status == Passed <==>
              forall i, j :: 0 <= i < |oath.rules| && 0 <= j < |oath.rules[i].evidence|
                  && oath.rules[i].id == oath.rules[k].id
                ==> Kept(oath, runner, i, j) {
      RulePasses(oath, runner, k);
    }
  }

  /** Every rule is counted in the summary, once. */
  lemma {:induction false} SummaryAddsUp(rules: seq<RuleEvaluation>)
    ensures |Filter(rules, InStatus(Passed))| + |Filter(rules, InStatus(Failed))|
        + |Filter(rules, InStatus(HumanReview))| == |rules|
  {
    if rules != [] { SummaryAddsUp(rules[1..]); }
  }

  /** The positions of the rules that ended in a status. */
  function RulesIn(report: Report, status: EvidenceStatus): set<nat> {
    set k: nat | k < |report.rules| && report.rules[k].status == status
  }

  lemma StatusCounts(report: Report, status: EvidenceStatus)
    ensures |Filter(report.rules, InStatus(status))| == |RulesIn(report, status)|
  {
    FilterCounts(report.rules, InStatus(status));
    assert Places(report.rules, InStatus(status)) == RulesIn(report, status);
  }

  /** The report judges the rules one by one, and each of its three numbers counts the rules of its status. */
  lemma ReportCounts(oath: Oath, records: seq<EvidenceRecord>)
    ensures var report := EvaluateOath(oath, records);
            && |report.rules| == |oath.rules| == report.passed + report.failed + report.humanReview
            && (forall k :: 0 <= k < |oath.rules| ==> report.rules[k] == EvaluateRule(oath.rules[k], records))
            && report.passed == |RulesIn(report, Passed)| && report.failed == |RulesIn(report, Failed)|
            && report.humanReview == |RulesIn(report, HumanReview)|
  {
    var report := EvaluateOath(oath, records);
    SummaryAddsUp(report.rules);
    StatusCounts(report, Passed);
    StatusCounts(report, Failed);
    StatusCounts(report, HumanReview);
  }
}
