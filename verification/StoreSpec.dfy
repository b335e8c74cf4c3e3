/** What each operation of the control-plane store does to its document, as a function of the document,
    and the integrity that every operation keeps. */
module StoreSpec {
  import opened Wrappers
  import opened Lists
  import opened RunRecords

  datatype Data = Data(
    incidents: seq<Incident>, runs: seq<Run>, approvals: seq<Approval>, attestations: seq<Attestation>,
    logs: seq<Log>, auditEvents: seq<AuditEvent>, mappings: seq<RepositoryRecord>,
    repositories: seq<RepositoryRecord>, knowledge: seq<RepositoryRecord>,
    optimizerAnalyses: seq<RepositoryRecord>, questions: seq<RepositoryRecord>)

  const EMPTY: Data := Data([], [], [], [], [], [], [], [], [], [], [])

  // ----- Lookups ---------------------------------------------------------------------------------

  /** The position of the first run with this id. */
  function IndexOf(runs: seq<Run>, id: string): (r: Option<nat>)
    ensures r.Some? ==> r.value < |runs| && runs[r.value].id == id
    ensures r.None? ==> forall i :: 0 <= i < |runs| ==> runs[i].id != id
  {
    if runs == [] then None
    else if runs[0].id == id then Some(0)
    else
      match IndexOf(runs[1..], id)
      case None => None
      case Some(i) => Some(i + 1)
  }

  function DeliveryKey(i: Incident): (string, string) { (i.source, i.externalId) }

  function FindDelivery(incidents: seq<Incident>, key: (string, string)): (r: Option<Incident>)
    ensures r.Some? ==> r.value in incidents && DeliveryKey(r.value) == key
    ensures r.None? ==> forall x :: x in incidents ==> DeliveryKey(x) != key
  {
    if incidents == [] then None
    else if DeliveryKey(incidents[0]) == key then Some(incidents[0])
    else FindDelivery(incidents[1..], key)
  }

  function FindRunOf(runs: seq<Run>, incidentId: string): (r: Option<Run>)
    ensures r.Some? ==> r.value in runs && r.value.incidentId == incidentId
    ensures r.None? ==> forall x :: x in runs ==> x.incidentId != incidentId
  {
    if runs == [] then None
    else if runs[0].incidentId == incidentId then Some(runs[0])
    else FindRunOf(runs[1..], incidentId)
  }

  /** The oldest claimable run, the first of several created at the same time: what filtering, stable
      sorting by creation time and taking the first element select. */
  function OldestClaimable(runs: seq<Run>, now: int): (r: Option<nat>)
    ensures r.Some? ==> r.value < |runs| && Claimable(runs[r.value], now)
    ensures r.Some? ==> forall i :: 0 <= i < |runs| && Claimable(runs[i], now) ==>
              runs[r.value].createdAt < runs[i].createdAt
                || (runs[r.value].createdAt == runs[i].createdAt && r.value <= i)
    ensures r.None? ==> forall i :: 0 <= i < |runs| ==> !Claimable(runs[i], now)
  {
    if runs == [] then None
    else
      match OldestClaimable(runs[1..], now)
      case None => if Claimable(runs[0], now) then Some(0) else None
      case Some(i) =>
        if Claimable(runs[0], now) && runs[0].createdAt <= runs[i + 1].createdAt then Some(0) else Some(i + 1)
  }

  // ----- Operations ------------------------------------------------------------------------------

  datatype Delivery = Delivery(incident: Incident, run: Run, duplicate: bool)

  function AnswerTo(d: Data, incident: Incident, run: Run): Delivery {
    match FindDelivery(d.incidents, DeliveryKey(incident))
    case None => Delivery(incident, run, false)
    case Some(existing) =>
      match FindRunOf(d.runs, existing.id)
      case None => Delivery(existing, run, true)
      case Some(stored) => Delivery(existing, stored, true)
  }

  function AfterDelivery(d: Data, incident: Incident, run: Run): Data {
    if FindDelivery(d.incidents, DeliveryKey(incident)).Some? then d
    else d.(incidents := d.incidents + [incident], runs := d.runs + [run])
  }

  function WithRun(d: Data, i: nat, r: Run): Data
    requires i < |d.runs|
  {
    d.(runs := d.runs[i := r])
  }

  function AfterClaim(d: Data, workerId: string, leaseMs: nat, now: int): Data {
    match OldestClaimable(d.runs, now)
    case None => d
    case Some(i) => WithRun(d, i, Claimed(d.runs[i], workerId, now, leaseMs))
  }

  function AfterUpdate(d: Data, id: string, u: RunUpdate, now: int): Result<Data> {
    match IndexOf(d.runs, id)
    case None => Err("Run was not found.")
    case Some(i) => Ok(WithRun(d, i, Patched(d.runs[i], u, now)))
  }

  function AfterCancellation(d: Data, id: string, now: int): Result<Data> {
    match IndexOf(d.runs, id)
    case None => Err("Run was not found.")
    case Some(i) => Ok(WithRun(d, i, CancelAsked(d.runs[i], now)))
  }

  function AfterRetry(d: Data, id: string, now: int): Result<Data> {
    match IndexOf(d.runs, id)
    case None => Err("Run was not found.")
    case Some(i) =>
      if !Retryable(d.runs[i]) then Err("Run is not retryable.") else Ok(WithRun(d, i, Retried(d.runs[i], now)))
  }

  function AfterDecision(d: Data, approval: Approval, attestation: Attestation, audit: AuditEvent): Result<Data> {
    if attestation.runId != approval.runId then Err("The final attestation does not belong to this approval.")
    else
      match IndexOf(d.runs, approval.runId)
      case None => Err("Run was not found.")
      case Some(i) =>
        if d.runs[i].status != AwaitingApproval then Err("Run is not awaiting approval.")
        else Ok(WithRun(d, i, Decided(d.runs[i], approval.approved, approval.createdAt)).(
                  approvals := d.approvals + [approval], attestations := d.attestations + [attestation],
                  auditEvents := d.auditEvents + [audit]))
  }

  function RunIds(d: Data, repository: string): set<string> {
    set r | r in d.runs && r.repository == repository :: r.id
  }

  function IncidentIds(d: Data, repository: string): set<string> {
    set r | r in d.runs && r.repository == repository :: r.incidentId
  }

  predicate HasRun(runs: seq<Run>, incidentId: string) {
    exists r :: r in runs && r.incidentId == incidentId
  }

  /** What `deleteRepositoryData` keeps of each collection. */
  function KeepsRun(ids: set<string>): Run -> bool { (r: Run) => r.id !in ids }
  function KeepsApproval(ids: set<string>): Approval -> bool { (a: Approval) => a.runId !in ids }
  function KeepsAttestation(ids: set<string>): Attestation -> bool { (a: Attestation) => a.runId !in ids }
  function KeepsLog(ids: set<string>): Log -> bool { (l: Log) => l.runId !in ids }
  function KeepsAudit(ids: set<string>, repository: string): AuditEvent -> bool {
    (e: AuditEvent) => e.repository != Some(repository) && (e.runId.None? || e.runId.value !in ids)
  }
  function KeepsRecord(repository: string): RepositoryRecord -> bool {
    (x: RepositoryRecord) => x.repository != repository
  }
  function KeepsIncident(ids: set<string>, runs: seq<Run>): Incident -> bool {
    (i: Incident) => i.id !in ids || HasRun(runs, i.id)
  }

  function AfterDeletion(d: Data, repository: string): Data {
    var ids := RunIds(d, repository);
    var runs := Filter(d.runs, KeepsRun(ids));
    Data(Filter(d.incidents, KeepsIncident(IncidentIds(d, repository), runs)), runs,
         Filter(d.approvals, KeepsApproval(ids)), Filter(d.attestations, KeepsAttestation(ids)),
         Filter(d.logs, KeepsLog(ids)), Filter(d.auditEvents, KeepsAudit(ids, repository)),
         Filter(d.mappings, KeepsRecord(repository)), Filter(d.repositories, KeepsRecord(repository)),
         Filter(d.knowledge, KeepsRecord(repository)), Filter(d.optimizerAnalyses, KeepsRecord(repository)),
         Filter(d.questions, KeepsRecord(repository)))
  }

  function RepairIds(runs: seq<Run>, repository: string): seq<string> {
    if runs == [] then []
    else (if runs[0].repository == repository && runs[0].repairId.Some? then [runs[0].repairId.value] else [])
         + RepairIds(runs[1..], repository)
  }

  function Size(d: Data): nat {
    |d.incidents| + |d.runs| + |d.approvals| + |d.logs| + |d.mappings| + |d.attestations| + |d.auditEvents|
    + |d.repositories| + |d.knowledge| + |d.optimizerAnalyses| + |d.questions|
  }

  datatype Operation =
    | Deliver(incident: Incident, run: Run)
    | Claim(workerId: string, leaseMs: nat, now: int)
    | Update(id: string, update: RunUpdate, now: int)
    | Cancel(id: string, now: int)
    | Retry(id: string, now: int)
    | Decide(approval: Approval, attestation: Attestation, audit: AuditEvent)
    | AppendLog(log: Log)
    | AppendAudit(event: AuditEvent)
    | DeleteRepository(repository: string)

  /** The document after an operation; an operation that throws leaves it as it was. */
  function After(d: Data, op: Operation): Data {
    match op
    case Deliver(incident, run) => AfterDelivery(d, incident, run)
    case Claim(workerId, leaseMs, now) => AfterClaim(d, workerId, leaseMs, now)
    case Update(id, u, now) => OrSame(d, AfterUpdate(d, id, u, now))
    case Cancel(id, now) => OrSame(d, AfterCancellation(d, id, now))
    case Retry(id, now) => OrSame(d, AfterRetry(d, id, now))
    case Decide(approval, attestation, audit) => OrSame(d, AfterDecision(d, approval, attestation, audit))
    case AppendLog(log) => d.(logs := d.logs + [log])
    case AppendAudit(event) => d.(auditEvents := d.auditEvents + [event])
    case DeleteRepository(repository) => AfterDeletion(d, repository)
  }

  function OrSame(d: Data, r: Result<Data>): Data { if r.Ok? then r.value else d }

  function AfterAll(d: Data, ops: seq<Operation>): Data
    decreases |ops|
  {
    if ops == [] then d else AfterAll(After(d, ops[0]), ops[1..])
  }

  // ----- Integrity -------------------------------------------------------------------------------

  function RunId(r: Run): string { r.id }
  function IncidentId(i: Incident): string { i.id }

  ghost predicate HasIncident(incidents: seq<Incident>, id: string) {
    exists i :: i in incidents && i.id == id
  }

  ghost predicate HasRunIn(runs: seq<Run>, id: string, repository: string) {
    exists r :: r in runs && r.id == id && r.repository == repository
  }

  ghost predicate HasRunNamed(runs: seq<Run>, id: string) {
    exists r :: r in runs && r.id == id
  }

  function IncidentOf(r: Run): string { r.incidentId }

  /** Ids and deliveries are unique, and every record names stored ones. */
  ghost predicate References(d: Data) {
    && UniqueBy(d.incidents, IncidentId) && UniqueBy(d.incidents, DeliveryKey) && UniqueBy(d.runs, RunId)
    && (forall r :: r in d.runs ==> HasIncident(d.incidents, r.incidentId))
    && (forall i :: i in d.incidents ==> HasRun(d.runs, i.id))
    && (forall a :: a in d.approvals ==> HasRunNamed(d.runs, a.runId))
    && (forall a :: a in d.attestations ==> HasRunIn(d.runs, a.runId, a.repository))
  }

  /** Each incident has one run. */
  ghost predicate Integrity(d: Data) {
    References(d) && UniqueBy(d.runs, IncidentOf)
  }

  /** What the callers of the store provide: new random ids, a run for its incident, and an attestation
      built from the stored run. */
  ghost predicate Admissible(d: Data, op: Operation) {
    match op
    case Deliver(incident, run) =>
      && run.incidentId == incident.id && !HasRunNamed(d.runs, run.id) && !HasIncident(d.incidents, incident.id)
    case Decide(_, attestation, _) =>
      forall r :: r in d.runs && r.id == attestation.runId ==> r.repository == attestation.repository
    case _ => true
  }

  ghost predicate AllAdmissible(d: Data, ops: seq<Operation>)
    decreases |ops|
  {
    ops != [] ==> Admissible(d, ops[0]) && AllAdmissible(After(d, ops[0]), ops[1..])
  }

  /** Replacing one run by a run of the same identity keeps every reference. */
  lemma RewriteKeepsIntegrity(d: Data, i: nat, r: Run)
    requires Integrity(d) && i < |d.runs|
    requires r.id == d.runs[i].id && r.incidentId == d.runs[i].incidentId && r.repository == d.runs[i].repository
    ensures Integrity(WithRun(d, i, r))
  {
    var runs := d.runs[i := r];
    forall x | x in d.runs ensures exists y ::
        y in runs && y.id == x.id && y.incidentId == x.incidentId && y.repository == x.repository {
      var j :| 0 <= j < |d.runs| && d.runs[j] == x;
      assert runs[j] in runs;
    }
    forall y | y in runs ensures HasIncident(d.incidents, y.incidentId) {
      var j :| 0 <= j < |runs| && runs[j] == y;
      assert d.runs[j] in d.runs;
    }
    assert forall j :: 0 <= j < |runs| ==>
        RunId(runs[j]) == RunId(d.runs[j]) && IncidentOf(runs[j]) == IncidentOf(d.runs[j]);
  }

  lemma DeliveryKeepsIntegrity(d: Data, incident: Incident, run: Run)
    requires Integrity(d) && Admissible(d, Deliver(incident, run))
    ensures Integrity(AfterDelivery(d, incident, run))
  {
    if FindDelivery(d.incidents, DeliveryKey(incident)).None? {
      AppendUnique(d.incidents, incident, IncidentId);
      AppendUnique(d.incidents, incident, DeliveryKey);
      AppendUnique(d.runs, run, RunId);
      AppendUnique(d.runs, run, IncidentOf);
      AppendKeepsReferences(d, incident, run);
    }
  }

  lemma AppendKeepsReferences(d: Data, incident: Incident, run: Run)
    requires References(d) && run.incidentId == incident.id
    ensures var incidents, runs := d.incidents + [incident], d.runs + [run];
            && (forall r :: r in runs ==> HasIncident(incidents, r.incidentId))
            && (forall i :: i in incidents ==> HasRun(runs, i.id))
            && (forall a :: a in d.approvals ==> HasRunNamed(runs, a.runId))
            && (forall a :: a in d.attestations ==> HasRunIn(runs, a.runId, a.repository))
  {
    var incidents, runs := d.incidents + [incident], d.runs + [run];
    assert incident in incidents && run in runs;
    forall r | r in runs ensures HasIncident(incidents, r.incidentId) {
      if r in d.runs { var i :| i in d.incidents && i.id == r.incidentId; assert i in incidents; }
    }
    forall i | i in incidents ensures HasRun(runs, i.id) {
      if i in d.incidents { var r :| r in d.runs && r.incidentId == i.id; assert r in runs; }
    }
    forall a | a in d.approvals ensures HasRunNamed(runs, a.runId) {
      var r :| r in d.runs && r.id == a.runId;
      assert r in runs;
    }
    forall a | a in d.attestations ensures HasRunIn(runs, a.runId, a.repository) {
      var r :| r in d.runs && r.id == a.runId && r.repository == a.repository;
      assert r in runs;
    }
  }

  lemma DecisionKeepsIntegrity(d: Data, approval: Approval, attestation: Attestation, audit: AuditEvent)
    requires Integrity(d) && Admissible(d, Decide(approval, attestation, audit))
    ensures Integrity(OrSame(d, AfterDecision(d, approval, attestation, audit)))
  {
    if AfterDecision(d, approval, attestation, audit).Ok? {
      var i := IndexOf(d.runs, approval.runId).value;
      var r := Decided(d.runs[i], approval.approved, approval.createdAt);
      RewriteKeepsIntegrity(d, i, r);
      assert d.runs[i] in d.runs;
      assert d.runs[i := r][i] == r;
      assert HasRunIn(d.runs[i := r], attestation.runId, attestation.repository);
    }
  }

  /** Which runs a deletion keeps: under integrity, exactly those of other repositories. */
  lemma DeletedRuns(d: Data, repository: string)
    requires UniqueBy(d.runs, RunId)
    ensures forall r :: r in AfterDeletion(d, repository).runs <==> r in d.runs && r.repository != repository
    ensures forall r, s :: r in d.runs && s in d.runs && r.id == s.id ==> r == s
  {
    InFilter(d.runs, KeepsRun(RunIds(d, repository)));
    forall r, s | r in d.runs && s in d.runs && r.id == s.id ensures r == s {
      var i :| 0 <= i < |d.runs| && d.runs[i] == r;
      var j :| 0 <= j < |d.runs| && d.runs[j] == s;
      assert RunId(d.runs[i]) == RunId(d.runs[j]);
    }
  }

  lemma DeletionKeepsIntegrity(d: Data, repository: string)
    requires Integrity(d)
    ensures Integrity(AfterDeletion(d, repository))
  {
    var e := AfterDeletion(d, repository);
    DeletedRuns(d, repository);
    InFilter(d.incidents, KeepsIncident(IncidentIds(d, repository), e.runs));
    InFilter(d.approvals, KeepsApproval(RunIds(d, repository)));
    InFilter(d.attestations, KeepsAttestation(RunIds(d, repository)));
    FilterUnique(d.runs, RunId, KeepsRun(RunIds(d, repository)));
    FilterUnique(d.runs, IncidentOf, KeepsRun(RunIds(d, repository)));
    FilterUnique(d.incidents, IncidentId, KeepsIncident(IncidentIds(d, repository), e.runs));
    FilterUnique(d.incidents, DeliveryKey, KeepsIncident(IncidentIds(d, repository), e.runs));
    forall r | r in e.runs ensures HasIncident(e.incidents, r.incidentId) {
      var i :| i in d.incidents && i.id == r.incidentId;
      assert HasRun(e.runs, i.id);
      assert i in e.incidents;
    }
    forall i | i in e.incidents ensures HasRun(e.runs, i.id) {
      var r :| r in d.runs && r.incidentId == i.id;
    }
    forall a | a in e.approvals ensures HasRunNamed(e.runs, a.runId) {
      var r :| r in d.runs && r.id == a.runId;
      assert r in e.runs;
    }
    forall a | a in e.attestations ensures HasRunIn(e.runs, a.runId, a.repository) {
      var r :| r in d.runs && r.id == a.runId && r.repository == a.repository;
      assert r in e.runs;
    }
  }

  lemma OperationKeepsIntegrity(d: Data, op: Operation)
    requires Integrity(d) && Admissible(d, op)
    ensures Integrity(After(d, op))
  {
    match op
    case Deliver(incident, run) => DeliveryKeepsIntegrity(d, incident, run);
    case Claim(workerId, leaseMs, now) =>
      var i := OldestClaimable(d.runs, now);
      if i.Some? { RewriteKeepsIntegrity(d, i.value, Claimed(d.runs[i.value], workerId, now, leaseMs)); }
    case Update(id, u, now) =>
      var i := IndexOf(d.runs, id);
      if i.Some? { RewriteKeepsIntegrity(d, i.value, Patched(d.runs[i.value], u, now)); }
    case Cancel(id, now) =>
      var i := IndexOf(d.runs, id);
      if i.Some? { RewriteKeepsIntegrity(d, i.value, CancelAsked(d.runs[i.value], now)); }
    case Retry(id, now) =>
      var i := IndexOf(d.runs, id);
      if i.Some? { RewriteKeepsIntegrity(d, i.value, Retried(d.runs[i.value], now)); }
    case Decide(approval, attestation, audit) => DecisionKeepsIntegrity(d, approval, attestation, audit);
    case AppendLog(_) =>
    case AppendAudit(_) =>
    case DeleteRepository(repository) => DeletionKeepsIntegrity(d, repository);
  }

  /** Every run of the store over its operations: incidents and runs name each other, no delivery and no
      id is stored twice, and every approval and attestation belongs to a stored run. */
  lemma {:induction false} StoreKeepsIntegrity(d: Data, ops: seq<Operation>)
    requires Integrity(d) && AllAdmissible(d, ops)
    ensures Integrity(AfterAll(d, ops))
    decreases |ops|
  {
    if ops != [] {
      OperationKeepsIntegrity(d, ops[0]);
      StoreKeepsIntegrity(After(d, ops[0]), ops[1..]);
    }
  }

  /** An event recorded for the repository, or about one of its runs. */
  ghost predicate AuditsRepository(x: AuditEvent, d: Data, repository: string) {
    x.repository == Some(repository)
    || (x.runId.Some? && exists r :: r in d.runs && r.id == x.runId.value && r.repository == repository)
  }

  // ----- Deletion --------------------------------------------------------------------------------

  /** Some run of another repository is among the chosen. */
  ghost predicate RunElsewhere(d: Data, repository: string, chosen: Run -> bool) {
    exists r :: r in d.runs && chosen(r) && r.repository != repository
  }

  function About(incidentId: string): Run -> bool { (r: Run) => r.incidentId == incidentId }
  function Named(id: string): Run -> bool { (r: Run) => r.id == id }

  /** A log line may name a run that is gone; then no repository claims it. */
  ghost predicate LogsRepository(l: Log, d: Data, repository: string) {
    exists r :: r in d.runs && r.id == l.runId && r.repository == repository
  }

  /** A deletion removes everything of the repository and nothing of another one. */
  lemma DeletionIsExact(d: Data, repository: string)
    requires References(d)
    ensures var e := AfterDeletion(d, repository);
            && (forall r :: r in e.runs <==> r in d.runs && r.repository != repository)
            && (forall i :: i in e.incidents <==> i in d.incidents && RunElsewhere(d, repository, About(i.id)))
            && (forall a :: a in e.attestations <==> a in d.attestations && a.repository != repository)
            && (forall a :: a in e.approvals <==> a in d.approvals && RunElsewhere(d, repository, Named(a.runId)))
            && (forall l :: l in e.logs <==> l in d.logs && !LogsRepository(l, d, repository))
            && (forall x :: x in e.auditEvents <==> x in d.auditEvents && !AuditsRepository(x, d, repository))
            && (forall x :: x in e.mappings <==> x in d.mappings && x.repository != repository)
            && (forall x :: x in e.repositories <==> x in d.repositories && x.repository != repository)
            && (forall x :: x in e.knowledge <==> x in d.knowledge && x.repository != repository)
            && (forall x :: x in e.optimizerAnalyses <==> x in d.optimizerAnalyses && x.repository != repository)
            && (forall x :: x in e.questions <==> x in d.questions && x.repository != repository)
  {
    RunsDeletedExactly(d, repository);
    InFilter(d.logs, KeepsLog(RunIds(d, repository)));
    InFilter(d.auditEvents, KeepsAudit(RunIds(d, repository), repository));
    InFilter(d.mappings, KeepsRecord(repository));
    InFilter(d.repositories, KeepsRecord(repository));
    InFilter(d.knowledge, KeepsRecord(repository));
    InFilter(d.optimizerAnalyses, KeepsRecord(repository));
    InFilter(d.questions, KeepsRecord(repository));
  }

  /** The records that belong to runs. */
  lemma RunsDeletedExactly(d: Data, repository: string)
    requires References(d)
    ensures var e := AfterDeletion(d, repository);
            && (forall r :: r in e.runs <==> r in d.runs && r.repository != repository)
            && (forall i :: i in e.incidents <==> i in d.incidents && RunElsewhere(d, repository, About(i.id)))
            && (forall a :: a in e.attestations <==> a in d.attestations && a.repository != repository)
            && (forall a :: a in e.approvals <==> a in d.approvals && RunElsewhere(d, repository, Named(a.runId)))
  {
    var e := AfterDeletion(d, repository);
    DeletedRuns(d, repository);
    InFilter(d.incidents, KeepsIncident(IncidentIds(d, repository), e.runs));
    InFilter(d.approvals, KeepsApproval(RunIds(d, repository)));
    InFilter(d.attestations, KeepsAttestation(RunIds(d, repository)));
    forall i ensures i in e.incidents <==> i in d.incidents && RunElsewhere(d, repository, About(i.id)) {
      if i in d.incidents {
        var r :| r in d.runs && r.incidentId == i.id;
        if i in e.incidents && r.repository == repository {
          assert i.id in IncidentIds(d, repository);
          var s :| s in e.runs && s.incidentId == i.id;
          assert About(i.id)(s);
        }
        if s :| s in d.runs && About(i.id)(s) && s.repository != repository {
          assert s in e.runs;
        }
      }
    }
    forall a ensures a in e.attestations <==> a in d.attestations && a.repository != repository {
      if a in d.attestations {
        var r :| r in d.runs && r.id == a.runId && r.repository == a.repository;
      }
    }
    forall a ensures a in e.approvals <==> a in d.approvals && RunElsewhere(d, repository, Named(a.runId)) {
      if a in d.approvals {
        var r :| r in d.runs && r.id == a.runId;
        assert Named(a.runId)(r);
      }
    }
  }

  /** The number it returns is the number of records that are gone, collection by collection. */
  lemma DeletionCountsRemoved(d: Data, repository: string)
    ensures var e, ids := AfterDeletion(d, repository), RunIds(d, repository);
            Size(d) - Size(e) ==
              |Filter(d.runs, (r: Run) => r.id in ids)|
              + |Filter(d.incidents, (i: Incident) => i.id in IncidentIds(d, repository) && !HasRun(e.runs, i.id))|
              + |Filter(d.approvals, (a: Approval) => a.runId in ids)|
                + |Filter(d.attestations, (a: Attestation) => a.runId in ids)|
              + |Filter(d.logs, (l: Log) => l.runId in ids)|
              + |Filter(d.auditEvents, (x: AuditEvent) => x.repository == Some(repository)
                || (x.runId.Some? && x.runId.value in ids))|
              + |Filter(d.mappings, (x: RepositoryRecord) => x.repository == repository)|
              + |Filter(d.repositories, (x: RepositoryRecord) => x.repository == repository)|
              + |Filter(d.knowledge, (x: RepositoryRecord) => x.repository == repository)|
              + |Filter(d.optimizerAnalyses, (x: RepositoryRecord) => x.repository == repository)|
              + |Filter(d.questions, (x: RepositoryRecord) => x.repository == repository)|
  {
    var e, ids := AfterDeletion(d, repository), RunIds(d, repository);
    FilterParts(d.runs, KeepsRun(ids), (r: Run) => r.id in ids);
    FilterParts(d.incidents, KeepsIncident(IncidentIds(d, repository), e.runs),
                (i: Incident) => i.id in IncidentIds(d, repository) && !HasRun(e.runs, i.id));
    FilterParts(d.approvals, KeepsApproval(ids), (a: Approval) => a.runId in ids);
    FilterParts(d.attestations, KeepsAttestation(ids), (a: Attestation) => a.runId in ids);
    FilterParts(d.logs, KeepsLog(ids), (l: Log) => l.runId in ids);
    FilterParts(d.auditEvents, KeepsAudit(ids, repository),
                (x: AuditEvent) => x.repository == Some(repository) || (x.runId.Some? && x.runId.value in ids));
    FilterParts(d.mappings, KeepsRecord(repository), (x: RepositoryRecord) => x.repository == repository);
    FilterParts(d.repositories, KeepsRecord(repository), (x: RepositoryRecord) => x.repository == repository);
    FilterParts(d.knowledge, KeepsRecord(repository), (x: RepositoryRecord) => x.repository == repository);
    FilterParts(d.optimizerAnalyses, KeepsRecord(repository), (x: RepositoryRecord) => x.repository == repository);
    FilterParts(d.questions, KeepsRecord(repository), (x: RepositoryRecord) => x.repository == repository);
  }

  // ----- Repeated delivery -----------------------------------------------------------------------

  predicate Delivers(op: Operation, key: (string, string)) {
    op.Deliver? && DeliveryKey(op.incident) == key
  }

  /** How many deliveries of a key, within a run of operations, were answered as not duplicate. */
  function FreshAnswers(d: Data, ops: seq<Operation>, key: (string, string)): nat
    decreases |ops|
  {
    if ops == [] then 0
    else (if Delivers(ops[0], key) && !AnswerTo(d, ops[0].incident, ops[0].run).duplicate then 1 else 0)
         + FreshAnswers(After(d, ops[0]), ops[1..], key)
  }

  function Stored(d: Data, key: (string, string)): nat {
    |Filter(d.incidents, (i: Incident) => DeliveryKey(i) == key)|
  }

  lemma OperationStores(d: Data, op: Operation, key: (string, string))
    requires !op.DeleteRepository?
    ensures Stored(After(d, op), key) == (if Stored(d, key) == 0 && Delivers(op, key) then 1 else Stored(d, key))
    ensures Delivers(op, key) ==> (AnswerTo(d, op.incident, op.run).duplicate <==> Stored(d, key) > 0)
  {
    var has := (i: Incident) => DeliveryKey(i) == key;
    var found := FindDelivery(d.incidents, key);
    InFilter(d.incidents, has);
    if found.Some? {
      assert found.value in Filter(d.incidents, has);
    } else {
      FilterNone(d.incidents, has);
    }
    if op.Deliver? {
      FilterAppend(d.incidents, op.incident, has);
    }
  }

  /** However often and between whatever other operations one alert is delivered, one incident is
      stored for it and exactly one delivery is answered as new. */
  lemma {:induction false} OneIncidentPerAlert(d: Data, ops: seq<Operation>, key: (string, string))
    requires Stored(d, key) <= 1 && forall i :: 0 <= i < |ops| ==> !ops[i].DeleteRepository?
    ensures var delivered := exists i :: 0 <= i < |ops| && Delivers(ops[i], key);
            && Stored(AfterAll(d, ops), key) == (if delivered || Stored(d, key) == 1 then 1 else 0)
            && FreshAnswers(d, ops, key) == (if delivered && Stored(d, key) == 0 then 1 else 0)
    decreases |ops|
  {
    if ops != [] {
      var rest := ops[1..];
      OperationStores(d, ops[0], key);
      OneIncidentPerAlert(After(d, ops[0]), rest, key);
      var delivered := exists i :: 0 <= i < |ops| && Delivers(ops[i], key);
      var later := exists i :: 0 <= i < |rest| && Delivers(rest[i], key);
      assert delivered <==> Delivers(ops[0], key) || later by {
        if later { var i :| 0 <= i < |rest| && Delivers(rest[i], key); assert Delivers(ops[i + 1], key); }
        if delivered {
          var i :| 0 <= i < |ops| && Delivers(ops[i], key);
          if i > 0 { assert Delivers(rest[i - 1], key); }
        }
      }
    }
  }

  /** The runs of an alert. */
  ghost function StoredRuns(d: Data, key: (string, string)): nat {
    |Filter(d.runs, ForAlert(d, key))|
  }

  ghost function ForAlert(d: Data, key: (string, string)): Run -> bool {
    (r: Run) => exists i :: i in d.incidents && i.id == r.incidentId && DeliveryKey(i) == key
  }

  /** A store in order has as many runs for an alert as incidents: one, or none. */
  lemma OneRunEach(d: Data, key: (string, string))
    requires Integrity(d)
    ensures StoredRuns(d, key) == Stored(d, key) <= 1
  {
    UniqueCounts(d.incidents, DeliveryKey, key);
    FilterSame(d.incidents, (i: Incident) => DeliveryKey(i) == key, HasKey(DeliveryKey, key));
    if i :| i in d.incidents && DeliveryKey(i) == key {
      UniqueCounts(d.runs, IncidentOf, i.id);
      forall r | r in d.runs ensures ForAlert(d, key)(r) == HasKey(IncidentOf, i.id)(r) {
        SameIncident(d, i, key);
      }
      FilterSame(d.runs, ForAlert(d, key), HasKey(IncidentOf, i.id));
    } else {
      FilterNone(d.runs, ForAlert(d, key));
    }
  }

  lemma SameIncident(d: Data, i: Incident, key: (string, string))
    requires UniqueBy(d.incidents, DeliveryKey) && i in d.incidents && DeliveryKey(i) == key
    ensures forall j :: j in d.incidents && DeliveryKey(j) == key ==> j == i
  {
    forall j | j in d.incidents && DeliveryKey(j) == key ensures j == i {
      var m, n :| 0 <= m < |d.incidents| && 0 <= n < |d.incidents| && d.incidents[m] == i && d.incidents[n] == j;
      assert DeliveryKey(d.incidents[m]) == DeliveryKey(d.incidents[n]);
    }
  }

  /** Nor is there more than one run: over any operations but deletions, an alert that was delivered has one
      incident and one run, and only an alert that was delivered has any. */
  lemma OneRunPerAlert(d: Data, ops: seq<Operation>, key: (string, string))
    requires Integrity(d) && AllAdmissible(d, ops) && forall i :: 0 <= i < |ops| ==> !ops[i].DeleteRepository?
    ensures var delivered := exists i :: 0 <= i < |ops| && Delivers(ops[i], key);
            && StoredRuns(AfterAll(d, ops), key) == Stored(AfterAll(d, ops), key)
            && StoredRuns(AfterAll(d, ops), key) == if delivered || StoredRuns(d, key) == 1 then 1 else 0
  {
    OneRunEach(d, key);
    StoreKeepsIntegrity(d, ops);
    OneRunEach(AfterAll(d, ops), key);
    OneIncidentPerAlert(d, ops, key);
  }

  /** A duplicate delivery is answered with the incident and run that are stored. */
  lemma DuplicatesNameStoredRuns(d: Data, incident: Incident, run: Run)
    requires Integrity(d)
    ensures var a := AnswerTo(d, incident, run);
            a.duplicate ==> a.incident in d.incidents && a.run in d.runs && a.run.incidentId == a.incident.id
                            && DeliveryKey(a.incident) == DeliveryKey(incident)
  {
  }

  /** The ids returned by a deletion are those of the repairs that its runs name. */
  lemma {:induction false} RepairIdsAre(runs: seq<Run>, repository: string, id: string)
    ensures id in RepairIds(runs, repository) <==>
            exists r :: r in runs && r.repository == repository && r.repairId == Some(id)
  {
    if runs != [] {
      RepairIdsAre(runs[1..], repository, id);
      assert runs == [runs[0]] + runs[1..];
    }
  }
}
