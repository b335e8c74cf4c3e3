/** The records of the control plane (src/control-plane/types.ts) and what one store operation does to
    one run (src/control-plane/store.ts, src/control-plane/postgres.ts). Times are milliseconds. */
module RunRecords {
  import opened Wrappers

  datatype Status =
    | Received | Reproducing | Repairing | Verifying
    | CiPending | CiFailed | AwaitingApproval
    | Completed | Blocked | RetryWait | Cancelled

  datatype Decision = DecisionBlocked | ReviewRequired | Ready

  datatype Run = Run(
    id: string, incidentId: string, repository: string,
    commit: Option<string>, repairCommit: Option<string>, status: Status, decision: Option<Decision>,
    repairId: Option<string>, pullRequestUrl: Option<string>, branch: Option<string>, error: Option<string>,
    attempts: int, maxAttempts: int, nextAttemptAt: Option<int>,
    leaseOwner: Option<string>, leaseExpiresAt: Option<int>, cancelRequested: bool,
    createdAt: int, updatedAt: int)

  datatype Incident = Incident(id: string, source: string, externalId: string, title: string, payloadDigest: string)

  datatype Approval = Approval(id: string, runId: string, approved: bool, reason: string, createdAt: int)

  datatype Attestation = Attestation(
    id: string, runId: string, repository: string, incidentId: string,
    repairId: string, branch: string, pullRequestUrl: string, repairCommit: Option<string>, approved: bool)

  datatype AuditEvent = AuditEvent(id: string, runId: Option<string>, repository: Option<string>, detail: string)

  datatype Log = Log(id: string, runId: string, message: string)

  /** Mappings, registrations, knowledge, optimizer analyses and questions, which the operations below
      tell apart only by their repository. */
  datatype RepositoryRecord = RepositoryRecord(id: string, repository: string)

  /** A partial update. `None` leaves a field alone; `nextAttemptAt` can also be cleared. */
  datatype Change = Keep | Put(at: Option<int>)

  datatype RunUpdate = RunUpdate(
    status: Option<Status>, decision: Option<Decision>, commit: Option<string>, repairCommit: Option<string>,
    repairId: Option<string>, pullRequestUrl: Option<string>, branch: Option<string>, error: Option<string>,
    nextAttemptAt: Change, leaseExpiresAt: Option<int>)

  const NO_UPDATE: RunUpdate := RunUpdate(None, None, None, None, None, None, None, None, Keep, None)

  function Or<T>(update: Option<T>, current: Option<T>): Option<T> {
    if update.Some? then update else current
  }

  /** `Object.assign(run, update, { updatedAt })` */
  function Patched(r: Run, u: RunUpdate, now: int): Run {
    r.(status := if u.status.Some? then u.status.value else r.status,
       decision := Or(u.decision, r.decision), commit := Or(u.commit, r.commit),
       repairCommit := Or(u.repairCommit, r.repairCommit), repairId := Or(u.repairId, r.repairId),
       pullRequestUrl := Or(u.pullRequestUrl, r.pullRequestUrl), branch := Or(u.branch, r.branch),
       error := Or(u.error, r.error),
       nextAttemptAt := (match u.nextAttemptAt case Keep => r.nextAttemptAt case Put(at) => at),
       leaseExpiresAt := Or(u.leaseExpiresAt, r.leaseExpiresAt), updatedAt := now)
  }

  predicate InQueue(status: Status) {
    status == Received || status == RetryWait || status == Reproducing || status == Repairing || status == Verifying
  }

  predicate Past(at: Option<int>, now: int) { at.None? || at.value <= now }

  /** The conditions under which `claimRun` may pick a run. */
  predicate Claimable(r: Run, now: int) {
    !r.cancelRequested && r.attempts < r.maxAttempts && InQueue(r.status)
    && Past(r.nextAttemptAt, now) && Past(r.leaseExpiresAt, now)
  }

  function Claimed(r: Run, worker: string, now: int, leaseMs: nat): Run {
    r.(attempts := r.attempts + 1, error := None, nextAttemptAt := None,
       leaseOwner := Some(worker), leaseExpiresAt := Some(now + leaseMs), updatedAt := now)
  }

  /** Cancellation in one statement, as the database does it. */
  function CancelAsked(r: Run, now: int): Run {
    r.(cancelRequested := true, status := if r.leaseOwner.None? then Cancelled else r.status, updatedAt := now)
  }

  /** The write of the file store's cancellation, which decided from an earlier read of the run. */
  function CancelAskedFrom(r: Run, read: Run, now: int): Run {
    r.(cancelRequested := true, status := if read.leaseOwner.None? then Cancelled else r.status, updatedAt := now)
  }

  predicate Retryable(r: Run) { r.status == Blocked || r.status == Cancelled || r.status == CiFailed }

  function Retried(r: Run, now: int): Run {
    r.(status := Received, attempts := 0, cancelRequested := false, error := None, nextAttemptAt := None,
       leaseOwner := None, leaseExpiresAt := None, updatedAt := now)
  }

  function Decided(r: Run, approved: bool, at: int): Run {
    r.(status := if approved then Completed else Blocked, updatedAt := at)
  }

  /** A run as the webhooks and the scheduler create it. */
  predicate NewRun(r: Run) {
    r.status == Received && r.attempts == 0 && r.maxAttempts >= 1 && !r.cancelRequested
    && r.repairCommit.None? && r.decision.None? && r.repairId.None? && r.pullRequestUrl.None? && r.branch.None?
    && r.nextAttemptAt.None? && r.leaseOwner.None? && r.leaseExpiresAt.None?
  }

  /** `createFinalAttestation`, without its signature. */
  function CreateFinalAttestation(run: Run, incident: Incident, approval: Approval): Result<Attestation> {
    if run.repairId.None? || run.pullRequestUrl.None? || run.branch.None?
    then Err("The run is missing repair or pull-request delivery metadata.")
    else Ok(Attestation("ATTESTATION-" + approval.id, run.id, run.repository, incident.id, run.repairId.value,
                        run.branch.value, run.pullRequestUrl.value, run.repairCommit, approval.approved))
  }

  /** Whether a run carries everything its owner's decision will attest to. */
  predicate Delivered(r: Run) {
    r.repairId.Some? && r.repairCommit.Some? && r.branch.Some? && r.pullRequestUrl.Some?
    && r.decision.Some? && r.decision != Some(DecisionBlocked)
  }
}
