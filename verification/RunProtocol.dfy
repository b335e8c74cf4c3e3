/** The run protocol: a store of runs shared by any number of workers under time-limited leases, a CI
    monitor, owners and operators (src/control-plane/orchestrator.ts over src/control-plane/store.ts and
    src/control-plane/postgres.ts). One step is one store operation, or one reading of the clock. */
module RunProtocol {
  import opened Wrappers
  import opened RunRecords

  // ----- State -----------------------------------------------------------------------------------

  /** Where a worker is inside `process`. */
  datatype Phase =
    | Entered                        // claimed; nothing written yet
    | Preparing                      // `reproducing` written; checking out
    | Scanning                       // commit written; up to the first cancellation check
    | Scanned                        // first cancellation check passed
    | Mending                        // `repairing` written; the repair runs
    | Judged(decision: Decision)     // `verifying` written with the receipt's decision
    | Accepted(decision: Decision)   // second cancellation check passed
    | Pushing                        // repair commit written; opening the pull request
    | CancelSeen                     // a cancellation check has read the flag
    | Returning                      // the final write is done, its log line is not
    | Caught                         // in the catch block, before its read
    | Failing(terminal: bool, attempts: int)  // in the catch block, before its write

  /** One execution of `process`: the run it claimed, and when its lease ends. */
  datatype Task = Task(runId: string, maxAttempts: int, claimedAttempts: int, phase: Phase, until: int)

  /** The store, the workers and the clock. `database` tells the two stores apart where they differ: the
      database admits one approval per run. `claims`, `retries` and `used` are history. */
  datatype State = State(
    runs: map<string, Run>, approvals: seq<Approval>, attestations: seq<Attestation>,
    tasks: map<int, Task>, now: int, database: bool,
    claims: map<string, nat>, retries: map<string, nat>, used: set<string>)

  function Start(now: int, database: bool): State {
    State(map[], [], [], map[], now, database, map[], map[], {})
  }

  function Count(m: map<string, nat>, id: string): nat { if id in m then m[id] else 0 }

  // ----- Steps -----------------------------------------------------------------------------------

  datatype Move =
    | StartReproducing
    | RecordCommit(commit: string)
    | FinishWithoutOath
    | CheckActive
    | WriteCancelled
    | FinishScan(outcome: Decision)
    | StartRepair
    | RecordReceipt(repairId: string, decision: Decision)
    | Reject
    | RecordRepairCommit(repairCommit: string)
    | Publish(branch: string, pullRequestUrl: string)
    | Return
    | Fail
    | ReadInCatch
    | WriteFailure(message: string)
    | Crash

  datatype Step =
    | Tick(ms: nat)
    | Create(run: Run)
    | Claim(task: int, id: string, worker: string, leaseMs: nat)
    | Work(task: int, move: Move)
    | Monitor(id: string, passed: bool, failure: string)
    | AskCancel(id: string)
    | AskRetry(id: string)
    | OwnerDecides(approval: Approval, incident: Incident)
    | Delete(repository: string)

  function Pow2(n: nat): nat { if n == 0 then 1 else 2 * Pow2(n - 1) }

  /** `Math.min(60_000 * 2 ** Math.max(0, attempts - 1), 60 * 60 * 1000)` */
  function RetryDelay(attempts: int): nat {
    var delay := 60_000 * Pow2(if attempts - 1 > 0 then attempts - 1 else 0);
    if delay < 3_600_000 then delay else 3_600_000
  }

  /** Whether a worker can make a move from where it is. */
  predicate MoveEnabled(phase: Phase, move: Move) {
    match move
    case StartReproducing => phase == Entered
    case RecordCommit(_) => phase == Preparing
    case FinishWithoutOath => phase == Scanning
    case CheckActive => phase == Scanning || phase.Judged?
    case WriteCancelled => phase == CancelSeen
    case FinishScan(outcome) => phase == Scanned && outcome != DecisionBlocked
    case StartRepair => phase == Scanned
    case RecordReceipt(_, _) => phase == Mending
    case Reject => phase == Accepted(DecisionBlocked)
    case RecordRepairCommit(_) => phase.Accepted? && phase.decision != DecisionBlocked
    case Publish(_, _) => phase == Pushing
    case Return => phase == Returning
    case Fail => phase != Caught && !phase.Failing?
    case ReadInCatch => phase == Caught
    case WriteFailure(_) => phase.Failing?
    case Crash => true
  }

  /** The store update of a move that writes. */
  function UpdateOf(phase: Phase, move: Move, now: int): Option<RunUpdate> {
    match move
    case StartReproducing => Some(NO_UPDATE.(status := Some(Reproducing)))
    case RecordCommit(commit) => Some(NO_UPDATE.(commit := Some(commit)))
    case FinishWithoutOath =>
      Some(NO_UPDATE.(status := Some(Completed), decision := Some(ReviewRequired), leaseExpiresAt := Some(now)))
    case WriteCancelled => Some(NO_UPDATE.(status := Some(Cancelled), leaseExpiresAt := Some(now)))
    case FinishScan(outcome) =>
      Some(NO_UPDATE.(status := Some(Completed), decision := Some(outcome), leaseExpiresAt := Some(now)))
    case StartRepair => Some(NO_UPDATE.(status := Some(Repairing)))
    case RecordReceipt(repairId, decision) =>
      Some(NO_UPDATE.(status := Some(Verifying), repairId := Some(repairId), decision := Some(decision)))
    case Reject =>
      Some(NO_UPDATE.(status := Some(Blocked), error := Some("Repair failed deterministic acceptance."),
                      leaseExpiresAt := Some(now)))
    case RecordRepairCommit(repairCommit) => Some(NO_UPDATE.(repairCommit := Some(repairCommit)))
    case Publish(branch, url) =>
      Some(NO_UPDATE.(status := Some(CiPending), branch := Some(branch), pullRequestUrl := Some(url),
                      leaseExpiresAt := Some(now)))
    case WriteFailure(message) =>
      if !phase.Failing? then None
      else
        Some(NO_UPDATE.(status := Some(if phase.terminal then Blocked else RetryWait), error := Some(message),
                        nextAttemptAt := Put(if phase.terminal then None else Some(now + RetryDelay(phase.attempts))),
                        leaseExpiresAt := Some(now)))
    case _ => None
  }

  /** Where a write leaves the worker; `None` is the end of `process`. */
  function PhaseAfter(phase: Phase, move: Move): Option<Phase> {
    match move
    case StartReproducing => Some(Preparing)
    case RecordCommit(_) => Some(Scanning)
    case FinishWithoutOath => Some(Returning)
    case WriteCancelled => Some(Caught)
    case FinishScan(_) => Some(Returning)
    case StartRepair => Some(Mending)
    case RecordReceipt(_, decision) => Some(Judged(decision))
    case RecordRepairCommit(_) => Some(Pushing)
    case Publish(_, _) => Some(Returning)
    case _ => None
  }

  function WithPhase(s: State, t: int, phase: Option<Phase>): State
    requires t in s.tasks
  {
    match phase
    case None => s.(tasks := s.tasks - {t})
    case Some(p) => s.(tasks := s.tasks[t := s.tasks[t].(phase := p)])
  }

  /** A write of a worker. A write that gives the lease back also ends the worker's own claim to it; a
      write to a run that is gone throws. */
  function AfterWrite(s: State, t: int, move: Move, u: RunUpdate): State
    requires t in s.tasks
  {
    var task := s.tasks[t];
    if task.runId !in s.runs then WithPhase(s, t, if task.phase.Failing? then None else Some(Caught))
    else
      var until := if u.leaseExpiresAt.Some? then u.leaseExpiresAt.value else task.until;
      WithPhase(s.(runs := s.runs[task.runId := Patched(s.runs[task.runId], u, s.now)],
                   tasks := s.tasks[t := task.(until := until)]), t, PhaseAfter(task.phase, move))
  }

  function AfterMove(s: State, t: int, move: Move): State
    requires t in s.tasks
  {
    var task := s.tasks[t];
    match UpdateOf(task.phase, move, s.now)
    case Some(u) => AfterWrite(s, t, move, u)
    case None =>
      if move == CheckActive then
        WithPhase(s, t, Some(
          if task.runId !in s.runs then Caught
          else if s.runs[task.runId].cancelRequested then CancelSeen
          else if task.phase.Judged? then Accepted(task.phase.decision)
          else Scanned))
      else if move == Fail then WithPhase(s, t, Some(Caught))
      else if move == ReadInCatch then
        WithPhase(s, t,
          if task.runId in s.runs && s.runs[task.runId].status == Cancelled then None
          else
            var attempts := if task.runId in s.runs then s.runs[task.runId].attempts else task.claimedAttempts;
            Some(Failing(attempts >= task.maxAttempts, if task.runId in s.runs then attempts else 1)))
      else WithPhase(s, t, None)
  }

  predicate HasApproval(s: State, id: string) {
    exists i :: 0 <= i < |s.approvals| && s.approvals[i].runId == id
  }

  predicate Enabled(s: State, step: Step) {
    match step
    case Tick(_) => true
    case Create(run) => run.id !in s.used && NewRun(run)
    case Claim(t, id, _, _) => t !in s.tasks && id in s.runs && Claimable(s.runs[id], s.now)
    case Work(t, move) => t in s.tasks && MoveEnabled(s.tasks[t].phase, move)
    case Monitor(id, _, _) => id in s.runs && s.runs[id].status == CiPending && s.runs[id].repairCommit.Some?
    case AskCancel(id) => id in s.runs
    case AskRetry(id) => id in s.runs && Retryable(s.runs[id])
    case OwnerDecides(approval, incident) =>
      && approval.runId in s.runs && s.runs[approval.runId].status == AwaitingApproval
      && CreateFinalAttestation(s.runs[approval.runId], incident, approval).Ok?
      && (s.database ==> !HasApproval(s, approval.runId))
    case Delete(_) => true
  }

  function Monitored(r: Run, passed: bool, failure: string, now: int): Run {
    Patched(r, if passed then NO_UPDATE.(status := Some(AwaitingApproval))
               else NO_UPDATE.(status := Some(CiFailed), error := Some(failure)), now)
  }

  function KeepApprovals(xs: seq<Approval>, gone: set<string>): seq<Approval> {
    if xs == [] then [] else (if xs[0].runId in gone then [] else [xs[0]]) + KeepApprovals(xs[1..], gone)
  }

  function KeepAttestations(xs: seq<Attestation>, gone: set<string>): seq<Attestation> {
    if xs == [] then [] else (if xs[0].runId in gone then [] else [xs[0]]) + KeepAttestations(xs[1..], gone)
  }

  function RunsOf(s: State, repository: string): set<string> {
    set id | id in s.runs && s.runs[id].repository == repository
  }

  function Apply(s: State, step: Step): State
    requires Enabled(s, step)
  {
    match step
    case Tick(ms) => s.(now := s.now + ms)
    case Create(run) => s.(runs := s.runs[run.id := run], used := s.used + {run.id})
    case Claim(t, id, worker, leaseMs) =>
      var r := s.runs[id];
      s.(runs := s.runs[id := Claimed(r, worker, s.now, leaseMs)],
         tasks := s.tasks[t := Task(id, r.maxAttempts, r.attempts + 1, Entered, s.now + leaseMs)],
         claims := s.claims[id := Count(s.claims, id) + 1])
    case Work(t, move) => AfterMove(s, t, move)
    case Monitor(id, passed, failure) => s.(runs := s.runs[id := Monitored(s.runs[id], passed, failure, s.now)])
    case AskCancel(id) => s.(runs := s.runs[id := CancelAsked(s.runs[id], s.now)])
    case AskRetry(id) =>
      s.(runs := s.runs[id := Retried(s.runs[id], s.now)], retries := s.retries[id := Count(s.retries, id) + 1])
    case OwnerDecides(approval, incident) =>
      var r := s.runs[approval.runId];
      s.(runs := s.runs[approval.runId := Decided(r, approval.approved, approval.createdAt)],
         approvals := s.approvals + [approval],
         attestations := s.attestations + [CreateFinalAttestation(r, incident, approval).value])
    case Delete(repository) =>
      var gone := RunsOf(s, repository);
      s.(runs := s.runs - gone, approvals := KeepApprovals(s.approvals, gone),
         attestations := KeepAttestations(s.attestations, gone))
  }

  /** Whether a step is a worker's write to a stored run. */
  predicate IsWrite(s: State, step: Step)
    requires Enabled(s, step)
  {
    && step.Work? && UpdateOf(s.tasks[step.task].phase, step.move, s.now).Some?
    && s.tasks[step.task].runId in s.runs
  }

  /** No worker writes at or after the end of its own lease, whether the time ran out or the worker has
      given the lease back. */
  predicate Fenced(s: State, step: Step)
    requires Enabled(s, step)
  {
    IsWrite(s, step) ==> s.now < s.tasks[step.task].until
  }

  /** An execution: each step enabled where it happens. */
  ghost predicate Valid(s: State, steps: seq<Step>)
    decreases |steps|
  {
    steps != [] ==> Enabled(s, steps[0]) && Valid(Apply(s, steps[0]), steps[1..])
  }

  /** An execution in which no worker writes after its own lease has ended. */
  ghost predicate FencedRun(s: State, steps: seq<Step>)
    decreases |steps|
  {
    steps != [] ==> Enabled(s, steps[0]) && Fenced(s, steps[0]) && FencedRun(Apply(s, steps[0]), steps[1..])
  }

  function After(s: State, steps: seq<Step>): State
    requires Valid(s, steps)
    decreases |steps|
  {
    if steps == [] then s else After(Apply(s, steps[0]), steps[1..])
  }

  lemma {:induction false} FencedRunsAreValid(s: State, steps: seq<Step>)
    requires FencedRun(s, steps)
    ensures Valid(s, steps)
    decreases |steps|
  {
    if steps != [] { FencedRunsAreValid(Apply(s, steps[0]), steps[1..]); }
  }
}
