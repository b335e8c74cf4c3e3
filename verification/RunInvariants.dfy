/** What every execution of the run protocol keeps, as long as no worker writes after its own lease. */
module RunInvariants {
  import opened Wrappers
  import opened RunRecords
  import opened RunProtocol

  // ----- The invariant ---------------------------------------------------------------------------

  predicate Live(s: State, t: int) { t in s.tasks && s.now < s.tasks[t].until }

  predicate LiveOn(s: State, t: int, id: string) { Live(s, t) && s.tasks[t].runId == id }

  /** One stored run at one time. */
  predicate RunOk(r: Run, now: int) {
    && 0 <= r.attempts <= r.maxAttempts && 1 <= r.maxAttempts
    && (r.leaseOwner.None? ==>
          && (r.status == Received || r.status == Cancelled) && r.attempts == 0
          && r.leaseExpiresAt.None? && (r.cancelRequested ==> r.status == Cancelled))
    && (!InQueue(r.status) ==> Past(r.leaseExpiresAt, now))
    && (r.status == CiPending || r.status == CiFailed || r.status == AwaitingApproval ==> Delivered(r))
    && (r.nextAttemptAt.Some? ==> r.status == RetryWait && r.attempts < r.maxAttempts && Past(r.leaseExpiresAt, now))
  }

  /** A worker inside its lease, and the run it holds. */
  predicate TaskOk(t: Task, r: Run) {
    && r.leaseExpiresAt == Some(t.until) && r.leaseOwner.Some? && r.nextAttemptAt.None?
    && t.maxAttempts == r.maxAttempts && InQueue(r.status)
    && match t.phase
       case Entered => true
       case Preparing => r.status == Reproducing
       case Scanning => r.status == Reproducing
       case Scanned => r.status == Reproducing
       case Mending => r.status == Repairing
       case Judged(d) => r.status == Verifying && r.decision == Some(d) && r.repairId.Some?
       case Accepted(d) => r.status == Verifying && r.decision == Some(d) && r.repairId.Some?
       case Pushing => r.status == Verifying && r.repairId.Some? && r.repairCommit.Some?
                       && r.decision.Some? && r.decision != Some(DecisionBlocked)
       case CancelSeen => r.cancelRequested
       case Returning => false
       case Caught => true
       case Failing(terminal, attempts) => (terminal <==> r.attempts >= r.maxAttempts) && attempts == r.attempts
  }

  function Approvals(xs: seq<Approval>, id: string): nat {
    if xs == [] then 0 else (if xs[0].runId == id then 1 else 0) + Approvals(xs[1..], id)
  }

  function Attestations(xs: seq<Attestation>, id: string): nat {
    if xs == [] then 0 else (if xs[0].runId == id then 1 else 0) + Attestations(xs[1..], id)
  }

  predicate OwnerApproved(s: State, id: string) {
    exists i :: 0 <= i < |s.approvals| && s.approvals[i].runId == id && s.approvals[i].approved
  }

  /** `maxAttempts` times the number of retries. */
  function Budget(maxAttempts: int, retries: nat): int {
    if retries == 0 then 0 else maxAttempts + Budget(maxAttempts, retries - 1)
  }

  /** The counts kept beside a stored run. */
  ghost predicate CountsOk(s: State, id: string)
    requires id in s.runs
  {
    var r := s.runs[id];
    && Count(s.claims, id) <= Budget(r.maxAttempts, Count(s.retries, id)) + r.attempts
    && Approvals(s.approvals, id) == Attestations(s.attestations, id)
    && Approvals(s.approvals, id) <= Count(s.retries, id)
        + (if r.status == Completed || r.status == Blocked then 1 else 0)
    && (s.database ==> Approvals(s.approvals, id) <= 1)
    && (OwnerApproved(s, id) ==> r.status == Completed)
  }

  ghost predicate RunsOk(s: State) {
    forall id :: id in s.runs ==> s.runs[id].id == id && id in s.used && RunOk(s.runs[id], s.now) && CountsOk(s, id)
  }

  ghost predicate TasksOk(s: State) {
    forall t :: Live(s, t) && s.tasks[t].runId in s.runs ==> TaskOk(s.tasks[t], s.runs[s.tasks[t].runId])
  }

  /** At most one worker is inside its lease for a run. */
  ghost predicate Exclusive(s: State) {
    forall t, u :: Live(s, t) && Live(s, u) && s.tasks[t].runId == s.tasks[u].runId ==> t == u
  }

  /** Ids are used once, and nothing is recorded for an id that was never used or is gone. */
  ghost predicate Books(s: State) {
    && s.claims.Keys <= s.used && s.retries.Keys <= s.used
    && (forall t :: t in s.tasks ==> s.tasks[t].runId in s.used)
    && (forall id :: id !in s.runs ==> Approvals(s.approvals, id) == 0 && Attestations(s.attestations, id) == 0)
  }

  ghost predicate Inv(s: State) { RunsOk(s) && TasksOk(s) && Exclusive(s) && Books(s) }

  // ----- Approvals -------------------------------------------------------------------------------

  lemma {:induction false} ApprovalsCounted(xs: seq<Approval>, id: string)
    ensures Approvals(xs, id) == 0 <==> forall i :: 0 <= i < |xs| ==> xs[i].runId != id
  {
    if xs != [] {
      ApprovalsCounted(xs[1..], id);
      assert forall i :: 0 < i < |xs| ==> xs[i] == xs[1..][i - 1];
      assert Approvals(xs, id) == 0 ==> forall i :: 0 <= i < |xs| - 1 ==> xs[1..][i].runId != id;
      assert forall i :: 0 <= i < |xs| - 1 ==> xs[1..][i] == xs[i + 1];
    }
  }

  lemma {:induction false} ApprovalsAppend(xs: seq<Approval>, a: Approval, id: string)
    ensures Approvals(xs + [a], id) == Approvals(xs, id) + (if a.runId == id then 1 else 0)
  {
    if xs == [] {
      assert xs + [a] == [a];
    } else {
      ApprovalsAppend(xs[1..], a, id);
      assert (xs + [a])[1..] == xs[1..] + [a];
    }
  }

  lemma {:induction false} AttestationsAppend(xs: seq<Attestation>, a: Attestation, id: string)
    ensures Attestations(xs + [a], id) == Attestations(xs, id) + (if a.runId == id then 1 else 0)
  {
    if xs == [] {
      assert xs + [a] == [a];
    } else {
      AttestationsAppend(xs[1..], a, id);
      assert (xs + [a])[1..] == xs[1..] + [a];
    }
  }

  lemma {:induction false} KeptApprovals(xs: seq<Approval>, gone: set<string>, id: string)
    ensures Approvals(KeepApprovals(xs, gone), id) == if id in gone then 0 else Approvals(xs, id)
  {
    if xs != [] {
      KeptApprovals(xs[1..], gone, id);
      var kept := KeepApprovals(xs[1..], gone);
      assert KeepApprovals(xs, gone) == (if xs[0].runId in gone then kept else [xs[0]] + kept);
      assert ([xs[0]] + kept)[1..] == kept;
    }
  }

  lemma {:induction false} KeptAttestations(xs: seq<Attestation>, gone: set<string>, id: string)
    ensures Attestations(KeepAttestations(xs, gone), id) == if id in gone then 0 else Attestations(xs, id)
  {
    if xs != [] {
      KeptAttestations(xs[1..], gone, id);
      var kept := KeepAttestations(xs[1..], gone);
      assert KeepAttestations(xs, gone) == (if xs[0].runId in gone then kept else [xs[0]] + kept);
      assert ([xs[0]] + kept)[1..] == kept;
    }
  }

  lemma {:induction false} KeptApproved(xs: seq<Approval>, gone: set<string>, i: nat)
    requires i < |KeepApprovals(xs, gone)|
    ensures exists j :: 0 <= j < |xs| && xs[j] == KeepApprovals(xs, gone)[i]
  {
    if xs[0].runId in gone {
      KeptApproved(xs[1..], gone, i);
      var j :| 0 <= j < |xs[1..]| && xs[1..][j] == KeepApprovals(xs[1..], gone)[i];
      assert xs[j + 1] == KeepApprovals(xs, gone)[i];
    } else if i > 0 {
      KeptApproved(xs[1..], gone, i - 1);
      var j :| 0 <= j < |xs[1..]| && xs[1..][j] == KeepApprovals(xs[1..], gone)[i - 1];
      assert xs[j + 1] == KeepApprovals(xs, gone)[i];
    }
  }

  // ----- Steps keep the invariant ----------------------------------------------------------------

  lemma TickKeeps(s: State, ms: nat)
    requires Inv(s)
    ensures Inv(Apply(s, Tick(ms)))
  {
    var s' := Apply(s, Tick(ms));
    assert forall t :: Live(s', t) ==> Live(s, t);
    forall id | id in s'.runs ensures RunOk(s'.runs[id], s'.now) && CountsOk(s', id) {
      assert CountsOk(s, id);
    }
  }

  lemma CreateKeeps(s: State, run: Run)
    requires Inv(s) && Enabled(s, Create(run))
    ensures Inv(Apply(s, Create(run)))
  {
    var s' := Apply(s, Create(run));
    ApprovalsCounted(s.approvals, run.id);
    forall id | id in s'.runs ensures RunOk(s'.runs[id], s'.now) && CountsOk(s', id) {
      if id != run.id { assert CountsOk(s, id); }
    }
    forall t | Live(s', t) ensures Live(s, t) && s.tasks[t].runId != run.id {
    }
  }

  ghost predicate SameVerdicts(s: State, s': State, id: string) {
    && Approvals(s'.approvals, id) == Approvals(s.approvals, id)
    && Attestations(s'.attestations, id) == Attestations(s.attestations, id)
    && (OwnerApproved(s', id) ==> OwnerApproved(s, id))
  }

  /** Rewriting one run keeps the invariant when every worker inside its lease for it still fits. */
  lemma RewriteKeeps(s: State, s': State, id: string)
    requires Inv(s) && id in s.runs && id in s'.runs
    requires s' == s.(runs := s'.runs, approvals := s'.approvals, attestations := s'.attestations,
        retries := s'.retries)
    requires s'.runs == s.runs[id := s'.runs[id]] && s'.runs[id].id == id
    requires RunOk(s'.runs[id], s.now) && CountsOk(s', id)
    requires forall t :: LiveOn(s, t, id) ==> TaskOk(s.tasks[t], s'.runs[id])
    requires s'.retries == s.retries || s'.retries == s.retries[id := Count(s.retries, id) + 1]
    requires forall other :: other != id ==> SameVerdicts(s, s', other)
    ensures Inv(s')
  {
    forall other | other in s'.runs ensures RunOk(s'.runs[other], s'.now) && CountsOk(s', other) && other in s'.used {
      if other != id { assert CountsOk(s, other) && SameVerdicts(s, s', other); }
    }
    forall other | other !in s'.runs ensures Approvals(s'.approvals, other) == 0
        && Attestations(s'.attestations, other) == 0 {
      assert SameVerdicts(s, s', other);
    }
    assert forall t :: Live(s', t) <==> Live(s, t);
  }

  lemma NoLiveTask(s: State, id: string)
    requires Inv(s) && id in s.runs && Past(s.runs[id].leaseExpiresAt, s.now)
    ensures forall t :: !LiveOn(s, t, id)
  {
  }

  lemma ClaimKeeps(s: State, t: int, id: string, worker: string, leaseMs: nat)
    requires Inv(s) && Enabled(s, Claim(t, id, worker, leaseMs))
    ensures Inv(Apply(s, Claim(t, id, worker, leaseMs)))
  {
    var s' := Apply(s, Claim(t, id, worker, leaseMs));
    NoLiveTask(s, id);
    ClaimedRuns(s, s', id, worker, leaseMs);
    ClaimedTasks(s, s', t, id);
    assert Books(s');
  }

  lemma ClaimedRunOk(r: Run, worker: string, now: int, leaseMs: nat)
    requires RunOk(r, now) && Claimable(r, now)
    ensures RunOk(Claimed(r, worker, now, leaseMs), now)
  {
  }

  lemma ClaimedRuns(s: State, s': State, id: string, worker: string, leaseMs: nat)
    requires RunsOk(s) && id in s.runs && Claimable(s.runs[id], s.now)
    requires s' == s.(runs := s.runs[id := Claimed(s.runs[id], worker, s.now, leaseMs)], tasks := s'.tasks,
                      claims := s.claims[id := Count(s.claims, id) + 1])
    ensures RunsOk(s')
  {
    ClaimedRunOk(s.runs[id], worker, s.now, leaseMs);
    forall other | other in s'.runs ensures s'.runs[other].id == other && RunOk(s'.runs[other], s'.now)
        && CountsOk(s', other) {
      assert CountsOk(s, other);
      assert OwnerApproved(s', other) ==> OwnerApproved(s, other);
    }
  }

  lemma ClaimedTasks(s: State, s': State, t: int, id: string)
    requires Inv(s) && t !in s.tasks && id in s.runs && s'.now == s.now && t in s'.tasks && id in s'.runs
    requires s'.tasks == s.tasks[t := s'.tasks[t]] && s'.runs == s.runs[id := s'.runs[id]]
    requires s'.tasks[t].runId == id && TaskOk(s'.tasks[t], s'.runs[id])
    requires forall u :: !LiveOn(s, u, id)
    ensures TasksOk(s') && Exclusive(s')
  {
    forall u | Live(s', u) && u != t ensures Live(s, u) && s'.tasks[u] == s.tasks[u] && s'.tasks[u].runId != id {
      assert !LiveOn(s, u, id);
    }
  }

  lemma MonitorKeeps(s: State, id: string, passed: bool, failure: string)
    requires Inv(s) && Enabled(s, Monitor(id, passed, failure))
    ensures Inv(Apply(s, Monitor(id, passed, failure)))
  {
    NoLiveTask(s, id);
    assert CountsOk(s, id);
    RewriteKeeps(s, Apply(s, Monitor(id, passed, failure)), id);
  }

  lemma CancelKeeps(s: State, id: string)
    requires Inv(s) && Enabled(s, AskCancel(id))
    ensures Inv(Apply(s, AskCancel(id)))
  {
    var s' := Apply(s, AskCancel(id));
    assert CountsOk(s, id);
    forall t | LiveOn(s, t, id) ensures TaskOk(s.tasks[t], s'.runs[id]) {
      assert TaskOk(s.tasks[t], s.runs[id]);
    }
    RewriteKeeps(s, s', id);
  }

  lemma RetriedCounts(s: State, s': State, id: string)
    requires id in s.runs && RunOk(s.runs[id], s.now) && CountsOk(s, id) && Retryable(s.runs[id])
    requires s' == s.(runs := s.runs[id := Retried(s.runs[id], s.now)],
        retries := s.retries[id := Count(s.retries, id) + 1])
    ensures RunOk(s'.runs[id], s.now) && CountsOk(s', id)
  {
    assert Count(s'.retries, id) == Count(s.retries, id) + 1;
    assert OwnerApproved(s', id) ==> OwnerApproved(s, id);
  }

  lemma RetryKeeps(s: State, id: string)
    requires Inv(s) && Enabled(s, AskRetry(id))
    ensures Inv(Apply(s, AskRetry(id)))
  {
    var s' := Apply(s, AskRetry(id));
    NoLiveTask(s, id);
    RetriedCounts(s, s', id);
    RewriteKeeps(s, s', id);
  }

  lemma RecordsAppend(approvals: seq<Approval>, attestations: seq<Attestation>, approval: Approval,
      attestation: Attestation)
    requires attestation.runId == approval.runId
    ensures forall id ::
        Approvals(approvals + [approval], id) == Approvals(approvals, id) + if id == approval.runId then 1 else 0
    ensures forall id ::
              Attestations(attestations + [attestation], id) == Attestations(attestations, id)
                + if id == approval.runId then 1 else 0
  {
    forall id ensures Approvals(approvals + [approval], id) == Approvals(approvals, id)
        + (if id == approval.runId then 1 else 0)
                && Attestations(attestations + [attestation], id) == Attestations(attestations, id)
                    + (if id == approval.runId then 1 else 0) {
      ApprovalsAppend(approvals, approval, id);
      AttestationsAppend(attestations, attestation, id);
    }
  }

  lemma DecisionKeeps(s: State, approval: Approval, incident: Incident)
    requires Inv(s) && Enabled(s, OwnerDecides(approval, incident))
    ensures Inv(Apply(s, OwnerDecides(approval, incident)))
  {
    var s' := Apply(s, OwnerDecides(approval, incident));
    var id := approval.runId;
    NoLiveTask(s, id);
    DecidedCounts(s, approval, incident);
    RecordsAppend(s.approvals, s.attestations, approval, s'.attestations[|s.attestations|]);
    RewriteKeeps(s, s', id);
  }

  lemma DecidedCounts(s: State, approval: Approval, incident: Incident)
    requires Inv(s) && Enabled(s, OwnerDecides(approval, incident))
    ensures CountsOk(Apply(s, OwnerDecides(approval, incident)), approval.runId)
  {
    var s', id := Apply(s, OwnerDecides(approval, incident)), approval.runId;
    assert CountsOk(s, id);
    ApprovalsCounted(s.approvals, id);
    RecordsAppend(s.approvals, s.attestations, approval, s'.attestations[|s.attestations|]);
    assert !OwnerApproved(s, id);
  }

  lemma DeleteKeeps(s: State, repository: string)
    requires Inv(s)
    ensures Inv(Apply(s, Delete(repository)))
  {
    var s' := Apply(s, Delete(repository));
    var gone := RunsOf(s, repository);
    forall id ensures Approvals(s'.approvals, id) == (if id in gone then 0 else Approvals(s.approvals, id))
                   && Attestations(s'.attestations, id)
                       == (if id in gone then 0 else Attestations(s.attestations, id)) {
      KeptApprovals(s.approvals, gone, id);
      KeptAttestations(s.attestations, gone, id);
    }
    forall id | id in s'.runs ensures CountsOk(s', id) {
      assert CountsOk(s, id);
      if OwnerApproved(s', id) {
        var i :| 0 <= i < |s'.approvals| && s'.approvals[i].runId == id && s'.approvals[i].approved;
        KeptApproved(s.approvals, gone, i);
        assert OwnerApproved(s, id);
      }
    }
    assert forall t :: Live(s', t) <==> Live(s, t);
  }

  /** Moving one worker, and possibly rewriting the run it holds, keeps the invariant. */
  lemma TaskKeeps(s: State, s': State, t: int)
    requires Inv(s) && t in s.tasks
    requires s' == s.(runs := s'.runs, tasks := s'.tasks)
    requires s'.tasks - {t} == s.tasks - {t}
    requires t in s'.tasks ==> s'.tasks[t].runId == s.tasks[t].runId && s'.tasks[t].until <= s.tasks[t].until
    requires var id := s.tasks[t].runId;
             if id in s.runs then
               && id in s'.runs && s'.runs == s.runs[id := s'.runs[id]]
               && (s'.runs[id] != s.runs[id] ==> Live(s, t))
               && s'.runs[id].id == id && RunOk(s'.runs[id], s.now) && CountsOk(s', id)
               && (Live(s', t) ==> TaskOk(s'.tasks[t], s'.runs[id]))
             else s'.runs == s.runs
    ensures Inv(s')
  {
    var id := s.tasks[t].runId;
    forall u | Live(s', u) ensures Live(s, u) && (u != t ==> s'.tasks[u] == s.tasks[u]) {
      assert u != t ==> u in s.tasks - {t} && (s'.tasks - {t})[u] == (s.tasks - {t})[u];
    }
    forall other | other in s'.runs ensures RunOk(s'.runs[other], s'.now) && CountsOk(s', other) {
      if other != id { assert CountsOk(s, other); }
    }
    forall u | u in s'.tasks ensures s'.tasks[u].runId in s'.used {
      assert u != t ==> (s'.tasks - {t})[u] == (s.tasks - {t})[u];
    }
  }

  /** A worker that writes inside its lease leaves the run in order and, unless it gave the lease back,
      still holds it. */
  lemma WrittenRunOk(task: Task, r: Run, move: Move, now: int)
    requires RunOk(r, now) && TaskOk(task, r) && now < task.until && MoveEnabled(task.phase, move)
    requires UpdateOf(task.phase, move, now).Some?
    ensures var u := UpdateOf(task.phase, move, now).value;
            var r' := Patched(r, u, now);
            && RunOk(r', now) && r'.id == r.id && r'.attempts == r.attempts && r'.maxAttempts == r.maxAttempts
            && (u.leaseExpiresAt.None? ==>
                  PhaseAfter(task.phase, move).Some? && TaskOk(task.(phase := PhaseAfter(task.phase, move).value), r'))
            && (u.leaseExpiresAt.Some? ==> u.leaseExpiresAt.value == now)
  {
    match move
    case StartReproducing => case RecordCommit(_) => case FinishWithoutOath => case CheckActive =>
    case WriteCancelled =>
    case FinishScan(_) => case StartRepair => case RecordReceipt(_, _) => case Reject => case RecordRepairCommit(_) =>
    case Publish(_, _) => case Return => case Fail => case ReadInCatch => case WriteFailure(_) => case Crash =>
  }

  lemma WriteKeeps(s: State, t: int, move: Move)
    requires Inv(s) && Enabled(s, Work(t, move)) && UpdateOf(s.tasks[t].phase, move, s.now).Some?
    requires s.tasks[t].runId in s.runs && Live(s, t)
    ensures Inv(Apply(s, Work(t, move)))
  {
    var s' := Apply(s, Work(t, move));
    var task, id := s.tasks[t], s.tasks[t].runId;
    var u := UpdateOf(task.phase, move, s.now).value;
    WrittenRunOk(task, s.runs[id], move, s.now);
    AfterWriteShape(s, t, move, u);
    WrittenCounts(s, t, move);
    TaskKeeps(s, s', t);
  }

  lemma WrittenCounts(s: State, t: int, move: Move)
    requires Inv(s) && Enabled(s, Work(t, move)) && UpdateOf(s.tasks[t].phase, move, s.now).Some?
    requires s.tasks[t].runId in s.runs && Live(s, t)
    ensures s.tasks[t].runId in Apply(s, Work(t, move)).runs && CountsOk(Apply(s, Work(t, move)), s.tasks[t].runId)
  {
    var s', task, id := Apply(s, Work(t, move)), s.tasks[t], s.tasks[t].runId;
    WrittenRunOk(task, s.runs[id], move, s.now);
    AfterWriteShape(s, t, move, UpdateOf(task.phase, move, s.now).value);
    assert CountsOk(s, id);
    assert OwnerApproved(s', id) ==> OwnerApproved(s, id);
  }

  lemma AfterWriteShape(s: State, t: int, move: Move, u: RunUpdate)
    requires t in s.tasks && s.tasks[t].runId in s.runs
    ensures var s', task := AfterWrite(s, t, move, u), s.tasks[t];
            && s' == s.(runs := s'.runs, tasks := s'.tasks)
            && s'.runs == s.runs[task.runId := Patched(s.runs[task.runId], u, s.now)]
            && s'.tasks - {t} == s.tasks - {t}
            && (t in s'.tasks <==> PhaseAfter(task.phase, move).Some?)
            && (t in s'.tasks ==> s'.tasks[t] == task.(phase := PhaseAfter(task.phase, move).value,
                                        until := if u.leaseExpiresAt.Some? then u.leaseExpiresAt.value else task.until))
  {
  }

  lemma AfterReadShape(s: State, t: int, move: Move)
    requires Enabled(s, Work(t, move))
    requires UpdateOf(s.tasks[t].phase, move, s.now).Some? ==> s.tasks[t].runId !in s.runs
    ensures var s', task := AfterMove(s, t, move), s.tasks[t];
            && s' == s.(tasks := s'.tasks) && s'.tasks - {t} == s.tasks - {t}
            && (t in s'.tasks ==> s'.tasks[t] == task.(phase := s'.tasks[t].phase))
            && (t in s'.tasks && task.runId in s.runs ==>
                  (TaskOk(task, s.runs[task.runId]) ==> TaskOk(s'.tasks[t], s.runs[task.runId])))
  {
  }

  lemma ReadKeeps(s: State, t: int, move: Move)
    requires Inv(s) && Enabled(s, Work(t, move))
    requires UpdateOf(s.tasks[t].phase, move, s.now).Some? ==> s.tasks[t].runId !in s.runs
    ensures Inv(Apply(s, Work(t, move)))
  {
    var s' := Apply(s, Work(t, move));
    var id := s.tasks[t].runId;
    AfterReadShape(s, t, move);
    if id in s.runs {
      assert CountsOk(s, id);
      assert OwnerApproved(s', id) ==> OwnerApproved(s, id);
    }
    TaskKeeps(s, s', t);
  }

  lemma StepKeeps(s: State, step: Step)
    requires Inv(s) && Enabled(s, step) && Fenced(s, step)
    ensures Inv(Apply(s, step))
  {
    match step
    case Tick(ms) => TickKeeps(s, ms);
    case Create(run) => CreateKeeps(s, run);
    case Claim(t, id, worker, leaseMs) => ClaimKeeps(s, t, id, worker, leaseMs);
    case Work(t, move) => if IsWrite(s, step) { WriteKeeps(s, t, move); } else { ReadKeeps(s, t, move); }
    case Monitor(id, passed, failure) => MonitorKeeps(s, id, passed, failure);
    case AskCancel(id) => CancelKeeps(s, id);
    case AskRetry(id) => RetryKeeps(s, id);
    case OwnerDecides(approval, incident) => DecisionKeeps(s, approval, incident);
    case Delete(repository) => DeleteKeeps(s, repository);
  }

  /** The invariant holds in every state of every fenced execution. */
  lemma {:induction false} RunKeeps(s: State, steps: seq<Step>)
    requires Inv(s) && FencedRun(s, steps)
    ensures Valid(s, steps) && Inv(After(s, steps))
    decreases |steps|
  {
    FencedRunsAreValid(s, steps);
    if steps != [] {
      StepKeeps(s, steps[0]);
      RunKeeps(Apply(s, steps[0]), steps[1..]);
    }
  }

  lemma StartHolds(now: int, database: bool)
    ensures Inv(Start(now, database))
  {
  }
}
