/** What the run protocol guarantees over whole executions, and exactly where its guarantees end. */
module RunTheorems {
  import opened Wrappers
  import opened RunRecords
  import opened RunProtocol
  import opened RunInvariants

  /** A state some fenced execution of an empty control plane reaches. */
  ghost predicate Reachable(s: State) {
    exists now, database, steps :: FencedRun(Start(now, database), steps) && Valid(Start(now, database), steps)
                                   && s == After(Start(now, database), steps)
  }

  lemma ReachableHolds(s: State)
    requires Reachable(s)
    ensures Inv(s)
  {
    var now, database, steps :| FencedRun(Start(now, database), steps) && Valid(Start(now, database), steps)
                                && s == After(Start(now, database), steps);
    StartHolds(now, database);
    RunKeeps(Start(now, database), steps);
  }

  // ----- Leases ----------------------------------------------------------------------------------

  /** Leases are exclusive: one worker at most is inside its lease for a run, nobody can claim the run
      meanwhile, and no lease is alive on a run that has left the queue. */
  lemma LeasesAreExclusive(s: State)
    requires Reachable(s)
    ensures forall t, u, id :: LiveOn(s, t, id) && LiveOn(s, u, id) ==> t == u
    ensures forall t, id :: LiveOn(s, t, id) && id in s.runs ==>
              InQueue(s.runs[id].status) && s.runs[id].leaseExpiresAt == Some(s.tasks[t].until)
                && !Claimable(s.runs[id], s.now)
    ensures forall id :: id in s.runs && !InQueue(s.runs[id].status) ==> Past(s.runs[id].leaseExpiresAt, s.now)
  {
    ReachableHolds(s);
    forall t, id | LiveOn(s, t, id) && id in s.runs
      ensures InQueue(s.runs[id].status) && s.runs[id].leaseExpiresAt == Some(s.tasks[t].until)
          && !Claimable(s.runs[id], s.now) {
      assert TaskOk(s.tasks[t], s.runs[id]);
    }
  }

  /** The fence is needed at every point of every claim: once a worker's lease has run out, a second
      worker can be inside the same run, and every write the first one still makes lands on it. */
  lemma LateWritesHitTheNextWorker(s: State, t: int, u: int, id: string, worker: string, leaseMs: nat, move: Move)
    requires Inv(s) && LiveOn(s, t, id) && id in s.runs && u !in s.tasks && leaseMs > 0
    requires !s.runs[id].cancelRequested && s.runs[id].attempts < s.runs[id].maxAttempts
    requires MoveEnabled(s.tasks[t].phase, move)
    requires UpdateOf(s.tasks[t].phase, move, s.tasks[t].until).Some?
    ensures var steps := [Tick(s.tasks[t].until - s.now), Claim(u, id, worker, leaseMs)];
            && FencedRun(s, steps) && Valid(s, steps)
            && var s2 := After(s, steps);
               && LiveOn(s2, u, id) && Enabled(s2, Work(t, move)) && IsWrite(s2, Work(t, move))
               && !Fenced(s2, Work(t, move))
  {
    var tick, claim := Tick(s.tasks[t].until - s.now), Claim(u, id, worker, leaseMs);
    assert TaskOk(s.tasks[t], s.runs[id]);
    SecondClaim(s, t, u, id, worker, leaseMs);
    Prepend(Apply(s, tick), claim, []);
    Prepend(s, tick, [claim]);
    assert [claim] + [] == [claim] && [tick] + [claim] == [tick, claim];
  }

  /** Once the lease has run out, another worker may claim the run, and the first is none the wiser. */
  lemma SecondClaim(s: State, t: int, u: int, id: string, worker: string, leaseMs: nat)
    requires Inv(s) && LiveOn(s, t, id) && id in s.runs && u !in s.tasks && leaseMs > 0
    requires !s.runs[id].cancelRequested && s.runs[id].attempts < s.runs[id].maxAttempts
    ensures var tick, claim := Tick(s.tasks[t].until - s.now), Claim(u, id, worker, leaseMs);
            && Enabled(s, tick) && Enabled(Apply(s, tick), claim)
            && var s2 := Apply(Apply(s, tick), claim);
               && LiveOn(s2, u, id) && s2.now == s.tasks[t].until && t in s2.tasks && s2.tasks[t] == s.tasks[t]
               && id in s2.runs
  {
    assert TaskOk(s.tasks[t], s.runs[id]);
  }

  lemma Prepend(s: State, step: Step, steps: seq<Step>)
    requires Enabled(s, step) && Valid(Apply(s, step), steps)
    ensures Valid(s, [step] + steps) && After(s, [step] + steps) == After(Apply(s, step), steps)
    ensures FencedRun(s, [step] + steps) <==> Fenced(s, step) && FencedRun(Apply(s, step), steps)
  {
    assert ([step] + steps)[1..] == steps;
  }

  lemma PublishedState(s: State, t: int, id: string, branch: string, url: string)
    requires Inv(s) && LiveOn(s, t, id) && id in s.runs && s.tasks[t].phase == Pushing
    ensures Enabled(s, Work(t, Publish(branch, url)))
    ensures var s1 := Apply(s, Work(t, Publish(branch, url)));
            && t in s1.tasks && s1.tasks[t] == s.tasks[t].(phase := Returning, until := s.now) && s1.now == s.now
            && id in s1.runs && s1.runs[id].status == CiPending && s1.runs[id].pullRequestUrl == Some(url)
            && s1.runs[id].repairCommit.Some?
  {
    assert TaskOk(s.tasks[t], s.runs[id]);
  }

  /** A worker that has given its lease back and fails afterwards still writes its failure. */
  lemma CaughtWrites(s: State, t: int, id: string, message: string)
    requires t in s.tasks && s.tasks[t].runId == id && id in s.runs && s.runs[id].status != Cancelled
    requires s.tasks[t].phase == Returning && s.tasks[t].until <= s.now
    ensures var steps := [Work(t, Fail)] + ([Work(t, ReadInCatch)] + ([Work(t, WriteFailure(message))] + []));
            && Valid(s, steps) && !FencedRun(s, steps)
            && var end := After(s, steps);
               && id in end.runs && (end.runs[id].status == RetryWait || end.runs[id].status == Blocked)
               && end.runs[id].pullRequestUrl == s.runs[id].pullRequestUrl
               && end.runs[id].repairCommit == s.runs[id].repairCommit
  {
    var s1 := Apply(s, Work(t, Fail));
    var s2 := Apply(s1, Work(t, ReadInCatch));
    assert s2.tasks[t].phase.Failing? && !Fenced(s2, Work(t, WriteFailure(message)));
    Prepend(s2, Work(t, WriteFailure(message)), []);
    Prepend(s1, Work(t, ReadInCatch), [Work(t, WriteFailure(message))] + []);
    Prepend(s, Work(t, Fail), [Work(t, ReadInCatch)] + ([Work(t, WriteFailure(message))] + []));
  }

  /** A worker whose log line fails after it opened the pull request falls into its own catch block and
      takes the run back out of CI: it writes after it gave its lease back, which only the fence forbids. */
  lemma LogFailureUndoesPublication(s: State, t: int, id: string, branch: string, url: string, message: string)
    requires Inv(s) && LiveOn(s, t, id) && id in s.runs && s.tasks[t].phase == Pushing
    ensures var steps := [Work(t, Publish(branch, url))]
                         + ([Work(t, Fail)] + ([Work(t, ReadInCatch)] + ([Work(t, WriteFailure(message))] + [])));
            && Valid(s, steps) && !FencedRun(s, steps)
            && var end := After(s, steps);
               && id in end.runs && (end.runs[id].status == RetryWait || end.runs[id].status == Blocked)
               && end.runs[id].pullRequestUrl == Some(url) && end.runs[id].repairCommit.Some?
  {
    PublishedState(s, t, id, branch, url);
    CaughtWrites(Apply(s, Work(t, Publish(branch, url))), t, id, message);
    Prepend(s, Work(t, Publish(branch, url)),
            [Work(t, Fail)] + ([Work(t, ReadInCatch)] + ([Work(t, WriteFailure(message))] + [])));
  }

  /** The file store's cancellation, which decides from an earlier read, does what the database does in
      one statement exactly when the run's ownership has not changed in between (or the run was
      cancelled anyway); a claim in between leaves a cancelled run under a live lease. */
  lemma SplitCancellationIsAtomicIff(read: Run, r: Run, worker: string, now: int, leaseMs: nat)
    ensures CancelAskedFrom(r, read, now) == CancelAsked(r, now) <==>
              ((read.leaseOwner.None? <==> r.leaseOwner.None?) || r.status == Cancelled)
    ensures read.leaseOwner.None? && Claimable(read, now) && leaseMs > 0 ==>
              var late := CancelAskedFrom(Claimed(read, worker, now, leaseMs), read, now);
              late.status == Cancelled && !Past(late.leaseExpiresAt, now) && !RunOk(late, now)
  {
  }

  // ----- Lifecycle -------------------------------------------------------------------------------

  /** A decision is attested to as it was made, of what was delivered. */
  lemma DecisionIsAttested(s: State, approval: Approval, incident: Incident)
    requires Inv(s) && Enabled(s, OwnerDecides(approval, incident))
    ensures var s', r := Apply(s, OwnerDecides(approval, incident)), s.runs[approval.runId];
            && |s'.attestations| == |s.attestations| + 1
            && var t := s'.attestations[|s.attestations|];
               && t.approved == approval.approved && t.runId == r.id && t.repository == r.repository
               && t.incidentId == incident.id && t.id == "ATTESTATION-" + approval.id
               && r.repairId == Some(t.repairId) && r.branch == Some(t.branch)
               && r.pullRequestUrl == Some(t.pullRequestUrl) && r.repairCommit == t.repairCommit && t.repairCommit.Some?
               && s'.runs[approval.runId].status == if t.approved then Completed else Blocked
  {
    assert RunOk(s.runs[approval.runId], s.now);
  }

  /** The lifecycle of a stored run. */
  lemma LifecycleHolds(s: State, id: string)
    requires Reachable(s) && id in s.runs
    ensures var r := s.runs[id];
            && (r.leaseOwner.None? ==> r.status == Received || r.status == Cancelled)
            && (r.status == CiPending || r.status == CiFailed || r.status == AwaitingApproval ==>
                  Delivered(r) && forall incident, approval :: CreateFinalAttestation(r, incident, approval).Ok?)
            && Approvals(s.approvals, id) == Attestations(s.attestations, id) <= 1 + Count(s.retries, id)
            && (s.database ==> Approvals(s.approvals, id) <= 1)
            && (OwnerApproved(s, id) ==> r.status == Completed)
  {
    ReachableHolds(s);
    assert CountsOk(s, id) && RunOk(s.runs[id], s.now);
  }

  /** Attempts stay within their limit, claims within the limit times one more than the retries, and a
      run that waits to be retried has an attempt left. */
  lemma AttemptsAreBounded(s: State, id: string)
    requires Reachable(s) && id in s.runs
    ensures var r := s.runs[id];
            && 0 <= r.attempts <= r.maxAttempts
            && Count(s.claims, id) <= r.maxAttempts * (1 + Count(s.retries, id))
            && (r.status == RetryWait && r.nextAttemptAt.Some? ==> r.attempts < r.maxAttempts)
  {
    ReachableHolds(s);
    assert CountsOk(s, id) && RunOk(s.runs[id], s.now);
    BudgetIsProduct(s.runs[id].maxAttempts, Count(s.retries, id));
    var m, n := s.runs[id].maxAttempts, Count(s.retries, id);
    assert m * (1 + n) == m + m * n;
  }

  lemma {:induction false} BudgetIsProduct(m: int, n: nat)
    ensures Budget(m, n) == m * n
  {
    if n > 0 {
      BudgetIsProduct(m, n - 1);
      assert m * n == m * (n - 1) + m;
    }
  }

  /** The status `retry_wait` alone does not mean that an attempt is left: a claim leaves the status, so
      the last claim of a waiting run produces a run in `retry_wait` with none. */
  lemma LastClaimLeavesRetryWait(s: State, t: int, id: string, worker: string, leaseMs: nat)
    requires Inv(s) && Enabled(s, Claim(t, id, worker, leaseMs)) && s.runs[id].status == RetryWait
    ensures var r := Apply(s, Claim(t, id, worker, leaseMs)).runs[id];
            r.status == RetryWait && r.nextAttemptAt.None?
            && (r.attempts < r.maxAttempts <==> s.runs[id].attempts + 1 < s.runs[id].maxAttempts)
  {
  }

  // ----- What a single step can do to a run ------------------------------------------------------

  /** Ids do not come back. */
  lemma IdsStayUsed(s: State, step: Step, id: string)
    requires Enabled(s, step) && id in s.used
    ensures id in Apply(s, step).used
    ensures id !in s.runs ==> id !in Apply(s, step).runs
    ensures Apply(s, step).database == s.database
  {
    if step.Work? { WorkKeepsIds(s, step.task, step.move); }
  }

  lemma WriteKeepsIds(s: State, t: int, move: Move, u: RunUpdate)
    requires t in s.tasks
    ensures var s' := AfterWrite(s, t, move, u);
        s'.used == s.used && s'.runs.Keys == s.runs.Keys && s'.database == s.database
  {
  }

  lemma WorkKeepsIds(s: State, t: int, move: Move)
    requires Enabled(s, Work(t, move))
    ensures var s' := AfterMove(s, t, move);
        s'.used == s.used && s'.runs.Keys == s.runs.Keys && s'.database == s.database
  {
    match UpdateOf(s.tasks[t].phase, move, s.now)
    case Some(u) => WriteKeepsIds(s, t, move, u);
    case None =>
  }

  /** A run that no worker holds changes only when it is claimed, deleted, or acted on from outside. */
  lemma UnheldRunStays(s: State, step: Step, id: string)
    requires Inv(s) && Enabled(s, step) && Fenced(s, step) && id in s.runs && id in Apply(s, step).runs
    requires forall t :: !LiveOn(s, t, id)
    ensures Apply(s, step).runs[id] == s.runs[id]
            || (step.Claim? && step.id == id) || (step.Monitor? && step.id == id) || (step.AskCancel? && step.id == id)
            || (step.AskRetry? && step.id == id) || (step.OwnerDecides? && step.approval.runId == id)
  {
    if step.Work? {
      if IsWrite(s, step) {
        assert !LiveOn(s, step.task, id);
        AfterWriteShape(s, step.task, step.move, UpdateOf(s.tasks[step.task].phase, step.move, s.now).value);
      } else {
        AfterReadShape(s, step.task, step.move);
      }
    }
  }

  /** A claim is the only way for a run nobody holds to be held. */
  lemma StaysUnheld(s: State, step: Step, id: string)
    requires Inv(s) && Enabled(s, step) && Fenced(s, step)
    requires forall t :: !LiveOn(s, t, id)
    requires !(step.Claim? && step.id == id)
    ensures forall t :: !LiveOn(Apply(s, step), t, id)
  {
    var s' := Apply(s, step);
    forall t ensures !LiveOn(s', t, id) {
      assert !LiveOn(s, t, id);
      if step.Work? {
        var u := step.task;
        if IsWrite(s, step) {
          AfterWriteShape(s, u, step.move, UpdateOf(s.tasks[u].phase, step.move, s.now).value);
        } else {
          AfterReadShape(s, u, step.move);
        }
        if t != u && t in s'.tasks { assert t in s'.tasks - {u} && (s'.tasks - {u})[t] == (s.tasks - {u})[t]; }
        if t == u && IsWrite(s, step) && t in s'.tasks { assert s'.tasks[t].until <= s.tasks[t].until; }
      }
    }
  }

  // ----- Owner approval --------------------------------------------------------------------------

  lemma ApprovalStays(s: State, step: Step, id: string)
    requires Inv(s) && Enabled(s, step) && Fenced(s, step) && id in s.runs && id in Apply(s, step).runs
    ensures OwnerApproved(s, id) ==> OwnerApproved(Apply(s, step), id)
    ensures HasApproval(s, id) ==> HasApproval(Apply(s, step), id)
  {
    var s' := Apply(s, step);
    if step.Delete? {
      var gone := RunsOf(s, step.repository);
      forall i | 0 <= i < |s.approvals| && s.approvals[i].runId == id ensures s.approvals[i] in s'.approvals {
        KeptStays(s.approvals, gone, i);
      }
    } else {
      assert s.approvals <= s'.approvals by {
        if step.Work? {
          if IsWrite(s, step) {
            AfterWriteShape(s, step.task, step.move, UpdateOf(s.tasks[step.task].phase, step.move, s.now).value);
          } else {
            AfterReadShape(s, step.task, step.move);
          }
        }
      }
      forall i | 0 <= i < |s.approvals| ensures s'.approvals[i] == s.approvals[i] {
      }
    }
  }

  lemma {:induction false} KeptStays(xs: seq<Approval>, gone: set<string>, i: nat)
    requires i < |xs| && xs[i].runId !in gone
    ensures xs[i] in KeepApprovals(xs, gone)
  {
    if i > 0 {
      KeptStays(xs[1..], gone, i - 1);
    }
  }

  /** An owner's approval is final: the run stays completed until its data is deleted. */
  lemma {:induction false} ApprovalIsFinal(s: State, steps: seq<Step>, id: string)
    requires Inv(s) && FencedRun(s, steps) && id in s.used && (id in s.runs ==> OwnerApproved(s, id))
    ensures Valid(s, steps) && (id in After(s, steps).runs ==> After(s, steps).runs[id].status == Completed)
    decreases |steps|
  {
    FencedRunsAreValid(s, steps);
    if steps == [] {
      if id in s.runs { assert CountsOk(s, id); }
    } else {
      var s' := Apply(s, steps[0]);
      StepKeeps(s, steps[0]);
      IdsStayUsed(s, steps[0], id);
      if id in s'.runs {
        ApprovalStays(s, steps[0], id);
      }
      ApprovalIsFinal(s', steps[1..], id);
    }
  }

  ghost predicate Undecidable(s: State, id: string) {
    s.database && id in s.used && (id in s.runs ==> HasApproval(s, id))
  }

  lemma UndecidableStays(s: State, step: Step, id: string)
    requires Inv(s) && Enabled(s, step) && Fenced(s, step) && Undecidable(s, id)
    ensures Undecidable(Apply(s, step), id)
  {
    IdsStayUsed(s, step, id);
    if id in Apply(s, step).runs {
      ApprovalStays(s, step, id);
    }
  }

  lemma {:induction false} FirstDecisionStays(s: State, steps: seq<Step>, id: string)
    requires Inv(s) && FencedRun(s, steps) && Undecidable(s, id)
    ensures Valid(s, steps) && Undecidable(After(s, steps), id)
    decreases |steps|
  {
    FencedRunsAreValid(s, steps);
    if steps != [] {
      StepKeeps(s, steps[0]);
      UndecidableStays(s, steps[0], id);
      FirstDecisionStays(Apply(s, steps[0]), steps[1..], id);
    }
  }

  /** On the database, which admits one approval per run, the first decision is the only one: a run that
      was rejected can be retried, but no later decision on it is ever accepted. */
  lemma DatabaseDecidesOnce(s: State, steps: seq<Step>, id: string, approval: Approval, incident: Incident)
    requires Inv(s) && FencedRun(s, steps) && s.database && approval.runId == id
    requires id in s.runs && HasApproval(s, id)
    ensures Valid(s, steps) && !Enabled(After(s, steps), OwnerDecides(approval, incident))
  {
    FirstDecisionStays(s, steps, id);
  }

  // ----- Backoff ---------------------------------------------------------------------------------

  ghost predicate Claims(steps: seq<Step>, id: string) {
    exists i :: 0 <= i < |steps| && steps[i].Claim? && steps[i].id == id
  }

  ghost predicate Waits(s: State, id: string, until: int) {
    id in s.used && (id in s.runs ==> s.runs[id].status == RetryWait && s.runs[id].nextAttemptAt == Some(until))
  }

  lemma {:induction false} WaitingLasts(s: State, steps: seq<Step>, id: string, until: int)
    requires Inv(s) && FencedRun(s, steps) && Waits(s, id, until) && !Claims(steps, id)
    ensures Valid(s, steps) && Waits(After(s, steps), id, until)
    decreases |steps|
  {
    FencedRunsAreValid(s, steps);
    if steps != [] {
      var s' := Apply(s, steps[0]);
      StepKeeps(s, steps[0]);
      IdsStayUsed(s, steps[0], id);
      if id in s.runs && id in s'.runs {
        assert RunOk(s.runs[id], s.now);
        NoLiveTask(s, id);
        UnheldRunStays(s, steps[0], id);
      }
      assert forall i :: 0 <= i < |steps| - 1 ==> steps[1..][i] == steps[i + 1];
      WaitingLasts(s', steps[1..], id, until);
    }
  }

  /** A worker inside its lease writes that a failed attempt was not the last. */
  ghost predicate FailsTo(s: State, t: int, message: string, s1: State) {
    && Inv(s) && Live(s, t) && s.tasks[t].runId in s.runs && s.tasks[t].phase.Failing? && !s.tasks[t].phase.terminal
    && s1 == Apply(s, Work(t, WriteFailure(message)))
  }

  lemma Pow2Grows(n: nat)
    ensures Pow2(n) >= 1 && (n >= 6 ==> Pow2(n) >= 64)
    decreases n
  {
    if n > 6 { Pow2Grows(n - 1); }
  }

  /** The delays: a minute, then each twice the one before it up to an hour, which the seventh has reached. */
  lemma RetryDelays(attempts: int)
    ensures attempts <= 1 ==> RetryDelay(attempts) == 60_000
    ensures attempts >= 1 ==>
              RetryDelay(attempts + 1) == if 2 * RetryDelay(attempts) < 3_600_000 then 2 * RetryDelay(attempts)
                else 3_600_000
    ensures attempts >= 7 ==> RetryDelay(attempts) == 3_600_000
  {
    if attempts >= 1 { Pow2Grows(attempts - 1); }
  }

  /** Minutes to wait after so many attempts. */
  lemma DelayInMinutes(attempts: int)
    ensures RetryDelay(attempts) ==
            60_000 * if attempts <= 1 then 1 else if attempts == 2 then 2 else if attempts == 3 then 4
                     else if attempts == 4 then 8 else if attempts == 5 then 16 else if attempts == 6 then 32 else 60
  {
    RetryDelays(1);
    RetryDelays(2);
    RetryDelays(3);
    RetryDelays(4);
    RetryDelays(5);
    RetryDelays(attempts);
  }

  /** A failed attempt k backs off: nothing shortens its wait until the run is claimed again, and that becomes
      possible just when one, two, four, eight, sixteen, thirty-two or, from the seventh attempt on, sixty
      minutes have passed. */
  lemma FailureBacksOff(s: State, t: int, message: string, s1: State, steps: seq<Step>, claim: Step)
    requires FailsTo(s, t, message, s1) && FencedRun(s1, steps)
    requires claim.Claim? && claim.id == s.tasks[t].runId && !Claims(steps, claim.id)
    ensures Valid(s1, steps)
    ensures var end, k := After(s1, steps), s.runs[claim.id].attempts;
            Enabled(end, claim) <==>
              && claim.task !in end.tasks && claim.id in end.runs && !end.runs[claim.id].cancelRequested
              && end.now >= s.now
                   + 60_000 * if k <= 1 then 1 else if k == 2 then 2 else if k == 3 then 4 else if k == 4 then 8
                              else if k == 5 then 16 else if k == 6 then 32 else 60
  {
    FailureWaits(s, t, message, s1, claim.id);
    ClaimAfterWaiting(s1, steps, claim, s.now + RetryDelay(s.runs[claim.id].attempts));
    DelayInMinutes(s.runs[claim.id].attempts);
  }

  lemma ClaimAfterWaiting(s: State, steps: seq<Step>, claim: Step, until: int)
    requires Inv(s) && FencedRun(s, steps) && claim.Claim? && Waits(s, claim.id, until) && !Claims(steps, claim.id)
    ensures Valid(s, steps)
    ensures var end := After(s, steps);
            Enabled(end, claim) <==>
            claim.task !in end.tasks && claim.id in end.runs && !end.runs[claim.id].cancelRequested && end.now >= until
  {
    WaitingLasts(s, steps, claim.id, until);
    RunKeeps(s, steps);
    WaitsUntil(After(s, steps), claim, until);
  }

  /** A run that waits can be claimed from then on, unless it is to be cancelled. */
  lemma WaitsUntil(s: State, claim: Step, until: int)
    requires Inv(s) && claim.Claim? && Waits(s, claim.id, until)
    ensures Enabled(s, claim) <==>
            claim.task !in s.tasks && claim.id in s.runs && !s.runs[claim.id].cancelRequested && s.now >= until
  {
    if claim.id in s.runs { assert RunOk(s.runs[claim.id], s.now); }
  }

  /** The record a failed, not yet final attempt leaves behind. */
  lemma FailedRun(task: Task, r: Run, message: string, now: int)
    requires TaskOk(task, r) && task.phase.Failing? && !task.phase.terminal
    ensures UpdateOf(task.phase, WriteFailure(message), now).Some?
    ensures var r' := Patched(r, UpdateOf(task.phase, WriteFailure(message), now).value, now);
            r'.status == RetryWait && r'.nextAttemptAt == Some(now + RetryDelay(r.attempts))
  {
  }

  lemma FailureWaits(s: State, t: int, message: string, s1: State, id: string)
    requires FailsTo(s, t, message, s1) && id == s.tasks[t].runId
    ensures Inv(s1) && Waits(s1, id, s.now + RetryDelay(s.runs[id].attempts))
  {
    WriteKeeps(s, t, WriteFailure(message));
    FailureIsNoted(s, t, message, id);
  }

  lemma FailureIsNoted(s: State, t: int, message: string, id: string)
    requires t in s.tasks && s.tasks[t].runId == id && id in s.runs && TaskOk(s.tasks[t], s.runs[id])
    requires s.tasks[t].phase.Failing? && !s.tasks[t].phase.terminal && id in s.used
    ensures Waits(Apply(s, Work(t, WriteFailure(message))), id, s.now + RetryDelay(s.runs[id].attempts))
  {
    var task := s.tasks[t];
    FailedRun(task, s.runs[id], message, s.now);
    AfterWriteShape(s, t, WriteFailure(message), UpdateOf(task.phase, WriteFailure(message), s.now).value);
  }

  // ----- Recovery --------------------------------------------------------------------------------

  /** Nothing takes the run out of the queue any more: no claim, no retry, no cancellation. */
  ghost predicate Stuck(s: State, id: string) {
    && id in s.used
    && (id in s.runs ==>
          && InQueue(s.runs[id].status) && s.runs[id].leaseOwner.Some?
          && (s.runs[id].cancelRequested || s.runs[id].attempts >= s.runs[id].maxAttempts))
    && (forall t :: !LiveOn(s, t, id))
  }

  lemma {:induction false} StuckForever(s: State, steps: seq<Step>, id: string)
    requires Inv(s) && FencedRun(s, steps) && Stuck(s, id)
    ensures Valid(s, steps) && Stuck(After(s, steps), id)
    ensures id in After(s, steps).runs ==> id in s.runs && After(s, steps).runs[id].status == s.runs[id].status
    decreases |steps|
  {
    FencedRunsAreValid(s, steps);
    if steps != [] {
      var s' := Apply(s, steps[0]);
      StepKeeps(s, steps[0]);
      IdsStayUsed(s, steps[0], id);
      StaysUnheld(s, steps[0], id);
      if id in s.runs && id in s'.runs {
        UnheldRunStays(s, steps[0], id);
      }
      StuckForever(s', steps[1..], id);
    }
  }

  /** Some fenced execution from here claims the run. */
  ghost predicate Recoverable(s: State, id: string) {
    exists steps, t, worker, leaseMs ::
      FencedRun(s, steps) && Valid(s, steps) && Enabled(After(s, steps), Claim(t, id, worker, leaseMs))
  }

  /** Stale leases are recoverable exactly when the lost run has an attempt left and nobody asked to
      cancel it. Otherwise the run stays in the queue, unclaimable, whatever anyone does short of
      deleting its data. */
  lemma StaleLeasesAreRecoverableIff(s: State, id: string, idle: int)
    requires Inv(s) && id in s.runs && InQueue(s.runs[id].status) && s.runs[id].leaseOwner.Some?
    requires idle !in s.tasks && forall t :: !LiveOn(s, t, id)
    ensures Recoverable(s, id) <==> !s.runs[id].cancelRequested && s.runs[id].attempts < s.runs[id].maxAttempts
    ensures !Recoverable(s, id) ==> Stuck(s, id)
  {
    var r := s.runs[id];
    if !r.cancelRequested && r.attempts < r.maxAttempts {
      var wait := Longest(r, s.now);
      var steps := [Tick(wait)];
      assert steps[1..] == [];
      var s' := Apply(s, Tick(wait));
      assert After(s, steps) == After(s', []) == s';
      assert Enabled(s', Claim(idle, id, "", 0));
      assert FencedRun(s, steps) && Valid(s, steps) && Enabled(After(s, steps), Claim(idle, id, "", 0));
    } else {
      assert Stuck(s, id);
      forall steps, t, worker, leaseMs | FencedRun(s, steps) && Valid(s, steps)
        ensures !Enabled(After(s, steps), Claim(t, id, worker, leaseMs)) {
        StuckForever(s, steps, id);
      }
    }
  }

  function Longest(r: Run, now: int): nat {
    var a := if r.nextAttemptAt.Some? then r.nextAttemptAt.value - now else 0;
    var b := if r.leaseExpiresAt.Some? then r.leaseExpiresAt.value - now else 0;
    if a >= b && a > 0 then a else if b > 0 then b else 0
  }

  /** A worker that crashes on the last attempt strands its run: it can never be claimed, retried or
      cancelled again. */
  lemma CrashOnLastAttemptStrands(s: State, t: int, id: string, steps: seq<Step>)
    requires Inv(s) && LiveOn(s, t, id) && id in s.runs && s.runs[id].attempts == s.runs[id].maxAttempts
    requires FencedRun(Apply(s, Work(t, Crash)), steps)
    ensures var s1 := Apply(s, Work(t, Crash));
            && Valid(s1, steps)
            && (id in After(s1, steps).runs ==>
                After(s1, steps).runs[id].status == s.runs[id].status && InQueue(s.runs[id].status))
  {
    var s1 := Apply(s, Work(t, Crash));
    assert TaskOk(s.tasks[t], s.runs[id]);
    StepKeeps(s, Work(t, Crash));
    AfterReadShape(s, t, Crash);
    forall u ensures !LiveOn(s1, u, id) {
      if u in s1.tasks && u != t { assert s1.tasks[u] == s.tasks[u]; }
    }
    StuckForever(s1, steps, id);
  }

  /** A cancellation asked for while a run waits for its next attempt never takes effect: the run keeps
      its status for good. */
  lemma CancelDuringBackoffStrands(s: State, id: string, steps: seq<Step>)
    requires Inv(s) && id in s.runs && s.runs[id].status == RetryWait && s.runs[id].nextAttemptAt.Some?
    requires FencedRun(Apply(s, AskCancel(id)), steps)
    ensures Valid(Apply(s, AskCancel(id)), steps)
    ensures var end := After(Apply(s, AskCancel(id)), steps); id in end.runs ==> end.runs[id].status == RetryWait
  {
    var s1 := Apply(s, AskCancel(id));
    assert RunOk(s.runs[id], s.now);
    StepKeeps(s, AskCancel(id));
    NoLiveTask(s1, id);
    StuckForever(s1, steps, id);
  }

  // ----- Progress --------------------------------------------------------------------------------

  ghost function Remaining(ids: set<string>, runs: map<string, Run>): int
    requires ids <= runs.Keys
  {
    if ids == {} then 0
    else
      var id :| id in ids;
      runs[id].maxAttempts - runs[id].attempts + Remaining(ids - {id}, runs)
  }

  lemma {:induction false} RemainingSplit(ids: set<string>, runs: map<string, Run>, id: string)
    requires ids <= runs.Keys && id in ids
    ensures Remaining(ids, runs) == runs[id].maxAttempts - runs[id].attempts + Remaining(ids - {id}, runs)
    decreases ids
  {
    var x :| x in ids && Remaining(ids, runs) == runs[x].maxAttempts - runs[x].attempts + Remaining(ids - {x}, runs);
    if x != id {
      RemainingSplit(ids - {x}, runs, id);
      RemainingSplit(ids - {id}, runs, x);
      assert ids - {x} - {id} == ids - {id} - {x};
    }
  }

  lemma {:induction false} RemainingSame(ids: set<string>, runs: map<string, Run>, runs': map<string, Run>)
    requires ids <= runs.Keys && ids <= runs'.Keys
    requires forall id :: id in ids ==>
               runs'[id].maxAttempts - runs'[id].attempts == runs[id].maxAttempts - runs[id].attempts
    ensures Remaining(ids, runs') == Remaining(ids, runs)
    decreases ids
  {
    if ids != {} {
      var id :| id in ids;
      RemainingSplit(ids, runs, id);
      RemainingSplit(ids, runs', id);
      RemainingSame(ids - {id}, runs, runs');
    }
  }

  lemma {:induction false} RemainingShrinks(ids: set<string>, more: set<string>, runs: map<string, Run>)
    requires ids <= more <= runs.Keys && forall id :: id in more ==> runs[id].attempts <= runs[id].maxAttempts
    ensures 0 <= Remaining(ids, runs) <= Remaining(more, runs)
    decreases more
  {
    if more != {} {
      var id :| id in more;
      RemainingSplit(more, runs, id);
      if id in ids {
        RemainingSplit(ids, runs, id);
        RemainingShrinks(ids - {id}, more - {id}, runs);
      } else {
        RemainingShrinks(ids, more - {id}, runs);
      }
    }
  }

  ghost predicate WithinLimits(s: State) {
    forall id :: id in s.runs ==> s.runs[id].attempts <= s.runs[id].maxAttempts
  }

  function ClaimCount(steps: seq<Step>): nat {
    if steps == [] then 0 else (if steps[0].Claim? then 1 else 0) + ClaimCount(steps[1..])
  }

  ghost predicate NoNewWork(steps: seq<Step>) {
    forall i :: 0 <= i < |steps| ==> !steps[i].Create? && !steps[i].AskRetry?
  }

  lemma StepSpends(s: State, step: Step)
    requires WithinLimits(s) && Enabled(s, step) && !step.Create? && !step.AskRetry?
    ensures WithinLimits(Apply(s, step)) && Apply(s, step).runs.Keys <= s.runs.Keys
    ensures step.Claim? ==> Apply(s, step).runs.Keys == s.runs.Keys
    ensures forall id :: id in Apply(s, step).runs ==>
      var r, r' := s.runs[id], Apply(s, step).runs[id];
      r'.maxAttempts == r.maxAttempts && r'.attempts == r.attempts + (if step.Claim? && step.id == id then 1 else 0)
  {
    if step.Work? {
      if IsWrite(s, step) {
        AfterWriteShape(s, step.task, step.move, UpdateOf(s.tasks[step.task].phase, step.move, s.now).value);
      } else {
        AfterReadShape(s, step.task, step.move);
      }
    }
  }

  /** With no new runs and no retries, the attempts that remain bound all further claims, whatever the
      workers do, fenced or not. */
  lemma {:induction false} ClaimsRunOut(s: State, steps: seq<Step>)
    requires WithinLimits(s) && Valid(s, steps) && NoNewWork(steps)
    ensures ClaimCount(steps) <= Remaining(s.runs.Keys, s.runs)
    decreases |steps|
  {
    RemainingShrinks({}, s.runs.Keys, s.runs);
    if steps != [] {
      var step, s' := steps[0], Apply(s, steps[0]);
      StepSpends(s, step);
      assert forall i :: 0 <= i < |steps| - 1 ==> steps[1..][i] == steps[i + 1];
      ClaimsRunOut(s', steps[1..]);
      RemainingShrinks(s'.runs.Keys, s.runs.Keys, s.runs);
      if step.Claim? {
        RemainingSplit(s.runs.Keys, s.runs, step.id);
        RemainingSplit(s'.runs.Keys, s'.runs, step.id);
        RemainingSame(s.runs.Keys - {step.id}, s.runs, s'.runs);
      } else {
        RemainingSame(s'.runs.Keys, s.runs, s'.runs);
      }
    }
  }
}
