/** That the ways in which a run goes wrong are real: each of them is met from an empty control plane, by an
    execution in which every worker keeps to its lease until the failing write. */
module RunWitnesses {
  import opened Wrappers
  import opened RunRecords
  import opened RunProtocol
  import opened RunInvariants
  import opened RunTheorems
  import opened RunCancellation

  lemma {:induction false} AppendStep(s: State, steps: seq<Step>, step: Step)
    requires FencedRun(s, steps) && Valid(s, steps) && Enabled(After(s, steps), step) && Fenced(After(s, steps), step)
    ensures FencedRun(s, steps + [step]) && Valid(s, steps + [step])
    ensures After(s, steps + [step]) == Apply(After(s, steps), step)
    decreases |steps|
  {
    if steps == [] {
      Prepend(s, step, []);
      assert [step] + [] == [step] == [] + [step];
    } else {
      AppendStep(Apply(s, steps[0]), steps[1..], step);
      assert (steps + [step])[1..] == steps[1..] + [step];
    }
  }

  lemma ReachableNext(s: State, step: Step)
    requires Reachable(s) && Enabled(s, step) && Fenced(s, step)
    ensures Reachable(Apply(s, step))
  {
    var now, database, steps :| FencedRun(Start(now, database), steps) && Valid(Start(now, database), steps)
                                && s == After(Start(now, database), steps);
    AppendStep(Start(now, database), steps, step);
    assert FencedRun(Start(now, database), steps + [step]);
  }

  // ----- A worker's way through a run ------------------------------------------------------------

  /** A worker inside its lease on a run that nobody asked to cancel. */
  ghost predicate Working(s: State, t: int, id: string) {
    Reachable(s) && LiveOn(s, t, id) && id in s.runs && !s.runs[id].cancelRequested
  }

  /** What a worker's moves leave alone. */
  ghost predicate SameElse(s: State, e: State, id: string) {
    && e.approvals == s.approvals && e.database == s.database && e.now == s.now && e.tasks.Keys <= s.tasks.Keys
    && (id in s.runs && id in e.runs ==>
          e.runs[id].attempts == s.runs[id].attempts && e.runs[id].maxAttempts == s.runs[id].maxAttempts)
  }

  /** A move that keeps the lease. */
  lemma MoveOn(s: State, t: int, id: string, move: Move) returns (e: State)
    requires Working(s, t, id) && MoveEnabled(s.tasks[t].phase, move)
    requires var u := UpdateOf(s.tasks[t].phase, move, s.now);
             if u.Some? then PhaseAfter(s.tasks[t].phase, move).Some?
                 && u.value.leaseExpiresAt.None? else move == CheckActive
    ensures Working(e, t, id) && SameElse(s, e, id) && Enabled(s, Work(t, move)) && e == Apply(s, Work(t, move))
    ensures e.tasks[t].phase ==
            if move != CheckActive then PhaseAfter(s.tasks[t].phase, move).value
            else if s.tasks[t].phase.Judged? then Accepted(s.tasks[t].phase.decision)
            else Scanned
  {
    e := Apply(s, Work(t, move));
    ReachableNext(s, Work(t, move));
  }

  lemma Scan(s: State, t: int, id: string) returns (e: State)
    requires Working(s, t, id) && s.tasks[t].phase == Entered
    ensures Working(e, t, id) && SameElse(s, e, id) && e.tasks[t].phase == Mending
  {
    e := MoveOn(s, t, id, StartReproducing);
    e := MoveOn(e, t, id, RecordCommit("commit"));
    e := MoveOn(e, t, id, CheckActive);
    e := MoveOn(e, t, id, StartRepair);
  }

  lemma Push(s: State, t: int, id: string) returns (e: State)
    requires Working(s, t, id) && s.tasks[t].phase == Entered
    ensures Working(e, t, id) && SameElse(s, e, id) && e.tasks[t].phase == Pushing
  {
    e := Scan(s, t, id);
    e := MoveOn(e, t, id, RecordReceipt("repair", Ready));
    e := MoveOn(e, t, id, CheckActive);
    e := MoveOn(e, t, id, RecordRepairCommit("fix"));
  }

  /** From delivery to review: the pull request is opened and its checks pass. */
  lemma Review(s: State, t: int, id: string) returns (e: State)
    requires Working(s, t, id) && s.tasks[t].phase == Pushing
    ensures Reachable(e) && id in e.runs && e.runs[id].status == AwaitingApproval && SameElse(s, e, id)
  {
    ReachableHolds(s);
    PublishedState(s, t, id, "branch", "url");
    e := Apply(s, Work(t, Publish("branch", "url")));
    ReachableNext(s, Work(t, Publish("branch", "url")));
    var step := Monitor(id, true, "");
    ReachableNext(e, step);
    e := Apply(e, step);
  }

  // ----- A first claim ---------------------------------------------------------------------------

  function Fresh(id: string, maxAttempts: int): Run {
    Run(id, "incident", "owner/repository", None, None, Received, None, None, None, None, None, 0, maxAttempts, None,
      None, None, false, 0, 0)
  }

  lemma FirstRun(maxAttempts: int, database: bool) returns (s: State)
    requires maxAttempts >= 1
    ensures Reachable(s) && s == Start(0, database).(runs := map["run" := Fresh("run", maxAttempts)], used := {"run"})
  {
    var start := Start(0, database);
    assert FencedRun(start, []) && Valid(start, []) && After(start, []) == start;
    ReachableNext(start, Create(Fresh("run", maxAttempts)));
    s := Apply(start, Create(Fresh("run", maxAttempts)));
  }

  /** A worker that has just claimed a new run, with as many attempts as wanted. */
  lemma FirstClaim(maxAttempts: int, database: bool) returns (s: State)
    requires maxAttempts >= 1
    ensures Working(s, 0, "run") && s.tasks[0].phase == Entered && s.approvals == [] && s.database == database
    ensures s.tasks.Keys == {0}
    ensures s.runs["run"].attempts == 1 && s.runs["run"].maxAttempts == maxAttempts
  {
    var first := FirstRun(maxAttempts, database);
    ReachableNext(first, Claim(0, "run", "worker", 1));
    s := Apply(first, Claim(0, "run", "worker", 1));
  }

  // ----- The failures ----------------------------------------------------------------------------

  lemma LoseLast(s: State, t: int, id: string) returns (e: State)
    requires Working(s, t, id) && s.runs[id].attempts == s.runs[id].maxAttempts
    ensures Reachable(e) && id in e.runs && !e.runs[id].cancelRequested && Stuck(e, id)
  {
    e := Apply(s, Work(t, Crash));
    ReachableNext(s, Work(t, Crash));
    ReachableHolds(s);
    assert TaskOk(s.tasks[t], s.runs[id]);
    AfterReadShape(s, t, Crash);
    forall u ensures !LiveOn(e, u, id) {
      if u in e.tasks && u != t { assert e.tasks[u] == s.tasks[u]; }
    }
  }

  /** A worker that crashes on the last attempt does strand its run. */
  lemma LostRunIsReachable()
    ensures exists s, id :: Reachable(s) && id in s.runs && !s.runs[id].cancelRequested && Stuck(s, id)
  {
    var s := FirstClaim(1, false);
    var e := LoseLast(s, 0, "run");
  }

  /** A worker does get to where a late write or a failing log line undoes its delivery. */
  lemma DeliveryIsReachable()
    ensures exists s, t, id ::
        Working(s, t, id) && s.tasks[t].phase == Pushing && s.runs[id].attempts < s.runs[id].maxAttempts
  {
    var s := FirstClaim(2, false);
    var e := Push(s, 0, "run");
    assert Working(e, 0, "run");
  }

  /** A run does get into review, where nobody looks for a cancellation. */
  lemma ReviewIsReachable()
    ensures exists s, id :: Reachable(s) && id in s.runs && s.runs[id].status == AwaitingApproval && !TakesCancel(s, id)
  {
    var s := FirstClaim(1, false);
    s := Push(s, 0, "run");
    s := Review(s, 0, "run");
    ReachableHolds(s);
    assert RunOk(s.runs["run"], s.now);
    NoLiveTask(s, "run");
  }

  /** A worker that fails early comes to its catch block. */
  lemma FailEarly(s: State, t: int, id: string) returns (e: State)
    requires Working(s, t, id) && s.tasks[t].phase == Entered
    ensures Working(e, t, id) && e.tasks[t].phase.Caught? && e.runs == s.runs
  {
    ReachableNext(s, Work(t, Fail));
    e := Apply(s, Work(t, Fail));
  }

  /** There it reads its run. */
  lemma Catch(s: State, t: int, id: string) returns (e: State)
    requires Working(s, t, id) && s.tasks[t].phase.Caught?
    ensures Working(e, t, id) && e.tasks[t].phase.Failing? && e.runs == s.runs
  {
    ReachableHolds(s);
    assert RunOk(s.runs[id], s.now);
    ReachableNext(s, Work(t, ReadInCatch));
    e := Apply(s, Work(t, ReadInCatch));
  }

  lemma BackOff(s: State, t: int, id: string) returns (e: State)
    requires Working(s, t, id) && s.tasks[t].phase.Failing? && s.runs[id].attempts < s.runs[id].maxAttempts
    ensures Reachable(e) && id in e.runs && e.runs[id].status == RetryWait && e.runs[id].nextAttemptAt.Some?
  {
    ReachableHolds(s);
    assert TaskOk(s.tasks[t], s.runs[id]);
    FailedRun(s.tasks[t], s.runs[id], "", s.now);
    ReachableNext(s, Work(t, WriteFailure("")));
    AfterWriteShape(s, t, WriteFailure(""), UpdateOf(s.tasks[t].phase, WriteFailure(""), s.now).value);
    e := Apply(s, Work(t, WriteFailure("")));
  }

  /** A run does wait for its next attempt, and is stranded there by a cancellation. */
  lemma StrandedBackoffIsReachable()
    ensures exists s, id ::
        Reachable(s) && id in s.runs && s.runs[id].status == RetryWait && s.runs[id].cancelRequested && Stuck(s, id)
  {
    var s := FirstClaim(2, false);
    s := FailEarly(s, 0, "run");
    s := Catch(s, 0, "run");
    s := BackOff(s, 0, "run");
    var e := CancelWaiting(s, "run");
  }

  lemma CancelWaiting(s: State, id: string) returns (e: State)
    requires Reachable(s) && id in s.runs && s.runs[id].status == RetryWait && s.runs[id].nextAttemptAt.Some?
    ensures Reachable(e) && id in e.runs && e.runs[id].status == RetryWait && e.runs[id].cancelRequested && Stuck(e, id)
  {
    ReachableHolds(s);
    assert RunOk(s.runs[id], s.now);
    ReachableNext(s, AskCancel(id));
    e := Apply(s, AskCancel(id));
    NoLiveTask(s, id);
    assert forall t :: LiveOn(e, t, id) ==> LiveOn(s, t, id);
  }

  /** An owner's rejection, and a retry of what was rejected. */
  lemma RejectAndRetry(s: State, id: string) returns (e: State)
    requires Reachable(s) && id in s.runs && s.runs[id].status == AwaitingApproval && s.approvals == []
    ensures Reachable(e) && id in e.runs && Claimable(e.runs[id], e.now) && HasApproval(e, id)
        && e.database == s.database
    ensures e.tasks == s.tasks
  {
    ReachableHolds(s);
    assert RunOk(s.runs[id], s.now);
    var reject := OwnerDecides(Approval("approval", id, false, "", s.now), Incident("incident", "", "", "", ""));
    ReachableNext(s, reject);
    e := Apply(s, reject);
    assert e.approvals[0].runId == id;
    ReachableNext(e, AskRetry(id));
    e := Apply(e, AskRetry(id));
  }

  /** On the database a rejected run does come back to review, where no decision is accepted any more. */
  lemma UndecidableReviewIsReachable()
    ensures exists s, id ::
        Reachable(s) && s.database && id in s.runs && s.runs[id].status == AwaitingApproval && HasApproval(s, id)
  {
    var s := FirstClaim(1, true);
    s := Push(s, 0, "run");
    s := Review(s, 0, "run");
    s := RejectAndRetry(s, "run");
    var claim := Claim(1, "run", "worker", 1);
    ReachableNext(s, claim);
    var e := Apply(s, claim);
    e := Push(e, 1, "run");
    e := Review(e, 1, "run");
  }
}
