/** When a cancellation takes effect: a run without an owner is cancelled at once, and a run with one only by
    a worker that is still to look. */
module RunCancellation {
  import opened Wrappers
  import opened RunRecords
  import opened RunProtocol
  import opened RunInvariants
  import opened RunTheorems

  /** The worker has a cancellation check ahead of it, or has just seen the flag in one. */
  predicate WillCheck(phase: Phase) {
    match phase
    case Entered => true
    case Preparing => true
    case Scanning => true
    case Scanned => true
    case Mending => true
    case Judged(_) => true
    case CancelSeen => true
    case _ => false
  }

  ghost predicate NoRetryOf(steps: seq<Step>, id: string) {
    forall i :: 0 <= i < |steps| && steps[i].AskRetry? ==> steps[i].id != id
  }

  /** Some fenced execution from here, without a retry of the run, ends with the run cancelled. */
  ghost predicate Cancellable(s: State, id: string) {
    exists steps :: FencedRun(s, steps) && Valid(s, steps) && NoRetryOf(steps, id)
                    && id in After(s, steps).runs && After(s, steps).runs[id].status == Cancelled
  }

  /** A live worker holds the run and will still look. */
  ghost predicate WatchedFor(s: State, id: string) {
    exists t :: LiveOn(s, t, id) && WillCheck(s.tasks[t].phase)
  }

  // ----- Where nobody looks any more -------------------------------------------------------------

  /** The flag is set on a run that has an owner, and whoever holds it is past the last check. */
  ghost predicate PastCancel(s: State, id: string) {
    && id in s.used
    && (id in s.runs ==> s.runs[id].leaseOwner.Some? && s.runs[id].cancelRequested && s.runs[id].status != Cancelled)
    && !WatchedFor(s, id)
  }

  /** What a worker past the last check still writes. */
  lemma LateRecord(phase: Phase, r: Run, move: Move, now: int)
    requires MoveEnabled(phase, move) && !WillCheck(phase) && UpdateOf(phase, move, now).Some?
    requires r.leaseOwner.Some? && r.cancelRequested && r.status != Cancelled
    ensures var r' := Patched(r, UpdateOf(phase, move, now).value, now);
            r'.leaseOwner.Some? && r'.cancelRequested && r'.status != Cancelled
    ensures PhaseAfter(phase, move).Some? ==> !WillCheck(PhaseAfter(phase, move).value)
  {
  }

  /** A worker past the last check does not come back before it by a move that writes nothing. */
  lemma LateRead(s: State, t: int, move: Move)
    requires Enabled(s, Work(t, move)) && !WillCheck(s.tasks[t].phase)
    requires UpdateOf(s.tasks[t].phase, move, s.now).Some? ==> s.tasks[t].runId !in s.runs
    ensures t in AfterMove(s, t, move).tasks ==> !WillCheck(AfterMove(s, t, move).tasks[t].phase)
  {
  }

  lemma LateWriteStays(s: State, t: int, move: Move, id: string)
    requires Enabled(s, Work(t, move)) && IsWrite(s, Work(t, move)) && Fenced(s, Work(t, move)) && PastCancel(s, id)
    ensures PastCancel(Apply(s, Work(t, move)), id)
  {
    var s', task := Apply(s, Work(t, move)), s.tasks[t];
    AfterWriteShape(s, t, move, UpdateOf(task.phase, move, s.now).value);
    if task.runId == id {
      assert LiveOn(s, t, id) && !WillCheck(task.phase);
      LateRecord(task.phase, s.runs[id], move, s.now);
    }
    OthersUnwatched(s, s', t, id);
  }

  lemma LateReadStays(s: State, t: int, move: Move, id: string)
    requires Enabled(s, Work(t, move)) && !IsWrite(s, Work(t, move)) && PastCancel(s, id)
    ensures PastCancel(Apply(s, Work(t, move)), id)
  {
    AfterReadShape(s, t, move);
    if LiveOn(s, t, id) { LateRead(s, t, move); }
    OthersUnwatched(s, Apply(s, Work(t, move)), t, id);
  }

  /** Moving one worker lets no other look. */
  lemma OthersUnwatched(s: State, s': State, t: int, id: string)
    requires !WatchedFor(s, id) && s'.now == s.now && t in s.tasks && s'.tasks - {t} == s.tasks - {t}
    requires t in s'.tasks ==> s'.tasks[t].runId == s.tasks[t].runId
    requires LiveOn(s', t, id) ==> !WillCheck(s'.tasks[t].phase)
    ensures !WatchedFor(s', id)
  {
    forall u | LiveOn(s', u, id) ensures !WillCheck(s'.tasks[u].phase) {
      if u != t {
        assert u in s'.tasks - {t} && (s'.tasks - {t})[u] == (s.tasks - {t})[u];
        assert LiveOn(s, u, id);
      }
    }
  }

  lemma PastCancelStays(s: State, step: Step, id: string)
    requires Inv(s) && Enabled(s, step) && Fenced(s, step) && PastCancel(s, id)
    requires !(step.AskRetry? && step.id == id)
    ensures PastCancel(Apply(s, step), id)
  {
    if step.Work? {
      if IsWrite(s, step) {
        LateWriteStays(s, step.task, step.move, id);
      } else {
        LateReadStays(s, step.task, step.move, id);
      }
    } else {
      var s' := Apply(s, step);
      forall t | LiveOn(s', t, id) ensures !WillCheck(s'.tasks[t].phase) {
        assert LiveOn(s, t, id);
      }
    }
  }

  lemma {:induction false} PastCancelLasts(s: State, steps: seq<Step>, id: string)
    requires Inv(s) && FencedRun(s, steps) && PastCancel(s, id) && NoRetryOf(steps, id)
    ensures Valid(s, steps) && PastCancel(After(s, steps), id)
    decreases |steps|
  {
    FencedRunsAreValid(s, steps);
    if steps != [] {
      StepKeeps(s, steps[0]);
      PastCancelStays(s, steps[0], id);
      assert forall i :: 0 <= i < |steps| - 1 ==> steps[1..][i] == steps[i + 1];
      PastCancelLasts(Apply(s, steps[0]), steps[1..], id);
    }
  }

  // ----- Where somebody still looks --------------------------------------------------------------

  lemma CancellableBefore(s: State, step: Step, id: string)
    requires Enabled(s, step) && Fenced(s, step) && !step.AskRetry? && Cancellable(Apply(s, step), id)
    ensures Cancellable(s, id)
  {
    var rest :| FencedRun(Apply(s, step), rest) && Valid(Apply(s, step), rest) && NoRetryOf(rest, id)
                && id in After(Apply(s, step), rest).runs && After(Apply(s, step), rest).runs[id].status == Cancelled;
    Prepend(s, step, rest);
    assert FencedRun(s, [step] + rest) && NoRetryOf([step] + rest, id);
  }

  lemma CancelledNow(s: State, id: string)
    requires id in s.runs && s.runs[id].status == Cancelled
    ensures Cancellable(s, id)
  {
    assert FencedRun(s, []) && Valid(s, []) && NoRetryOf([], id) && After(s, []) == s;
  }

  /** The way a worker takes to its next check. */
  function Onward(phase: Phase): Move {
    match phase
    case Entered => StartReproducing
    case Preparing => RecordCommit("")
    case Scanned => StartRepair
    case Mending => RecordReceipt("", Ready)
    case CancelSeen => WriteCancelled
    case _ => CheckActive
  }

  function Ahead(phase: Phase): nat {
    match phase
    case Entered => 4
    case Preparing => 3
    case Scanning => 2
    case Scanned => 4
    case Mending => 3
    case Judged(_) => 2
    case CancelSeen => 1
    case _ => 0
  }

  lemma OnwardStep(s: State, t: int, id: string)
    requires LiveOn(s, t, id) && id in s.runs && s.runs[id].cancelRequested && WillCheck(s.tasks[t].phase)
    ensures var step := Work(t, Onward(s.tasks[t].phase));
            && Enabled(s, step) && Fenced(s, step)
            && var s' := Apply(s, step);
               && id in s'.runs
               && (s'.runs[id].status == Cancelled
                   || (LiveOn(s', t, id) && s'.runs[id].cancelRequested && WillCheck(s'.tasks[t].phase)
                       && Ahead(s'.tasks[t].phase) < Ahead(s.tasks[t].phase)))
  {
  }

  lemma {:induction false} WorkerSeesCancel(s: State, t: int, id: string)
    requires LiveOn(s, t, id) && id in s.runs && s.runs[id].cancelRequested && WillCheck(s.tasks[t].phase)
    ensures Cancellable(s, id)
    decreases Ahead(s.tasks[t].phase)
  {
    var step := Work(t, Onward(s.tasks[t].phase));
    OnwardStep(s, t, id);
    var s' := Apply(s, step);
    if s'.runs[id].status == Cancelled {
      CancelledNow(s', id);
    } else {
      WorkerSeesCancel(s', t, id);
    }
    CancellableBefore(s, step, id);
  }

  // ----- The exact condition ---------------------------------------------------------------------

  /** What tells, before a cancellation is asked for, whether it can take effect. */
  ghost predicate TakesCancel(s: State, id: string)
    requires id in s.runs
  {
    s.runs[id].status == Cancelled || s.runs[id].leaseOwner.None? || WatchedFor(s, id)
  }

  lemma AskedTooLate(s: State, id: string)
    requires Inv(s) && id in s.runs && !TakesCancel(s, id)
    ensures Inv(Apply(s, AskCancel(id))) && PastCancel(Apply(s, AskCancel(id)), id)
  {
    StepKeeps(s, AskCancel(id));
    var s' := Apply(s, AskCancel(id));
    forall t | LiveOn(s', t, id) ensures !WillCheck(s'.tasks[t].phase) {
      assert LiveOn(s, t, id);
    }
  }

  /** A cancellation that is asked for can take effect, short of a retry, exactly if the run is cancelled
      already, or was never claimed since it was last queued, or is held by a worker with a check ahead. */
  lemma CancellationTakesEffectIff(s: State, id: string)
    requires Inv(s) && id in s.runs
    ensures Cancellable(Apply(s, AskCancel(id)), id) <==> TakesCancel(s, id)
  {
    var s' := Apply(s, AskCancel(id));
    if TakesCancel(s, id) {
      if s'.runs[id].status == Cancelled {
        CancelledNow(s', id);
      } else {
        var t :| LiveOn(s, t, id) && WillCheck(s.tasks[t].phase);
        WorkerSeesCancel(s', t, id);
      }
    } else {
      AskedTooLate(s, id);
      forall steps | FencedRun(s', steps) && NoRetryOf(steps, id)
        ensures Valid(s', steps) && !(id in After(s', steps).runs && After(s', steps).runs[id].status == Cancelled) {
        PastCancelLasts(s', steps, id);
      }
    }
  }

  /** Otherwise the run is never cancelled, whatever happens short of a retry: not while it waits for its next
      attempt or its worker is lost, not in review, and not while its worker delivers. */
  lemma CancellationNeverTakesEffect(s: State, id: string, steps: seq<Step>)
    requires Inv(s) && id in s.runs && !TakesCancel(s, id)
    requires FencedRun(Apply(s, AskCancel(id)), steps) && NoRetryOf(steps, id)
    ensures Valid(Apply(s, AskCancel(id)), steps)
    ensures var end := After(Apply(s, AskCancel(id)), steps); id in end.runs ==> end.runs[id].status != Cancelled
  {
    AskedTooLate(s, id);
    PastCancelLasts(Apply(s, AskCancel(id)), steps, id);
  }

  /** A run in review has nobody who looks, so its cancellation stops nothing: the owner can still approve. */
  lemma CancellationDoesNotStopApproval(s: State, approval: Approval, incident: Incident)
    requires Inv(s) && Enabled(s, OwnerDecides(approval, incident)) && approval.approved
    ensures var id, s1 := approval.runId, Apply(s, AskCancel(approval.runId));
            && !TakesCancel(s, id)
            && Enabled(s1, OwnerDecides(approval, incident)) && s1.runs[id].cancelRequested
            && Apply(s1, OwnerDecides(approval, incident)).runs[id].status == Completed
  {
    var id := approval.runId;
    assert RunOk(s.runs[id], s.now);
    NoLiveTask(s, id);
  }
}
