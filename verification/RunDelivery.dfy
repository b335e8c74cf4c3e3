/** From a worker's first write to its owner's attestation: what was done is what is attested to. */
module RunDelivery {
  import opened Wrappers
  import opened RunRecords
  import opened RunProtocol
  import opened RunInvariants
  import opened RunTheorems
  import opened RunWitnesses

  // ----- What each write notes in the run --------------------------------------------------------

  /** The run after a worker's write, field by field. */
  function Noted(r: Run, phase: Phase, move: Move, now: int): Run {
    match move
    case StartReproducing => r.(status := Reproducing, updatedAt := now)
    case RecordCommit(commit) => r.(commit := Some(commit), updatedAt := now)
    case FinishWithoutOath =>
      r.(status := Completed, decision := Some(ReviewRequired), leaseExpiresAt := Some(now), updatedAt := now)
    case WriteCancelled => r.(status := Cancelled, leaseExpiresAt := Some(now), updatedAt := now)
    case FinishScan(outcome) =>
      r.(status := Completed, decision := Some(outcome), leaseExpiresAt := Some(now), updatedAt := now)
    case StartRepair => r.(status := Repairing, updatedAt := now)
    case RecordReceipt(repairId, decision) =>
      r.(status := Verifying, repairId := Some(repairId), decision := Some(decision), updatedAt := now)
    case Reject =>
      r.(status := Blocked, error := Some("Repair failed deterministic acceptance."), leaseExpiresAt := Some(now),
         updatedAt := now)
    case RecordRepairCommit(commit) => r.(repairCommit := Some(commit), updatedAt := now)
    case Publish(branch, url) =>
      r.(status := CiPending, branch := Some(branch), pullRequestUrl := Some(url), leaseExpiresAt := Some(now),
         updatedAt := now)
    case WriteFailure(message) =>
      if !phase.Failing? then r
      else if phase.terminal then
        r.(status := Blocked, error := Some(message), nextAttemptAt := None, leaseExpiresAt := Some(now),
          updatedAt := now)
      else
        r.(status := RetryWait, error := Some(message), nextAttemptAt := Some(now + RetryDelay(phase.attempts)),
           leaseExpiresAt := Some(now), updatedAt := now)
    case _ => r
  }

  lemma PatchNotes(r: Run, phase: Phase, move: Move, now: int)
    ensures match UpdateOf(phase, move, now)
            case Some(u) => Patched(r, u, now) == Noted(r, phase, move, now)
            case None => Noted(r, phase, move, now) == r
  {
  }

  /** A worker's move changes its own run as noted, and no other record. */
  lemma MovesNote(s: State, t: int, move: Move)
    requires Enabled(s, Work(t, move))
    ensures var s', id := Apply(s, Work(t, move)), s.tasks[t].runId;
            && s'.approvals == s.approvals && s'.attestations == s.attestations
            && s'.runs == if id in s.runs then s.runs[id := Noted(s.runs[id], s.tasks[t].phase, move, s.now)]
                else s.runs
  {
    var id, phase := s.tasks[t].runId, s.tasks[t].phase;
    if id in s.runs {
      PatchNotes(s.runs[id], phase, move, s.now);
      if UpdateOf(phase, move, s.now).Some? {
        AfterWriteShape(s, t, move, UpdateOf(phase, move, s.now).value);
      } else {
        AfterReadShape(s, t, move);
        assert s.runs[id := s.runs[id]] == s.runs;
      }
    } else {
      AfterReadShape(s, t, move);
    }
  }

  // ----- From the first write to the attestation -------------------------------------------------

  lemma NoteOn(s: State, t: int, id: string, move: Move) returns (e: State)
    requires Working(s, t, id) && MoveEnabled(s.tasks[t].phase, move)
    requires var u := UpdateOf(s.tasks[t].phase, move, s.now);
             if u.Some? then PhaseAfter(s.tasks[t].phase, move).Some? && u.value.leaseExpiresAt.None?
             else move == CheckActive
    ensures Working(e, t, id) && SameElse(s, e, id) && e.runs[id] == Noted(s.runs[id], s.tasks[t].phase, move, s.now)
    ensures e.tasks[t].phase ==
            if move != CheckActive then PhaseAfter(s.tasks[t].phase, move).value
            else if s.tasks[t].phase.Judged? then Accepted(s.tasks[t].phase.decision)
            else Scanned
  {
    MovesNote(s, t, move);
    e := MoveOn(s, t, id, move);
  }

  /** What a worker finds and makes on its way. */
  datatype Job = Job(
    commit: string, repairId: string, decision: Decision, repairCommit: string, branch: string, pullRequestUrl: string)

  lemma Prepare(s: State, t: int, id: string, w: Job) returns (e: State)
    requires Working(s, t, id) && s.tasks[t].phase == Entered
    ensures Working(e, t, id) && SameElse(s, e, id) && e.tasks[t].phase == Mending
    ensures e.runs[id].commit == Some(w.commit) && e.runs[id].repository == s.runs[id].repository
    ensures e.runs[id].id == s.runs[id].id
  {
    e := NoteOn(s, t, id, StartReproducing);
    e := NoteOn(e, t, id, RecordCommit(w.commit));
    e := NoteOn(e, t, id, CheckActive);
    e := NoteOn(e, t, id, StartRepair);
  }

  lemma Mend(s: State, t: int, id: string, w: Job) returns (e: State)
    requires Working(s, t, id) && s.tasks[t].phase == Mending && w.decision != DecisionBlocked
    ensures Working(e, t, id) && SameElse(s, e, id) && e.tasks[t].phase == Pushing
    ensures e.runs[id] == s.runs[id].(status := Verifying, repairId := Some(w.repairId), decision := Some(w.decision),
                                      repairCommit := Some(w.repairCommit), updatedAt := s.now)
  {
    e := NoteOn(s, t, id, RecordReceipt(w.repairId, w.decision));
    e := NoteOn(e, t, id, CheckActive);
    e := NoteOn(e, t, id, RecordRepairCommit(w.repairCommit));
  }

  lemma Deliver(s: State, t: int, id: string, w: Job) returns (e: State)
    requires Working(s, t, id) && s.tasks[t].phase == Pushing
    ensures Reachable(e) && id in e.runs && SameElse(s, e, id)
    ensures e.runs[id] == s.runs[id].(status := CiPending, branch := Some(w.branch),
                                      pullRequestUrl := Some(w.pullRequestUrl), leaseExpiresAt := Some(s.now),
                                      updatedAt := s.now)
  {
    var step := Work(t, Publish(w.branch, w.pullRequestUrl));
    MovesNote(s, t, Publish(w.branch, w.pullRequestUrl));
    ReachableHolds(s);
    PublishedState(s, t, id, w.branch, w.pullRequestUrl);
    ReachableNext(s, step);
    e := Apply(s, step);
  }

  lemma Decide(s: State, id: string, approval: Approval, incident: Incident) returns (e: State)
    requires Reachable(s) && id in s.runs && s.runs[id].status == CiPending
    requires approval.runId == id && (s.database ==> !HasApproval(s, id))
    ensures Reachable(e) && |e.attestations| == |s.attestations| + 1
    ensures var a, r := e.attestations[|s.attestations|], s.runs[id];
            && a.approved == approval.approved && a.runId == r.id && a.repository == r.repository
            && r.repairId == Some(a.repairId) && r.branch == Some(a.branch)
            && r.pullRequestUrl == Some(a.pullRequestUrl)
            && r.repairCommit == a.repairCommit
  {
    ReachableHolds(s);
    assert RunOk(s.runs[id], s.now);
    ReachableNext(s, Monitor(id, true, ""));
    var reviewed := Apply(s, Monitor(id, true, ""));
    ReachableHolds(reviewed);
    DecisionIsAttested(reviewed, approval, incident);
    ReachableNext(reviewed, OwnerDecides(approval, incident));
    e := Apply(reviewed, OwnerDecides(approval, incident));
  }

  /** A worker that is not disturbed brings its run to a decision, and the attestation of that decision names the very
      repair, commit, branch and pull request that the worker recorded, whatever they are. */
  lemma WhatWasDoneIsAttested(s: State, t: int, id: string, w: Job, approval: Approval, incident: Incident)
    requires Working(s, t, id) && s.tasks[t].phase == Entered && w.decision != DecisionBlocked
    requires approval.runId == id && (s.database ==> !HasApproval(s, id))
    ensures exists e, i :: Reachable(e) && 0 <= i < |e.attestations|
              && Attests(e.attestations[i], s.runs[id], w, approval.approved)
  {
    var e := Prepare(s, t, id, w);
    e := Mend(e, t, id, w);
    e := Deliver(e, t, id, w);
    var count := |e.attestations|;
    e := Decide(e, id, approval, incident);
    assert Attests(e.attestations[count], s.runs[id], w, approval.approved);
  }

  predicate Attests(a: Attestation, r: Run, w: Job, approved: bool) {
    && a.runId == r.id && a.repository == r.repository && a.repairId == w.repairId
    && a.repairCommit == Some(w.repairCommit)
    && a.branch == w.branch && a.pullRequestUrl == w.pullRequestUrl && a.approved == approved
  }

  // ----- The way through `process` ---------------------------------------------------------------

  /** What a worker can do next, point by point; it can fail wherever it is not failing yet, and be lost anywhere. */
  lemma RouteIs(phase: Phase, move: Move)
    ensures MoveEnabled(phase, move) <==>
            || move == Crash
            || (move == Fail && phase != Caught && !phase.Failing?)
            || match phase
               case Entered => move == StartReproducing
               case Preparing => move.RecordCommit?
               case Scanning => move == FinishWithoutOath || move == CheckActive
               case Scanned => move == StartRepair || (move.FinishScan? && move.outcome != DecisionBlocked)
               case Mending => move.RecordReceipt?
               case Judged(_) => move == CheckActive
               case Accepted(decision) => if decision == DecisionBlocked then move == Reject
                 else move.RecordRepairCommit?
               case Pushing => move.Publish?
               case CancelSeen => move == WriteCancelled
               case Returning => move == Return
               case Caught => move == ReadInCatch
               case Failing(_, _) => move.WriteFailure?
  {
  }

  /** Where a write leads: on to the next point, to the log line after a final write, to the catch block after a
      cancellation, and to the end after a rejection or a failure. */
  lemma RouteGoesOn(phase: Phase, move: Move)
    requires MoveEnabled(phase, move) && UpdateOf(phase, move, 0).Some?
    ensures var next := PhaseAfter(phase, move);
            match phase
            case Entered => next == Some(Preparing)
            case Preparing => next == Some(Scanning)
            case Scanning => next == Some(Returning)
            case Scanned => next == Some(if move == StartRepair then Mending else Returning)
            case Mending => next == Some(Judged(move.decision))
            case Accepted(decision) => if decision == DecisionBlocked then next == None else next == Some(Pushing)
            case Pushing => next == Some(Returning)
            case CancelSeen => next == Some(Caught)
            case _ => next == None
  {
  }
}
