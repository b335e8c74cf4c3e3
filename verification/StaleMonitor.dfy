/** The CI monitor against everything else that happens: a pass that has listed a run writes what GitHub answered
    whatever the run has become since. */
module StaleMonitor {
  import opened Wrappers
  import opened RunRecords
  import opened RunProtocol
  import opened RunInvariants
  import opened RunTheorems
  import opened CiMonitor

  /** The write of a pass that listed the run as it was in `listed`. */
  function LateWrite(s: State, id: string, listed: Run, checks: Checks): State
    requires id in s.runs
  {
    s.(runs := s.runs[id := Patched(s.runs[id], Verdict(checks(listed)), s.now)])
  }

  predicate IsDecided(status: Status) {
    status == Completed || status == Blocked
  }

  predicate AfterDelivery(r: Run) {
    r.status == CiPending || r.status == CiFailed || r.status == AwaitingApproval || IsDecided(r.status)
  }

  predicate Decides(step: Step, id: string) {
    step.OwnerDecides? && step.approval.runId == id
  }

  ghost predicate DecidedIn(steps: seq<Step>, id: string) {
    exists i :: 0 <= i < |steps| && Decides(steps[i], id)
  }

  ghost predicate RetriedIn(steps: seq<Step>, id: string) {
    AskRetry(id) in steps
  }

  lemma DecidedLater(steps: seq<Step>, id: string)
    requires steps != []
    ensures DecidedIn(steps, id) <==> Decides(steps[0], id) || DecidedIn(steps[1..], id)
  {
    if Decides(steps[0], id) { assert DecidedIn(steps, id); }
    if i :| 0 <= i < |steps| - 1 && Decides(steps[1..][i], id) { assert Decides(steps[i + 1], id); }
    if i :| 0 <= i < |steps| && Decides(steps[i], id) { assert i > 0 ==> Decides(steps[1..][i - 1], id); }
  }

  lemma DeliveryStep(s: State, step: Step, id: string)
    requires Inv(s) && Enabled(s, step) && Fenced(s, step) && step != AskRetry(id)
    requires id in s.runs && id in Apply(s, step).runs && AfterDelivery(s.runs[id])
    ensures AfterDelivery(Apply(s, step).runs[id])
    ensures IsDecided(Apply(s, step).runs[id].status) <==> IsDecided(s.runs[id].status) || Decides(step, id)
  {
    assert RunOk(s.runs[id], s.now);
    NoLiveTask(s, id);
    UnheldRunStays(s, step, id);
  }

  /** Until a retry, what has been delivered is decided exactly if its owner decided. */
  lemma {:induction false} DecisionsLast(s: State, steps: seq<Step>, id: string)
    requires Inv(s) && FencedRun(s, steps) && !RetriedIn(steps, id)
    requires id in s.used && (id in s.runs ==> AfterDelivery(s.runs[id]))
    ensures Valid(s, steps)
    ensures id in After(s, steps).runs ==> id in s.runs && AfterDelivery(After(s, steps).runs[id])
    ensures id in After(s, steps).runs ==>
              (IsDecided(After(s, steps).runs[id].status) <==> IsDecided(s.runs[id].status) || DecidedIn(steps, id))
    decreases |steps|
  {
    FencedRunsAreValid(s, steps);
    if steps != [] {
      StepKeeps(s, steps[0]);
      IdsStayUsed(s, steps[0], id);
      if id in s.runs && id in Apply(s, steps[0]).runs {
        DeliveryStep(s, steps[0], id);
      }
      DecidedLater(steps, id);
      DecisionsLast(Apply(s, steps[0]), steps[1..], id);
    }
  }

  /** The check and the write have to be one step. Whatever happens after a pass has listed a run, short of a retry, its
      write puts the run back to before a decision, and it takes one back exactly if the owner decided in between. */
  lemma StaleMonitorReopensIff(s: State, steps: seq<Step>, id: string, checks: Checks)
    requires Inv(s) && FencedRun(s, steps) && !RetriedIn(steps, id)
    requires id in s.runs && Concluded(checks)(s.runs[id])
    ensures Valid(s, steps)
    ensures id in After(s, steps).runs ==>
              && !IsDecided(LateWrite(After(s, steps), id, s.runs[id], checks).runs[id].status)
              && (IsDecided(After(s, steps).runs[id].status) <==> DecidedIn(steps, id))
  {
    assert RunOk(s.runs[id], s.now) && id in s.used;
    DecisionsLast(s, steps, id);
  }

  /** Two passes list one run whose checks have passed; the first writes, the owner approves, the second writes: the
      run is approved and waits for approval, which on the database nobody can give any more. */
  lemma StaleMonitorReopens(s: State, id: string, checks: Checks, approval: Approval, incident: Incident)
    requires Inv(s) && id in s.runs && Concluded(checks)(s.runs[id]) && checks(s.runs[id]).state.Passed?
    requires approval.runId == id && approval.approved && (s.database ==> !HasApproval(s, id))
    ensures var steps := [Monitor(id, true, ""), OwnerDecides(approval, incident)];
            && FencedRun(s, steps) && Valid(s, steps)
            && id in After(s, steps).runs && After(s, steps).runs[id].status == Completed
            && var late := LateWrite(After(s, steps), id, s.runs[id], checks);
               && late.runs[id].status == AwaitingApproval && OwnerApproved(late, id) && !Reachable(late)
               && (s.database ==> forall a: Approval, i :: a.runId == id ==> !Enabled(late, OwnerDecides(a, i)))
  {
    var steps := [Monitor(id, true, ""), OwnerDecides(approval, incident)];
    PassedAndApproved(s, id, approval, incident);
    ReopenedIsUnreachable(After(s, steps), id, s.runs[id], checks);
  }

  lemma PassedAndApproved(s: State, id: string, approval: Approval, incident: Incident)
    requires Inv(s) && id in s.runs && s.runs[id].status == CiPending && s.runs[id].repairCommit.Some?
    requires approval.runId == id && approval.approved && (s.database ==> !HasApproval(s, id))
    ensures var steps := [Monitor(id, true, ""), OwnerDecides(approval, incident)];
            && FencedRun(s, steps) && Valid(s, steps)
            && var e := After(s, steps);
               && id in e.runs && e.runs[id].status == Completed && e.database == s.database && OwnerApproved(e, id)
  {
    var pass, decide := Monitor(id, true, ""), OwnerDecides(approval, incident);
    assert RunOk(s.runs[id], s.now);
    var s1 := Apply(s, pass);
    Prepend(s1, decide, []);
    Prepend(s, pass, [decide] + []);
    assert [pass] + ([decide] + []) == [pass, decide];
    assert Apply(s1, decide).approvals[|s.approvals|] == approval;
  }

  /** No execution of the protocol leads to a run that is approved and waits for approval. */
  lemma ReopenedIsUnreachable(s: State, id: string, listed: Run, checks: Checks)
    requires id in s.runs && OwnerApproved(s, id) && checks(listed).state.Passed?
    ensures var late := LateWrite(s, id, listed, checks);
            && late.runs[id].status == AwaitingApproval && OwnerApproved(late, id) && !Reachable(late)
            && (s.database ==> forall a: Approval, i :: a.runId == id ==> !Enabled(late, OwnerDecides(a, i)))
  {
    var late := LateWrite(s, id, listed, checks);
    assert late.approvals == s.approvals;
    if Reachable(late) { LifecycleHolds(late, id); }
  }
}
