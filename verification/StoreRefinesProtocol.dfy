/** The store's operations are steps of the run protocol: on the table of runs by id, each operation of
    `StoreSpec` does what the protocol step it implements does. */
module StoreRefinesProtocol {
  import opened Wrappers
  import opened Lists
  import opened RunRecords
  import Spec = StoreSpec
  import opened RunProtocol

  function Table(runs: seq<Run>): map<string, Run> {
    if runs == [] then map[] else Table(runs[1..])[runs[0].id := runs[0]]
  }

  lemma {:induction false} TableHolds(runs: seq<Run>)
    requires UniqueBy(runs, Spec.RunId)
    ensures forall r :: r in runs ==> r.id in Table(runs) && Table(runs)[r.id] == r
    ensures forall id :: id in Table(runs) ==> Table(runs)[id] in runs && Table(runs)[id].id == id
  {
    if runs != [] {
      TableHolds(runs[1..]);
      forall r | r in runs ensures r.id in Table(runs) && Table(runs)[r.id] == r {
        if r != runs[0] {
          var i :| 0 <= i < |runs| && runs[i] == r;
          assert Spec.RunId(runs[0]) != Spec.RunId(runs[i]);
          assert runs[1..][i - 1] == r;
        }
      }
    }
  }

  /** Two tables over the same rows are the same table. */
  lemma SameRows(runs: seq<Run>, table: map<string, Run>)
    requires UniqueBy(runs, Spec.RunId)
    requires forall id :: id in table ==> table[id] in runs && table[id].id == id
    requires forall r :: r in runs ==> r.id in table
    ensures Table(runs) == table
  {
    TableHolds(runs);
    forall id | id in table ensures id in Table(runs) && Table(runs)[id] == table[id] {
      assert table[id] in runs;
    }
  }

  lemma RewrittenTable(d: Spec.Data, i: nat, r: Run)
    requires UniqueBy(d.runs, Spec.RunId) && i < |d.runs| && r.id == d.runs[i].id
    ensures Table(d.runs[i := r]) == Table(d.runs)[r.id := r]
  {
    var runs, table := d.runs[i := r], Table(d.runs)[r.id := r];
    TableHolds(d.runs);
    assert runs[i] in runs;
    forall id | id in table ensures table[id] in runs && table[id].id == id {
      if id != r.id {
        var j :| 0 <= j < |d.runs| && d.runs[j] == Table(d.runs)[id];
        assert runs[j] == d.runs[j];
      }
    }
    forall x | x in runs ensures x.id in table {
      var j :| 0 <= j < |runs| && runs[j] == x;
      assert d.runs[j] in d.runs;
    }
    SameRows(runs, table);
  }

  lemma AppendedTable(runs: seq<Run>, r: Run)
    requires UniqueBy(runs, Spec.RunId) && forall x :: x in runs ==> x.id != r.id
    ensures Table(runs + [r]) == Table(runs)[r.id := r]
  {
    var longer, table := runs + [r], Table(runs)[r.id := r];
    TableHolds(runs);
    AppendUnique(runs, r, Spec.RunId);
    assert longer[|runs|] == r;
    SameRows(longer, table);
  }

  /** The protocol state shows the runs, approvals and attestations of the document. */
  ghost predicate Shows(s: State, d: Spec.Data) {
    s.runs == Table(d.runs) && s.approvals == d.approvals && s.attestations == d.attestations
  }

  lemma FoundRow(d: Spec.Data, id: string)
    requires UniqueBy(d.runs, Spec.RunId)
    ensures var i := Spec.IndexOf(d.runs, id);
            if i.Some? then id in Table(d.runs) && Table(d.runs)[id] == d.runs[i.value] else id !in Table(d.runs)
  {
    TableHolds(d.runs);
    var i := Spec.IndexOf(d.runs, id);
    if i.Some? { assert d.runs[i.value] in d.runs; }
  }

  /** `claimRun` claims a run that the protocol lets it claim, and finds one if there is any. */
  lemma ClaimIsAStep(s: State, d: Spec.Data, t: int, worker: string, leaseMs: nat)
    requires Shows(s, d) && UniqueBy(d.runs, Spec.RunId) && t !in s.tasks
    ensures var d' := Spec.After(d, Spec.Claim(worker, leaseMs, s.now));
            if d' == d then forall id :: !Enabled(s, Claim(t, id, worker, leaseMs))
            else exists id ::
                Enabled(s, Claim(t, id, worker, leaseMs)) && Shows(Apply(s, Claim(t, id, worker, leaseMs)), d')
  {
    TableHolds(d.runs);
    var i := Spec.OldestClaimable(d.runs, s.now);
    if i.Some? {
      var r := d.runs[i.value];
      assert r in d.runs;
      RewrittenTable(d, i.value, Claimed(r, worker, s.now, leaseMs));
      assert Enabled(s, Claim(t, r.id, worker, leaseMs));
      assert Spec.After(d, Spec.Claim(worker, leaseMs, s.now)).runs[i.value] == Claimed(r, worker, s.now, leaseMs);
    } else {
      forall id ensures !Enabled(s, Claim(t, id, worker, leaseMs)) {
        if id in s.runs { assert s.runs[id] in d.runs; }
      }
    }
  }

  /** A worker's write through `updateRun` is its protocol move, also where the run is gone. */
  lemma UpdateIsAStep(s: State, d: Spec.Data, t: int, move: Move)
    requires Shows(s, d) && UniqueBy(d.runs, Spec.RunId) && Enabled(s, Work(t, move))
    requires UpdateOf(s.tasks[t].phase, move, s.now).Some?
    ensures var u := UpdateOf(s.tasks[t].phase, move, s.now).value;
            Shows(Apply(s, Work(t, move)), Spec.After(d, Spec.Update(s.tasks[t].runId, u, s.now)))
  {
    var id, u := s.tasks[t].runId, UpdateOf(s.tasks[t].phase, move, s.now).value;
    FoundRow(d, id);
    var i := Spec.IndexOf(d.runs, id);
    if i.Some? { RewrittenTable(d, i.value, Patched(d.runs[i.value], u, s.now)); }
  }

  lemma CancelIsAStep(s: State, d: Spec.Data, id: string)
    requires Shows(s, d) && UniqueBy(d.runs, Spec.RunId)
    ensures Enabled(s, AskCancel(id)) <==> Spec.AfterCancellation(d, id, s.now).Ok?
    ensures Enabled(s, AskCancel(id)) ==> Shows(Apply(s, AskCancel(id)), Spec.After(d, Spec.Cancel(id, s.now)))
  {
    FoundRow(d, id);
    var i := Spec.IndexOf(d.runs, id);
    if i.Some? { RewrittenTable(d, i.value, CancelAsked(d.runs[i.value], s.now)); }
  }

  lemma RetryIsAStep(s: State, d: Spec.Data, id: string)
    requires Shows(s, d) && UniqueBy(d.runs, Spec.RunId)
    ensures Enabled(s, AskRetry(id)) <==> Spec.AfterRetry(d, id, s.now).Ok?
    ensures Enabled(s, AskRetry(id)) ==> Shows(Apply(s, AskRetry(id)), Spec.After(d, Spec.Retry(id, s.now)))
  {
    FoundRow(d, id);
    var i := Spec.IndexOf(d.runs, id);
    if i.Some? { RewrittenTable(d, i.value, Retried(d.runs[i.value], s.now)); }
  }

  /** `decide`, with the attestation that the server built from the stored run. */
  lemma DecisionIsAStep(s: State, d: Spec.Data, approval: Approval, incident: Incident, audit: AuditEvent)
    requires Shows(s, d) && UniqueBy(d.runs, Spec.RunId) && Enabled(s, OwnerDecides(approval, incident))
    ensures var attestation := CreateFinalAttestation(s.runs[approval.runId], incident, approval).value;
            && Spec.AfterDecision(d, approval, attestation, audit).Ok?
            && Shows(Apply(s, OwnerDecides(approval, incident)),
                Spec.After(d, Spec.Decide(approval, attestation, audit)))
  {
    FoundRow(d, approval.runId);
    var i := Spec.IndexOf(d.runs, approval.runId).value;
    RewrittenTable(d, i, Decided(d.runs[i], approval.approved, approval.createdAt));
  }

  lemma DeliveryIsAStep(s: State, d: Spec.Data, incident: Incident, run: Run)
    requires Shows(s, d) && UniqueBy(d.runs, Spec.RunId) && Spec.Admissible(d, Spec.Deliver(incident, run))
        && Enabled(s, Create(run))
    ensures var d' := Spec.After(d, Spec.Deliver(incident, run));
            if Spec.AnswerTo(d, incident, run).duplicate then Shows(s, d') else Shows(Apply(s, Create(run)), d')
  {
    if !Spec.AnswerTo(d, incident, run).duplicate {
      AppendedTable(d.runs, run);
      assert Spec.After(d, Spec.Deliver(incident, run)).runs == d.runs + [run];
    }
  }

  lemma {:induction false} FilteredApprovals(xs: seq<Approval>, gone: set<string>)
    ensures Filter(xs, Spec.KeepsApproval(gone)) == KeepApprovals(xs, gone)
  {
    if xs != [] {
      FilteredApprovals(xs[1..], gone);
      assert [] + KeepApprovals(xs[1..], gone) == KeepApprovals(xs[1..], gone);
    }
  }

  lemma {:induction false} FilteredAttestations(xs: seq<Attestation>, gone: set<string>)
    ensures Filter(xs, Spec.KeepsAttestation(gone)) == KeepAttestations(xs, gone)
  {
    if xs != [] {
      FilteredAttestations(xs[1..], gone);
      assert [] + KeepAttestations(xs[1..], gone) == KeepAttestations(xs[1..], gone);
    }
  }

  lemma DeletionIsAStep(s: State, d: Spec.Data, repository: string)
    requires Shows(s, d) && UniqueBy(d.runs, Spec.RunId)
    ensures Shows(Apply(s, Delete(repository)), Spec.After(d, Spec.DeleteRepository(repository)))
  {
    var gone := Spec.RunIds(d, repository);
    TableHolds(d.runs);
    assert gone == RunsOf(s, repository);
    Spec.DeletedRuns(d, repository);
    var runs := Spec.AfterDeletion(d, repository).runs;
    FilterUnique(d.runs, Spec.RunId, Spec.KeepsRun(gone));
    forall id | id in s.runs - gone ensures (s.runs - gone)[id] in runs && (s.runs - gone)[id].id == id {
    }
    SameRows(runs, s.runs - gone);
    FilteredApprovals(d.approvals, gone);
    FilteredAttestations(d.attestations, gone);
  }
}
