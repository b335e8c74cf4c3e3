/** `FileControlPlaneStore` (src/control-plane/store.ts): the document it rewrites, one serialized update
    at a time. Each method is proved against the operation of `StoreSpec` of the same name. */
module ControlPlaneStore {
  import opened Wrappers
  import opened Lists
  import opened RunRecords
  import opened StoreSpec

  class FileControlPlaneStore {
    var incidents: seq<Incident>
    var runs: seq<Run>
    var approvals: seq<Approval>
    var attestations: seq<Attestation>
    var logs: seq<Log>
    var auditEvents: seq<AuditEvent>
    var mappings: seq<RepositoryRecord>
    var repositories: seq<RepositoryRecord>
    var knowledge: seq<RepositoryRecord>
    var optimizerAnalyses: seq<RepositoryRecord>
    var questions: seq<RepositoryRecord>

    ghost function Contents(): Data
      reads this
    {
      Data(incidents, runs, approvals, attestations, logs, auditEvents, mappings, repositories, knowledge,
           optimizerAnalyses, questions)
    }

    constructor ()
      ensures Contents() == EMPTY && Integrity(Contents())
    {
      incidents, runs, approvals, attestations, logs, auditEvents := [], [], [], [], [], [];
      mappings, repositories, knowledge, optimizerAnalyses, questions := [], [], [], [], [];
    }

    method AddIncident(incident: Incident, run: Run) returns (answer: Delivery)
      modifies this
      ensures answer == AnswerTo(old(Contents()), incident, run)
      ensures Contents() == After(old(Contents()), Deliver(incident, run))
    {
      var existing := FindDelivery(incidents, DeliveryKey(incident));
      if existing.Some? {
        var stored := FindRunOf(runs, existing.value.id);
        return Delivery(existing.value, if stored.Some? then stored.value else run, true);
      }
      incidents := incidents + [incident];
      runs := runs + [run];
      answer := Delivery(incident, run, false);
    }

    method ClaimRun(workerId: string, leaseMs: nat, now: int) returns (claimed: Option<Run>)
      modifies this`runs
      ensures Contents() == After(old(Contents()), Claim(workerId, leaseMs, now))
      ensures claimed.None? <==> forall r :: r in old(runs) ==> !Claimable(r, now)
      ensures claimed.Some? ==> claimed.value in runs && claimed.value.leaseOwner == Some(workerId)
                                && claimed.value.leaseExpiresAt == Some(now + leaseMs)
    {
      var candidate := OldestClaimable(runs, now);
      if candidate.None? {
        return None;
      }
      var i := candidate.value;
      assert runs[i] in runs;
      var run := Claimed(runs[i], workerId, now, leaseMs);
      runs := runs[i := run];
      assert runs[i] == run;
      claimed := Some(run);
    }

    method UpdateRun(id: string, update: RunUpdate, now: int) returns (result: Result<Run>)
      modifies this`runs
      ensures result.Ok? <==> HasRunNamed(old(runs), id)
      ensures result.Ok? ==> result.value in runs && result.value.id == id
      ensures Contents() == After(old(Contents()), Update(id, update, now))
    {
      var i := IndexOf(runs, id);
      if i.None? {
        return Err("Run was not found.");
      }
      assert runs[i.value] in runs;
      var run := Patched(runs[i.value], update, now);
      runs := runs[i.value := run];
      assert runs[i.value] == run;
      result := Ok(run);
    }

    method RetryRun(id: string, now: int) returns (result: Result<Run>)
      modifies this`runs
      ensures Contents() == After(old(Contents()), Retry(id, now))
      ensures result.Ok? <==> AfterRetry(old(Contents()), id, now).Ok?
      ensures result.Ok? ==> result.value in runs && result.value.id == id && result.value.attempts == 0
    {
      var i := IndexOf(runs, id);
      if i.None? {
        return Err("Run was not found.");
      }
      if !Retryable(runs[i.value]) {
        return Err("Run is not retryable.");
      }
      var run := Retried(runs[i.value], now);
      runs := runs[i.value := run];
      assert runs[i.value] == run;
      result := Ok(run);
    }

    method Decide(approval: Approval, attestation: Attestation, audit: AuditEvent) returns (result: Result<Run>)
      modifies this
      ensures Contents() == After(old(Contents()), Operation.Decide(approval, attestation, audit))
      ensures result.Ok? <==> AfterDecision(old(Contents()), approval, attestation, audit).Ok?
      ensures result.Ok? ==>
          approvals == old(approvals) + [approval] && attestations == old(attestations) + [attestation]
      ensures result.Err? ==> Contents() == old(Contents())
    {
      if attestation.runId != approval.runId {
        return Err("The final attestation does not belong to this approval.");
      }
      var i := IndexOf(runs, approval.runId);
      if i.None? {
        return Err("Run was not found.");
      }
      if runs[i.value].status != AwaitingApproval {
        return Err("Run is not awaiting approval.");
      }
      approvals := approvals + [approval];
      attestations := attestations + [attestation];
      auditEvents := auditEvents + [audit];
      var run := Decided(runs[i.value], approval.approved, approval.createdAt);
      runs := runs[i.value := run];
      result := Ok(run);
    }

    /** The file store reads the run, then updates it; between the two, other updates may run. With none
        in between, it does what the database does in one statement. */
    method RequestCancellation(id: string, now: int) returns (result: Result<Run>)
      modifies this`runs
      ensures Contents() == After(old(Contents()), Cancel(id, now))
      ensures result.Ok? <==> HasRunNamed(old(runs), id)
    {
      var read := IndexOf(runs, id);
      if read.None? {
        return Err("Run was not found.");
      }
      var run := runs[read.value];
      assert run in runs;
      var cancelled := CancelAskedFrom(runs[read.value], run, now);
      runs := runs[read.value := cancelled];
      result := Ok(cancelled);
    }

    method AppendLog(log: Log)
      modifies this`logs
      ensures Contents() == After(old(Contents()), Operation.AppendLog(log))
    {
      logs := logs + [log];
    }

    method AppendAudit(event: AuditEvent)
      modifies this`auditEvents
      ensures Contents() == After(old(Contents()), Operation.AppendAudit(event))
    {
      auditEvents := auditEvents + [event];
    }

    /** The mutation works on a copy of the document, which then replaces the stored one. */
    method DeleteRepositoryData(repository: string) returns (repairIds: seq<string>, records: int)
      modifies this
      ensures Contents() == After(old(Contents()), DeleteRepository(repository))
      ensures repairIds == RepairIds(old(runs), repository)
      ensures records == Size(old(Contents())) - Size(Contents())
    {
      var data := Data(incidents, runs, approvals, attestations, logs, auditEvents, mappings, repositories, knowledge,
                       optimizerAnalyses, questions);
      var runIds := set r | r in data.runs && r.repository == repository :: r.id;
      var incidentIds := set r | r in data.runs && r.repository == repository :: r.incidentId;
      repairIds := RepairIds(data.runs, repository);
      var before := Size(data);
      data := data.(runs := Filter(data.runs, KeepsRun(runIds)));
      data := data.(approvals := Filter(data.approvals, KeepsApproval(runIds)),
                    logs := Filter(data.logs, KeepsLog(runIds)),
                    attestations := Filter(data.attestations, KeepsAttestation(runIds)),
                    auditEvents := Filter(data.auditEvents, KeepsAudit(runIds, repository)));
      data := data.(mappings := Filter(data.mappings, KeepsRecord(repository)),
                    repositories := Filter(data.repositories, KeepsRecord(repository)),
                    knowledge := Filter(data.knowledge, KeepsRecord(repository)),
                    optimizerAnalyses := Filter(data.optimizerAnalyses, KeepsRecord(repository)),
                    questions := Filter(data.questions, KeepsRecord(repository)));
      data := data.(incidents := Filter(data.incidents, KeepsIncident(incidentIds, data.runs)));
      records := before - Size(data);
      Write(data);
    }

    method Write(data: Data)
      modifies this
      ensures Contents() == data
    {
      incidents, runs, approvals, attestations := data.incidents, data.runs, data.approvals, data.attestations;
      logs, auditEvents, mappings, repositories := data.logs, data.auditEvents, data.mappings, data.repositories;
      knowledge, optimizerAnalyses, questions := data.knowledge, data.optimizerAnalyses, data.questions;
    }
  }
}
