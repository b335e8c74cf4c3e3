/** The pass of the CI monitor over the runs that wait for their checks. What GitHub answers for a run, and
    when the answer is written, is a parameter. */
module CiMonitor {
  import opened Wrappers
  import opened Lists
  import opened RunRecords
  import opened StoreSpec
  import opened ControlPlaneStore
  import RunProtocol

  /** Without a registration or an answer, and while checks are pending, nothing is written. */
  datatype CheckState = Unregistered | Unavailable | Pending | Passed | Failing(failure: string)

  datatype Check = Check(state: CheckState, at: int)

  type Checks = Run -> Check

  function Waits(): Run -> bool {
    (r: Run) => r.status == CiPending && r.repairCommit.Some?
  }

  function Concluded(checks: Checks): Run -> bool {
    (r: Run) => Waits()(r) && (checks(r).state.Passed? || checks(r).state.Failing?)
  }

  function Verdict(c: Check): RunUpdate {
    if c.state.Failing? then NO_UPDATE.(status := Some(CiFailed), error := Some(c.state.failure))
    else NO_UPDATE.(status := Some(AwaitingApproval))
  }

  /** What a pass makes of a run. */
  function Passing(checks: Checks): Run -> Run {
    (r: Run) => if Concluded(checks)(r) then Patched(r, Verdict(checks(r)), checks(r).at) else r
  }

  /** The runs when the pass has reached `done` of those that waited. */
  ghost predicate PassedOver(initial: seq<Run>, runs: seq<Run>, done: seq<Run>, checks: Checks) {
    && |runs| == |initial|
    && forall j :: 0 <= j < |runs| ==> runs[j] == if initial[j] in done then Passing(checks)(initial[j]) else initial[j]
  }

  lemma PassedIdsStay(initial: seq<Run>, runs: seq<Run>, done: seq<Run>, checks: Checks)
    requires PassedOver(initial, runs, done, checks)
    ensures forall j :: 0 <= j < |runs| ==> runs[j].id == initial[j].id
  {
  }

  /** The row of a run that has not been reached yet. */
  lemma FoundAgain(initial: seq<Run>, runs: seq<Run>, done: seq<Run>, checks: Checks, r: Run)
    requires UniqueBy(initial, RunId) && PassedOver(initial, runs, done, checks) && r in initial && r !in done
    ensures var i := IndexOf(runs, r.id);
            i.Some? && runs[i.value] == r == initial[i.value]
            && PassedOver(initial, runs[i.value := Passing(checks)(r)], done + [r], checks)
  {
    PassedIdsStay(initial, runs, done, checks);
    var k :| 0 <= k < |initial| && initial[k] == r;
    var i := IndexOf(runs, r.id);
    assert runs[k] in runs;
    assert i.Some?;
    assert RunId(initial[i.value]) == RunId(initial[k]);
    assert i.value == k;
    forall j | 0 <= j < |runs| && j != k ensures initial[j] != r {
      assert j < k ==> RunId(initial[j]) != RunId(initial[k]);
      assert k < j ==> RunId(initial[k]) != RunId(initial[j]);
    }
  }

  lemma PassIsOver(initial: seq<Run>, runs: seq<Run>, checks: Checks)
    requires PassedOver(initial, runs, Filter(initial, Waits()), checks)
    ensures runs == Map(initial, Passing(checks))
  {
    InFilter(initial, Waits());
    forall j | 0 <= j < |initial| ensures runs[j] == Passing(checks)(initial[j]) {
      assert initial[j] in initial;
    }
  }

  /** One run of the loop. */
  method Settle(store: FileControlPlaneStore, ghost initial: seq<Run>, ghost done: seq<Run>, run: Run, checks: Checks)
    returns (concluded: bool)
    requires UniqueBy(initial, RunId) && PassedOver(initial, store.runs, done, checks)
    requires run in initial && run !in done && Waits()(run)
    modifies store`runs
    ensures concluded == Concluded(checks)(run)
    ensures PassedOver(initial, store.runs, done + [run], checks)
  {
    FoundAgain(initial, store.runs, done, checks, run);
    var check := checks(run);
    concluded := check.state.Passed? || check.state.Failing?;
    if concluded {
      ghost var before := store.Contents();
      var result := store.UpdateRun(run.id, Verdict(check), check.at);
      assert store.Contents().runs == before.runs[IndexOf(before.runs, run.id).value := Passing(checks)(run)];
    }
  }

  /** With no other update in between, the pass moves every run whose checks are concluded, and no other, and
      counts them. */
  method MonitorCi(store: FileControlPlaneStore, checks: Checks) returns (changed: nat)
    requires UniqueBy(store.runs, RunId)
    modifies store`runs
    ensures store.runs == Map(old(store.runs), Passing(checks))
    ensures changed == |Filter(old(store.runs), Concluded(checks))|
  {
    ghost var initial := store.runs;
    var pending := Filter(store.runs, Waits());
    InFilter(initial, Waits());
    FilterUnique(initial, RunId, Waits());
    changed := 0;
    for k := 0 to |pending|
      invariant PassedOver(initial, store.runs, pending[..k], checks)
      invariant changed == |Filter(pending[..k], Concluded(checks))|
    {
      var run := pending[k];
      NotBefore(pending, k);
      assert run in pending;
      assert pending[..k + 1] == pending[..k] + [run];
      FilterAppend(pending[..k], run, Concluded(checks));
      var concluded := Settle(store, initial, pending[..k], run, checks);
      if concluded { changed := changed + 1; }
    }
    assert pending[..|pending|] == pending;
    PassIsOver(initial, store.runs, checks);
    SameConcluded(initial, checks);
  }

  lemma NotBefore(pending: seq<Run>, k: nat)
    requires UniqueBy(pending, RunId) && k < |pending|
    ensures pending[k] !in pending[..k]
  {
    forall j | 0 <= j < k ensures pending[j] != pending[k] {
      assert RunId(pending[j]) != RunId(pending[k]);
    }
  }

  lemma {:induction false} SameConcluded(runs: seq<Run>, checks: Checks)
    ensures Filter(Filter(runs, Waits()), Concluded(checks)) == Filter(runs, Concluded(checks))
  {
    if runs != [] { SameConcluded(runs[1..], checks); }
  }

  /** The write for one run is the monitor's step of the protocol. */
  lemma WriteIsAStep(s: RunProtocol.State, id: string, checks: Checks)
    requires id in s.runs && Concluded(checks)(s.runs[id]) && checks(s.runs[id]).at == s.now
    ensures var state := checks(s.runs[id]).state;
            var step := RunProtocol.Monitor(id, state.Passed?, if state.Failing? then state.failure else "");
            RunProtocol.Enabled(s, step)
            && RunProtocol.Apply(s, step) == s.(runs := s.runs[id := Passing(checks)(s.runs[id])])
  {
  }

  /** What a pass makes of each run: one whose checks have passed waits for approval, one whose checks have failed says
      why, and any other is left alone. */
  lemma PassingIs(checks: Checks, r: Run)
    ensures var waits, c := r.status == CiPending && r.repairCommit.Some?, checks(r);
            && (waits && c.state.Passed? ==> Passing(checks)(r) == r.(status := AwaitingApproval, updatedAt := c.at))
            && (waits && c.state.Failing? ==>
                  Passing(checks)(r) == r.(status := CiFailed, error := Some(c.state.failure), updatedAt := c.at))
            && (!waits || !(c.state.Passed? || c.state.Failing?) ==> Passing(checks)(r) == r)
            && (Concluded(checks)(r) <==> waits && (c.state.Passed? || c.state.Failing?))
  {
  }
}
