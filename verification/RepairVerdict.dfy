/** From the state of the repaired workspace to the verdict on the repair: scope, patch, evidence, findings
    before and after, and cost are folded into one decision. */
module RepairVerdict {
  import opened Wrappers
  import opened Sorting
  import opened Lists
  import opened Texts
  import opened OathEvidence
  import GitStatus
  import CostReview

  // ---- scope ----

  const SLASH: CodeUnit := 47
  const DOT: CodeUnit := 46

  /** `path.replaceAll("\\", "/")` */
  function Slashed(path: Text): Text {
    Map(path, (u: CodeUnit) => if u == BACKSLASH then SLASH else u)
  }

  function WithoutDot(path: Text): Text {
    if [DOT, SLASH] <= path then path[2..] else path
  }

  const PROTECTED_FILES: seq<Text> := [Lit("software-oath.yml"), Lit("CODEOWNERS"), Lit(".github/CODEOWNERS")]
  const PROTECTED_DIRECTORIES: seq<Text> := [Lit(".software-oath"), Lit(".github/workflows")]

  /** The path is the allowed one or lies below it. */
  predicate Under(path: Text, allowed: Text) {
    path == allowed || allowed + [SLASH] <= path
  }

  predicate IsProtectedRepairPath(path: Text) {
    var normalized := WithoutDot(Slashed(path));
    normalized in PROTECTED_FILES || exists directory ::
        directory in PROTECTED_DIRECTORIES && Under(normalized, directory)
  }

  predicate IsAllowed(path: Text, allowedPaths: seq<Text>) {
    exists allowed :: allowed in allowedPaths && Under(path, allowed)
  }

  predicate InScope(path: Text, allowedPaths: seq<Text>) {
    !IsProtectedRepairPath(path) && IsAllowed(path, allowedPaths)
  }

  function ScopeOf(allowedPaths: seq<Text>): Text -> bool {
    (path: Text) => InScope(path, allowedPaths)
  }

  predicate AllIn(changed: seq<Text>, scope: Text -> bool) {
    changed != [] && forall path :: path in changed ==> scope(path)
  }

  predicate WithinAllowedScope(changed: seq<Text>, allowedPaths: seq<Text>) {
    AllIn(changed, ScopeOf(allowedPaths))
  }

  // ---- findings ----

  datatype Finding = Finding(id: string, severity: Severity, automaticCandidate: bool, allowedPaths: seq<Text>)

  datatype Proof = Proof(
    selectedFindingResolved: bool, newFindings: seq<Finding>, blockingNewFindings: seq<Finding>)

  /** `new Map(findings.map(...)).get(id)`: the last finding of that id. */
  function FindingById(findings: seq<Finding>, id: string): Option<Finding> {
    if findings == [] then None
    else if findings[|findings| - 1].id == id then Some(findings[|findings| - 1])
    else FindingById(findings[..|findings| - 1], id)
  }

  predicate Severe(f: Finding) {
    f.severity == Critical || f.severity == High
  }

  predicate WasSevere(before: seq<Finding>, id: string) {
    var f := FindingById(before, id);
    f.Some? && Severe(f.value)
  }

  predicate HasFinding(findings: seq<Finding>, id: string) {
    exists f :: f in findings && f.id == id
  }

  function NotIn(before: seq<Finding>): Finding -> bool { (f: Finding) => !HasFinding(before, f.id) }

  function NewlySevere(before: seq<Finding>): Finding -> bool { (f: Finding) => Severe(f) && !WasSevere(before, f.id) }

  function CompareRepairProof(before: seq<Finding>, after: seq<Finding>, selected: Finding): Proof {
    Proof(!HasFinding(after, selected.id), Filter(after, NotIn(before)), Filter(after, NewlySevere(before)))
  }

  /** `chooseFinding`: the named finding, or without a name the first that may be repaired unasked. */
  function ChooseFinding(findings: seq<Finding>, findingId: Option<string>): (r: Result<Finding>)
    ensures r.Ok? ==> r.value in findings
                      && if findingId.Some? && findingId.value != "" then r.value.id == findingId.value
                          else r.value.automaticCandidate
    ensures r.Err? <==>
            if findingId.Some? && findingId.value != "" then !HasFinding(findings, findingId.value)
            else forall f :: f in findings ==> !f.automaticCandidate
  {
    if findingId.Some? && findingId.value != "" then
      FirstFinding(findings, (f: Finding) => f.id == findingId.value, "Finding was not found.")
    else FirstFinding(findings, (f: Finding) => f.automaticCandidate, "No automatic repair candidate was found.")
  }

  function FirstFinding(findings: seq<Finding>, wanted: Finding -> bool, reason: string): (r: Result<Finding>)
    ensures r.Ok? ==> r.value in findings && wanted(r.value)
    ensures r.Err? ==> forall f :: f in findings ==> !wanted(f)
  {
    if findings == [] then Err(reason)
    else if wanted(findings[0]) then Ok(findings[0])
    else FirstFinding(findings[1..], wanted, reason)
  }

  // ---- decisions ----

  function RepairDecision(withinAllowedScope: bool, hasPatch: bool, verification: Decision, proof: Proof): Decision {
    if !withinAllowedScope || !hasPatch || verification == Blocked || !proof.selectedFindingResolved
       || |proof.blockingNewFindings| > 0
    then Blocked
    else verification
  }

  function DecisionWithCost(decision: Decision, cost: Option<CostReview.CostStatus>): Decision {
    if decision == Blocked || cost == Some(CostReview.CostBlocked) then Blocked
    else if decision == ReviewRequired || cost == Some(CostReview.CostReviewRequired) then ReviewRequired
    else decision
  }

  /** All that a repair run observes. */
  datatype Observations = Observations(
    statusOutput: Text,
    patch: Text,
    oath: Oath,
    before: seq<Finding>,
    after: seq<Finding>,
    selected: Finding,
    costPolicy: Option<CostReview.Policy>,
    detectedFiles: seq<string>,
    costInputs: CostReview.Inputs)

  function CostStatusOf(o: Observations): Option<CostReview.CostStatus> {
    if o.costPolicy.Some? && o.costPolicy.value.enabled then
      Some(CostReview.StatusOf(o.costPolicy.value, o.detectedFiles, o.costInputs))
    else None
  }

  function Verdict(o: Observations, runner: Runner, changed: seq<Text>): Decision {
    DecisionWithCost(
      RepairDecision(
        WithinAllowedScope(changed, o.selected.allowedPaths),
        o.patch != [],
        EvaluateOath(o.oath, Records(o.oath, runner, |o.oath.rules|)).decision,
        CompareRepairProof(o.before, o.after, o.selected)),
      CostStatusOf(o))
  }

  /** The decisions of `runRepair`, in the order in which it makes them. */
  method RunRepair(o: Observations, runner: Runner) returns (result: Result<Decision>)
    ensures match GitStatus.Records(GitStatus.Split(o.statusOutput), 0)
            case Ok(entries) => result == Ok(Verdict(o, runner, GitStatus.PathsOf(entries).changedPaths))
            case Err(reason) => result == Err(reason)
  {
    var status := GitStatus.ParsePorcelainV1Z(o.statusOutput);
    if status.Err? { return Err(status.reason); }
    var changed := status.value.changedPaths;
    var withinAllowedScope := WithinAllowedScope(changed, o.selected.allowedPaths);
    var records := CollectEvidence(o.oath, runner);
    var verification := EvaluateOath(o.oath, records);
    var proof := CompareRepairProof(o.before, o.after, o.selected);
    var decision := RepairDecision(withinAllowedScope, o.patch != [], verification.decision, proof);
    var cost: Option<CostReview.CostStatus> := None;
    if o.costPolicy.Some? && o.costPolicy.value.enabled {
      var evidence := CostReview.EvaluateCostChange(o.costPolicy.value, o.detectedFiles, o.costInputs);
      cost := Some(evidence.status);
    }
    result := Ok(DecisionWithCost(decision, cost));
  }

  // ---- what `ready` means ----

  /** Every path that Git reported, new or original, is in the scope. */
  ghost predicate EveryNamedPathIn(entries: seq<GitStatus.Entry>, scope: Text -> bool) {
    forall e :: e in entries ==> scope(e.path) && (GitStatus.IsMove(e.status) ==> scope(e.original))
  }

  lemma NamedPathsIn(entries: seq<GitStatus.Entry>, changed: seq<Text>, scope: Text -> bool)
    requires forall path :: path in changed <==> GitStatus.Names(entries, path)
    ensures AllIn(changed, scope) <==> entries != [] && EveryNamedPathIn(entries, scope)
  {
    Inhabited(changed);
    if entries != [] {
      assert entries[0] in entries;
      assert GitStatus.Names(entries, entries[0].path);
    }
    if AllIn(changed, scope) {
      forall e | e in entries ensures scope(e.path) && (GitStatus.IsMove(e.status) ==> scope(e.original)) {
        assert GitStatus.Names(entries, e.path);
        assert GitStatus.IsMove(e.status) ==> GitStatus.Names(entries, e.original);
      }
    }
  }

  lemma ScopeIffNamed(entries: seq<GitStatus.Entry>, scope: Text -> bool)
    ensures AllIn(GitStatus.PathsOf(entries).changedPaths, scope) <==> entries != [] && EveryNamedPathIn(entries, scope)
  {
    var changed := GitStatus.PathsOf(entries).changedPaths;
    forall path ensures path in changed <==> GitStatus.Names(entries, path) {
      GitStatus.PathsAreExact(entries, path);
    }
    NamedPathsIn(entries, changed, scope);
  }

  // ---- files below an untracked directory ----

  /** Git names a directory that is untracked as a whole by one path, which ends in a slash. */
  predicate IsDirectory(path: Text) {
    path != [] && path[|path| - 1] == SLASH
  }

  predicate LiesBelow(file: Text, directory: Text) {
    IsDirectory(directory) && directory <= file && file != directory
  }

  /** The file is named, or lies below a directory that is. */
  predicate MayBeTouched(entries: seq<GitStatus.Entry>, file: Text) {
    || GitStatus.Names(entries, file)
    || (exists i: nat :: i < |file| && LiesBelow(file, file[..i]) && GitStatus.Names(entries, file[..i]))
  }

  /** The directory leads to a protected path. */
  predicate Encloses(directory: Text) {
    IsDirectory(directory) && exists path ::
        path in PROTECTED_FILES + PROTECTED_DIRECTORIES && Normalized(directory) <= path
  }

  function Normalized(path: Text): Text {
    WithoutDot(Slashed(path))
  }

  lemma NormalizedBelow(directory: Text, rest: Text)
    requires IsDirectory(directory)
    ensures Normalized(directory + rest) == Normalized(directory) + Slashed(rest)
  {
    assert Slashed(directory + rest) == Slashed(directory) + Slashed(rest);
    assert Slashed(directory)[|directory| - 1] == SLASH;
  }

  lemma LitAppends(s: string, t: string)
    ensures Lit(s + t) == Lit(s) + Lit(t)
  {
  }

  lemma LitSlashed(s: string)
    requires '\\' !in s
    ensures Slashed(Lit(s)) == Lit(s)
  {
    assert forall i :: 0 <= i < |s| ==> s[i] in s;
  }

  lemma LitIsNoDirectory(s: string)
    requires s != "" && s[|s| - 1] != '/'
    ensures !IsDirectory(Lit(s))
  {
  }

  /** Written with slashes, and not itself a directory. */
  predicate Plain(path: Text) {
    Slashed(path) == path && !IsDirectory(path)
  }

  lemma PlainLit(s: string)
    requires s != "" && '\\' !in s && s[|s| - 1] != '/'
    ensures Plain(Lit(s))
  {
    LitSlashed(s);
    LitIsNoDirectory(s);
  }

  lemma FilesArePlain()
    ensures forall path :: path in PROTECTED_FILES ==> Plain(path)
  {
    PlainLit("software-oath.yml");
    PlainLit("CODEOWNERS");
    PlainLit(".github/CODEOWNERS");
  }

  lemma DirectoriesArePlain()
    ensures forall path :: path in PROTECTED_DIRECTORIES ==> Plain(path)
  {
    PlainLit(".software-oath");
    PlainLit(".github/workflows");
  }

  lemma ListedIsPlain(path: Text)
    requires path in PROTECTED_FILES + PROTECTED_DIRECTORIES
    ensures Plain(path)
  {
    FilesArePlain();
    DirectoriesArePlain();
  }

  /** Below a directory that leads to a protected path there is a protected file. */
  lemma EnclosesProtected(directory: Text, path: Text) returns (file: Text)
    requires IsDirectory(directory) && path in PROTECTED_FILES + PROTECTED_DIRECTORIES && Normalized(directory) <= path
    ensures LiesBelow(file, directory) && IsProtectedRepairPath(file)
  {
    ListedIsPlain(path);
    var n := Normalized(directory);
    var rest := path[|n|..];
    file := directory + rest;
    SlashedPart(path, |n|);
    NormalizedBelow(directory, rest);
    NormalizedIsDirectory(directory);
    assert Normalized(file) == n + rest == path;
    ListedIsProtected(file);
  }

  lemma ListedIsProtected(file: Text)
    requires Normalized(file) in PROTECTED_FILES + PROTECTED_DIRECTORIES
    ensures IsProtectedRepairPath(file)
  {
    if Normalized(file) in PROTECTED_DIRECTORIES { assert Under(Normalized(file), Normalized(file)); }
  }

  lemma SlashedPart(path: Text, k: nat)
    requires Slashed(path) == path && k <= |path|
    ensures Slashed(path[k..]) == path[k..]
  {
    forall i | 0 <= i < |path| - k ensures Slashed(path[k..])[i] == path[k..][i] {
      assert path[k..][i] == path[k + i] == Slashed(path)[k + i];
    }
  }

  lemma NormalizedIsDirectory(directory: Text)
    requires IsDirectory(directory)
    ensures Normalized(directory) == [] || IsDirectory(Normalized(directory))
  {
    assert Slashed(directory)[|directory| - 1] == SLASH;
  }

  /** Below any other unprotected directory there is none. */
  lemma NothingProtectedBelow(directory: Text, file: Text)
    requires LiesBelow(file, directory) && IsProtectedRepairPath(file) && !IsProtectedRepairPath(directory)
    ensures Encloses(directory)
  {
    var rest := file[|directory|..];
    assert file == directory + rest;
    NormalizedBelow(directory, rest);
    var n := Normalized(directory);
    assert n <= Normalized(file);
    if Normalized(file) in PROTECTED_FILES {
      assert Normalized(file) in PROTECTED_FILES + PROTECTED_DIRECTORIES;
    } else {
      var d :| d in PROTECTED_DIRECTORIES && Under(Normalized(file), d);
      assert d in PROTECTED_FILES + PROTECTED_DIRECTORIES;
      assert !Under(n, d);
      CommonPath(n, d, Normalized(file));
    }
  }

  /** Of two paths to one file, one leads to the other. */
  lemma CommonPath(n: Text, d: Text, file: Text)
    requires n <= file && Under(file, d)
    ensures n <= d || d + [SLASH] <= n
  {
    if file != d {
      assert d + [SLASH] == file[..|d| + 1];
      assert |n| <= |d| ==> n == (d + [SLASH])[..|n|];
    }
  }

  /** A passing scope check leaves every protected file alone exactly if no named directory leads to one. */
  lemma PassingScopeProtectsIff(entries: seq<GitStatus.Entry>, allowedPaths: seq<Text>)
    requires AllIn(GitStatus.PathsOf(entries).changedPaths, ScopeOf(allowedPaths))
    ensures (forall file :: MayBeTouched(entries, file) ==> !IsProtectedRepairPath(file)) <==>
            (forall path :: GitStatus.Names(entries, path) ==> !Encloses(path))
  {
    if path :| GitStatus.Names(entries, path) && Encloses(path) {
      var file := EnclosedIsTouched(entries, path);
    }
    if file :| MayBeTouched(entries, file) && IsProtectedRepairPath(file) {
      var path := TouchedIsEnclosed(entries, allowedPaths, file);
    }
  }

  lemma EnclosedIsTouched(entries: seq<GitStatus.Entry>, path: Text) returns (file: Text)
    requires GitStatus.Names(entries, path) && Encloses(path)
    ensures MayBeTouched(entries, file) && IsProtectedRepairPath(file)
  {
    var protected :| protected in PROTECTED_FILES + PROTECTED_DIRECTORIES && Normalized(path) <= protected;
    file := EnclosesProtected(path, protected);
    FileBelow(entries, path, file[|path|..]);
    assert path + file[|path|..] == file;
  }

  lemma TouchedIsEnclosed(entries: seq<GitStatus.Entry>, allowedPaths: seq<Text>, file: Text) returns (path: Text)
    requires AllIn(GitStatus.PathsOf(entries).changedPaths, ScopeOf(allowedPaths))
    requires MayBeTouched(entries, file) && IsProtectedRepairPath(file)
    ensures GitStatus.Names(entries, path) && Encloses(path)
  {
    NamedIsInScope(entries, allowedPaths, file);
    var i: nat :| i < |file| && LiesBelow(file, file[..i]) && GitStatus.Names(entries, file[..i]);
    path := file[..i];
    NamedIsInScope(entries, allowedPaths, path);
    NothingProtectedBelow(path, file);
  }

  lemma NamedIsInScope(entries: seq<GitStatus.Entry>, allowedPaths: seq<Text>, path: Text)
    requires AllIn(GitStatus.PathsOf(entries).changedPaths, ScopeOf(allowedPaths))
    ensures GitStatus.Names(entries, path) ==> InScope(path, allowedPaths)
  {
    GitStatus.PathsAreExact(entries, path);
    assert GitStatus.Names(entries, path) ==> ScopeOf(allowedPaths)(path);
  }

  /** The file is, or lies below, a path that is allowed. */
  predicate BelowAllowed(file: Text, allowedPaths: seq<Text>) {
    exists allowed :: allowed in allowedPaths && (Under(file, allowed) || LiesBelow(file, allowed))
  }

  /** But it never lets a file outside the allowed paths through. */
  lemma PassingScopeIsAllowed(entries: seq<GitStatus.Entry>, allowedPaths: seq<Text>, file: Text)
    requires AllIn(GitStatus.PathsOf(entries).changedPaths, ScopeOf(allowedPaths)) && MayBeTouched(entries, file)
    ensures BelowAllowed(file, allowedPaths)
  {
    var path := file;
    if !GitStatus.Names(entries, file) {
      var i: nat :| i < |file| && LiesBelow(file, file[..i]) && GitStatus.Names(entries, file[..i]);
      path := file[..i];
    }
    NamedIsInScope(entries, allowedPaths, path);
    BelowPath(path, file, allowedPaths);
  }

  lemma BelowPath(path: Text, file: Text, allowedPaths: seq<Text>)
    requires IsAllowed(path, allowedPaths) && (path == file || LiesBelow(file, path))
    ensures BelowAllowed(file, allowedPaths)
  {
    var allowed :| allowed in allowedPaths && Under(path, allowed);
    assert path != allowed ==> allowed + [SLASH] == path[..|allowed| + 1] == file[..|allowed| + 1];
  }

  const GITHUB: Text := Lit(".github")
  const GITHUB_SLASH: Text := Lit(".github/")
  const WORKFLOW: Text := Lit(".github/workflows/ci.yml")

  /** What Git says of a new directory `.github`. */
  function NewDirectory(): GitStatus.Entry {
    GitStatus.Entry(GitStatus.UNTRACKED, GITHUB_SLASH, [])
  }

  /** Where `.github` is allowed, a new workflow in a directory that is new with it passes. */
  lemma NewWorkflowPasses(o: Observations, runner: Runner)
    requires o.statusOutput == GitStatus.Print([NewDirectory()]) && o.selected.allowedPaths == [GITHUB]
    requires o.patch != [] && OathKept(o.oath, runner) && NothingGotWorse(o.before, o.after, o.selected)
        && CostIsFine(o)
    ensures GitStatus.Records(GitStatus.Split(o.statusOutput), 0) == Ok([NewDirectory()])
    ensures Verdict(o, runner, GitStatus.PathsOf([NewDirectory()]).changedPaths) == Ready
    ensures MayBeTouched([NewDirectory()], WORKFLOW) && IsProtectedRepairPath(WORKFLOW)
  {
    NewDirectoryIsRead();
    NewDirectoryIsInScope();
    OneEntryIsReady(o, runner, NewDirectory());
    WorkflowIsBelow();
    WorkflowIsProtected();
  }

  lemma OneEntryIsReady(o: Observations, runner: Runner, e: GitStatus.Entry)
    requires InScope(e.path, o.selected.allowedPaths) && !GitStatus.IsMove(e.status)
    requires o.patch != [] && OathKept(o.oath, runner) && NothingGotWorse(o.before, o.after, o.selected)
        && CostIsFine(o)
    ensures Verdict(o, runner, GitStatus.PathsOf([e]).changedPaths) == Ready
  {
    ReadyIff(o, runner, [e]);
    OneEntryInScope(e, ScopeOf(o.selected.allowedPaths));
  }

  lemma OneEntryInScope(e: GitStatus.Entry, scope: Text -> bool)
    requires scope(e.path) && !GitStatus.IsMove(e.status)
    ensures EveryNamedPathIn([e], scope)
  {
  }

  lemma NewDirectoryIsRead()
    ensures GitStatus.Records(GitStatus.Split(GitStatus.Print([NewDirectory()])), 0) == Ok([NewDirectory()])
  {
    assert GitStatus.Printable(NewDirectory());
    GitStatus.PrintedEntriesAreRead([NewDirectory()]);
  }

  lemma NewDirectoryIsInScope()
    ensures InScope(GITHUB_SLASH, [GITHUB])
  {
    LitAppends(".github", "/");
    assert Lit("/") == [SLASH];
    assert Under(GITHUB_SLASH, GITHUB) && GITHUB in [GITHUB];
    LitSlashed(".github/");
    assert Normalized(GITHUB_SLASH) == GITHUB_SLASH;
    assert GITHUB_SLASH !in PROTECTED_FILES;
  }

  lemma WorkflowIsBelow()
    ensures MayBeTouched([NewDirectory()], WORKFLOW)
  {
    LitSplits(".github/workflows/ci.yml", ".github/", "workflows/ci.yml");
    assert GitStatus.Names([NewDirectory()], NewDirectory().path);
    FileBelow([NewDirectory()], GITHUB_SLASH, Lit("workflows/ci.yml"));
  }

  lemma FileBelow(entries: seq<GitStatus.Entry>, directory: Text, rest: Text)
    requires GitStatus.Names(entries, directory) && IsDirectory(directory) && rest != []
    ensures MayBeTouched(entries, directory + rest)
  {
    assert (directory + rest)[..|directory|] == directory;
  }

  lemma WorkflowIsProtected()
    ensures IsProtectedRepairPath(WORKFLOW)
  {
    LitSlashed(".github/workflows/ci.yml");
    WorkflowIsInWorkflows();
    ProtectedBelow(Lit(".github/workflows"), WORKFLOW);
  }

  lemma WorkflowIsInWorkflows()
    ensures Lit(".github/workflows") + [SLASH] <= WORKFLOW
  {
    LitSplits(".github/workflows/ci.yml", ".github/workflows/", "ci.yml");
    LitSplits(".github/workflows/", ".github/workflows", "/");
    assert Lit("/") == [SLASH];
  }

  lemma LitSplits(whole: string, s: string, t: string)
    requires whole == s + t
    ensures Lit(whole) == Lit(s) + Lit(t)
  {
    LitAppends(s, t);
  }

  lemma ProtectedBelow(directory: Text, path: Text)
    requires directory in PROTECTED_DIRECTORIES && directory + [SLASH] <= path
    requires Slashed(path) == path && !([DOT, SLASH] <= path)
    ensures IsProtectedRepairPath(path)
  {
    assert Under(Normalized(path), directory);
  }

  /** The selected finding is gone, and whatever is critical or high now was critical or high before. */
  ghost predicate NothingGotWorse(before: seq<Finding>, after: seq<Finding>, selected: Finding) {
    && !HasFinding(after, selected.id)
    && forall f :: f in after && (f.severity == Critical || f.severity == High) ==> WasSevere(before, f.id)
  }

  lemma ProofHoldsIff(before: seq<Finding>, after: seq<Finding>, selected: Finding)
    ensures var proof := CompareRepairProof(before, after, selected);
            proof.selectedFindingResolved && |proof.blockingNewFindings| == 0 <==>
            NothingGotWorse(before, after, selected)
  {
    InFilter(after, NewlySevere(before));
    Inhabited(Filter(after, NewlySevere(before)));
  }

  /** The last finding of its id. */
  predicate IsLastOf(findings: seq<Finding>, id: string, i: int) {
    0 <= i < |findings| && findings[i].id == id && forall j :: i < j < |findings| ==> findings[j].id != id
  }

  lemma LastOfFront(findings: seq<Finding>, id: string, i: int)
    requires findings != [] && findings[|findings| - 1].id != id && IsLastOf(findings[..|findings| - 1], id, i)
    ensures IsLastOf(findings, id, i)
  {
    forall j | i < j < |findings| ensures findings[j].id != id {
      if j < |findings| - 1 { assert findings[..|findings| - 1][j] == findings[j]; }
    }
  }

  lemma {:induction false} FindingByIdIsLast(findings: seq<Finding>, id: string)
    ensures match FindingById(findings, id)
            case None => forall i :: 0 <= i < |findings| ==> findings[i].id != id
            case Some(f) => exists i :: IsLastOf(findings, id, i) && findings[i] == f
  {
    if findings != [] {
      var last := |findings| - 1;
      if findings[last].id == id {
        assert IsLastOf(findings, id, last);
      } else {
        FindingByIdIsLast(findings[..last], id);
        if FindingById(findings, id).Some? {
          var i :| IsLastOf(findings[..last], id, i) && findings[..last][i] == FindingById(findings, id).value;
          LastOfFront(findings, id, i);
        } else {
          assert forall j :: 0 <= j < last ==> findings[j] == findings[..last][j];
        }
      }
    }
  }

  /** A finding was severe if the last one of its id was critical or high. */
  lemma WasSevereIff(before: seq<Finding>, id: string)
    ensures WasSevere(before, id) <==>
            exists i :: IsLastOf(before, id, i) && (before[i].severity == Critical || before[i].severity == High)
  {
    FindingByIdIsLast(before, id);
    assert forall i, j :: IsLastOf(before, id, i) && IsLastOf(before, id, j) ==> i == j;
  }

  ghost predicate OathKept(oath: Oath, runner: Runner) {
    && (forall i, j :: 0 <= i < |oath.rules| && 0 <= j < |oath.rules[i].evidence| ==> Kept(oath, runner, i, j))
    && (forall i :: 0 <= i < |oath.rules| ==> oath.rules[i].severity !in oath.requireHumanFor)
  }

  /** The cost of the repair does not stand in the way. */
  ghost predicate CostIsFine(o: Observations) {
    var cost := CostStatusOf(o);
    cost.None? || cost.value == CostReview.NotApplicable || cost.value == CostReview.CostPassed
  }

  lemma VerdictParts(o: Observations, runner: Runner, changed: seq<Text>)
    ensures var scope := WithinAllowedScope(changed, o.selected.allowedPaths);
            var report := EvaluateOath(o.oath, Records(o.oath, runner, |o.oath.rules|)).decision;
            var proven := NothingGotWorse(o.before, o.after, o.selected);
            && (Verdict(o, runner, changed) == Ready <==>
                  scope && o.patch != [] && report == Ready && proven && CostIsFine(o))
            && (Verdict(o, runner, changed) == Blocked <==>
                  !scope || o.patch == [] || report == Blocked || !proven
                    || CostStatusOf(o) == Some(CostReview.CostBlocked))
  {
    ProofHoldsIff(o.before, o.after, o.selected);
  }

  /** A repair is `ready` exactly if the patch is not empty, something was changed and every path that Git names is
      unprotected and allowed, every requirement of the oath was kept by a command and no rule asks for a
      human, the selected finding is gone and nothing got worse, and the cost policy has no objection. */
  lemma ReadyIff(o: Observations, runner: Runner, entries: seq<GitStatus.Entry>)
    ensures Verdict(o, runner, GitStatus.PathsOf(entries).changedPaths) == Ready <==>
            && o.patch != []
            && entries != [] && EveryNamedPathIn(entries, ScopeOf(o.selected.allowedPaths))
            && OathKept(o.oath, runner)
            && NothingGotWorse(o.before, o.after, o.selected)
            && CostIsFine(o)
  {
    VerdictParts(o, runner, GitStatus.PathsOf(entries).changedPaths);
    ScopeIffNamed(entries, ScopeOf(o.selected.allowedPaths));
    ReadyIffKept(o.oath, runner);
  }

  /** It is blocked exactly if the patch is empty, something is out of scope, a command failed, the finding is
      still there or something got worse, or the cost is blocked. */
  lemma BlockedIff(o: Observations, runner: Runner, entries: seq<GitStatus.Entry>)
    ensures Verdict(o, runner, GitStatus.PathsOf(entries).changedPaths) == Blocked <==>
            || o.patch == []
            || entries == [] || !EveryNamedPathIn(entries, ScopeOf(o.selected.allowedPaths))
            || (exists i, j ::
                0 <= i < |o.oath.rules| && 0 <= j < |o.oath.rules[i].evidence| && Broken(o.oath, runner, i, j))
            || !NothingGotWorse(o.before, o.after, o.selected)
            || CostStops(o)
  {
    VerdictParts(o, runner, GitStatus.PathsOf(entries).changedPaths);
    ScopeIffNamed(entries, ScopeOf(o.selected.allowedPaths));
    BlockedIffBroken(o.oath, runner);
    CostStopsIff(o);
  }

  /** There is an enabled policy that stops the repair for its cost. */
  predicate CostStops(o: Observations) {
    o.costPolicy.Some? && o.costPolicy.value.enabled
    && CostReview.Stops(o.costPolicy.value, o.detectedFiles, o.costInputs)
  }

  lemma CostStopsIff(o: Observations)
    ensures CostStatusOf(o) == Some(CostReview.CostBlocked) <==> CostStops(o)
  {
    if o.costPolicy.Some? {
      CostReview.CostBlockedIff(o.costPolicy.value, o.detectedFiles, o.costInputs);
    }
  }

  /** With an enabled cost policy, a ready repair touches no infrastructure or does not raise its cost. */
  lemma ReadyRaisesNoCost(o: Observations, runner: Runner, entries: seq<GitStatus.Entry>)
    requires Verdict(o, runner, GitStatus.PathsOf(entries).changedPaths) == Ready
    requires o.costPolicy.Some? && o.costPolicy.value.enabled
    ensures || o.detectedFiles == []
            || (CostReview.Complete(o.costInputs)
                && o.costInputs.proposed.value.monthlyCost - o.costInputs.baseline.value.monthlyCost < 0.005)
  {
    VerdictParts(o, runner, GitStatus.PathsOf(entries).changedPaths);
    FineCostIsNoRise(o);
  }

  lemma FineCostIsNoRise(o: Observations)
    requires CostIsFine(o) && o.costPolicy.Some? && o.costPolicy.value.enabled
    ensures || o.detectedFiles == []
            || (CostReview.Complete(o.costInputs)
                && o.costInputs.proposed.value.monthlyCost - o.costInputs.baseline.value.monthlyCost < 0.005)
  {
    if o.detectedFiles != [] {
      CostReview.CostPassesOnlyIf(o.costPolicy.value, o.detectedFiles, o.costInputs);
    }
  }

  /** A path is protected however its separators are written, and with or without a leading "./". */
  lemma ProtectionIgnoresSpelling(path: Text)
    requires !([DOT, SLASH] <= Slashed(path))
    ensures IsProtectedRepairPath(Slashed(path)) <==> IsProtectedRepairPath(path)
    ensures IsProtectedRepairPath([DOT, SLASH] + path) <==> IsProtectedRepairPath(path)
    ensures IsProtectedRepairPath([DOT, BACKSLASH] + path) <==> IsProtectedRepairPath(path)
  {
    assert Slashed(Slashed(path)) == Slashed(path);
    assert Slashed([DOT, SLASH] + path) == [DOT, SLASH] + Slashed(path);
    assert Slashed([DOT, BACKSLASH] + path) == [DOT, SLASH] + Slashed(path);
  }

  /** What is protected: the oath, the owners' files, and the two directories with all that lies below them. */
  lemma ProtectedIff(path: Text)
    ensures IsProtectedRepairPath(path) <==>
            var n := WithoutDot(Slashed(path));
            || n == Lit("software-oath.yml") || n == Lit("CODEOWNERS") || n == Lit(".github/CODEOWNERS")
            || n == Lit(".software-oath") || Lit(".software-oath/") <= n
            || n == Lit(".github/workflows") || Lit(".github/workflows/") <= n
  {
    LitAppends(".software-oath", "/");
    LitSplits(".github/workflows/", ".github/workflows", "/");
    assert Lit("/") == [SLASH];
    InBoth(PROTECTED_DIRECTORIES, Lit(".software-oath"), Lit(".github/workflows"), WithoutDot(Slashed(path)));
  }

  lemma InBoth(directories: seq<Text>, d: Text, e: Text, path: Text)
    requires directories == [d, e]
    ensures (exists directory :: directory in directories && Under(path, directory)) <==>
        Under(path, d) || Under(path, e)
  {
    assert d in directories && e in directories;
  }

  // ---- the gate before an owner's approval ----

  /** The parts of a repair receipt that the gate reads. */
  datatype Receipt = Receipt(
    decision: Decision, cost: Option<CostReview.CostStatus>, proof: Proof, withinAllowedScope: bool)

  function ReceiptOf(o: Observations, runner: Runner, changed: seq<Text>): Receipt {
    Receipt(
      Verdict(o, runner, changed), CostStatusOf(o), CompareRepairProof(o.before, o.after, o.selected),
      WithinAllowedScope(changed, o.selected.allowedPaths))
  }

  predicate ApprovalIsRefused(receipt: Receipt) {
    || receipt.decision == Blocked
    || receipt.cost == Some(CostReview.CostBlocked)
    || !receipt.proof.selectedFindingResolved
    || |receipt.proof.blockingNewFindings| > 0
    || !receipt.withinAllowedScope
  }

  /** On a receipt of a repair run the further conditions of the gate refuse nothing that its decision does
      not refuse. */
  lemma GateFollowsTheDecision(o: Observations, runner: Runner, changed: seq<Text>)
    ensures ApprovalIsRefused(ReceiptOf(o, runner, changed)) <==> Verdict(o, runner, changed) == Blocked
  {
    VerdictParts(o, runner, changed);
    ProofHoldsIff(o.before, o.after, o.selected);
  }
}
