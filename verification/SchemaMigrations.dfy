/** Schema migrations run by any number of processes at once. Each migration is one transaction under a
    common lock, so a transaction is one step; between their transactions the runners interleave freely,
    and each may stop for good at any point. */
module SchemaMigrations {
  import opened Wrappers
  import opened Sorting
  import opened Lists
  import opened Texts

  datatype Migration = Migration(name: Text, sql: Text, sha256: Text)

  /** The table `schema_migrations`: the checksum by name, empty where none is recorded. */
  type Recorded = map<Text, Text>

  predicate IsSql(entry: Text) {
    var suffix := Lit(".sql");
    |entry| >= |suffix| && entry[|entry| - |suffix|..] == suffix
  }

  function Read(content: Text -> Text, digest: Text -> Text): Text -> Migration {
    (name: Text) => Migration(name, content(name), digest(content(name)))
  }

  function AvailableMigrations(entries: seq<Text>, content: Text -> Text, digest: Text -> Text): seq<Migration> {
    Map(Sort(Filter(entries, IsSql), TextLe), Read(content, digest))
  }

  /** What a release ships: migrations in the order of their names, which differ. */
  ghost predicate Shipped(m: seq<Migration>) {
    && (forall i, j :: 0 <= i < j < |m| ==> ComesFirst(m[i].name, m[j].name))
    && (forall i :: 0 <= i < |m| ==> m[i].sha256 != [])
  }

  lemma AvailableAreShipped(entries: seq<Text>, content: Text -> Text, digest: Text -> Text)
    requires Distinct(entries) && forall t :: digest(t) != []
    ensures Shipped(AvailableMigrations(entries, content, digest))
  {
    var names := Filter(entries, IsSql);
    TextLeOrders();
    FilterUnique(entries, (t: Text) => t, IsSql);
    assert Distinct(names) by {
      forall i, j | 0 <= i < j < |names| ensures names[i] != names[j] {
        assert ((t: Text) => t)(names[i]) != ((t: Text) => t)(names[j]);
      }
    }
    SortSorts(names, TextLe);
    DistinctRearranged(names, Sort(names, TextLe));
    var m, sorted := AvailableMigrations(entries, content, digest), Sort(names, TextLe);
    forall i, j | 0 <= i < j < |m| ensures ComesFirst(m[i].name, m[j].name) {
      ComesFirstIff(sorted[i], sorted[j]);
    }
  }

  /** The files of the release. */
  const SHIPPED_FILES := [
    "0001_control_plane.sql", "0002_final_attestations.sql", "0003_reviewer_auth.sql", "0004_stewardship.sql",
    "0005_repository_knowledge.sql", "0006_optimizer_analyses.sql", "0007_optimizer_migration_specifications.sql",
    "0008_service_heartbeats.sql", "0009_migration_checksums.sql"]

  predicate Numbered(s: string, digit: char) {
    |s| > 8 && s[0] == s[1] == s[2] == '0' && s[3] == digit <= '9'
  }

  predicate IsSqlName(s: string) {
    |s| >= 4 && s[|s| - 4..] == ".sql"
  }

  lemma ShippedNames()
    ensures forall i :: 0 <= i < |SHIPPED_FILES| ==> Numbered(SHIPPED_FILES[i], "123456789"[i])
    ensures forall i :: 0 <= i < |SHIPPED_FILES| ==> IsSqlName(SHIPPED_FILES[i])
  {
  }

  lemma NumbersOrder(s: string, d: char, t: string, e: char)
    requires Numbered(s, d) && Numbered(t, e) && d < e
    ensures ComesFirst(Lit(s), Lit(t))
  {
    assert Lit(s)[..3] == [48, 48, 48] == Lit(t)[..3];
    assert SmallerAt(Lit(s), Lit(t), 3);
  }

  lemma FilesAreSorted(names: seq<string>, digits: string, files: seq<Text>)
    requires files == Map(names, Lit) && |digits| == |names|
    requires forall i :: 0 <= i < |names| ==> Numbered(names[i], digits[i])
    requires forall i, j :: 0 <= i < j < |digits| ==> digits[i] < digits[j]
    ensures Sorted(files, TextLe)
  {
    forall i, j | 0 <= i < j < |files| ensures TextLe(files[i], files[j]) {
      NumbersOrder(names[i], digits[i], names[j], digits[j]);
      ComesFirstIff(files[i], files[j]);
    }
  }

  lemma LitIsSql(s: string)
    requires IsSqlName(s)
    ensures IsSql(Lit(s))
  {
    LitEnds(s, ".sql");
  }

  lemma FilesAreSql(names: seq<string>, files: seq<Text>)
    requires files == Map(names, Lit) && forall i :: 0 <= i < |names| ==> IsSqlName(names[i])
    ensures forall x :: x in files ==> IsSql(x)
  {
    forall i | 0 <= i < |files| ensures IsSql(files[i]) {
      LitIsSql(names[i]);
    }
  }

  ghost predicate InNumbers(names: seq<string>, digits: string) {
    && |digits| == |names|
    && (forall i :: 0 <= i < |names| ==> Numbered(names[i], digits[i]) && IsSqlName(names[i]))
    && (forall i, j :: 0 <= i < j < |digits| ==> digits[i] < digits[j])
  }

  lemma ShippedInNumbers()
    ensures InNumbers(SHIPPED_FILES, "123456789")
  {
    ShippedNames();
  }

  /** Whatever order a directory lists numbered files in, they are migrated in the order of their numbers. */
  lemma NumberedFilesInOrder(names: seq<string>, digits: string, entries: seq<Text>, content: Text -> Text,
                             digest: Text -> Text)
    requires InNumbers(names, digits) && multiset(entries) == multiset(Map(names, Lit))
    ensures AvailableMigrations(entries, content, digest) == Map(Map(names, Lit), Read(content, digest))
  {
    FilesAreSorted(names, digits, Map(names, Lit));
    FilesAreSql(names, Map(names, Lit));
    SortedListIsKept(entries, Map(names, Lit));
  }

  /** So are the files of the release. */
  lemma ShippedFilesInOrder(entries: seq<Text>, content: Text -> Text, digest: Text -> Text)
    requires multiset(entries) == multiset(Map(SHIPPED_FILES, Lit))
    ensures AvailableMigrations(entries, content, digest) == Map(Map(SHIPPED_FILES, Lit), Read(content, digest))
  {
    ShippedInNumbers();
    NumberedFilesInOrder(SHIPPED_FILES, "123456789", entries, content, digest);
  }

  lemma SortedListIsKept(entries: seq<Text>, files: seq<Text>)
    requires multiset(entries) == multiset(files) && Sorted(files, TextLe) && forall x :: x in files ==> IsSql(x)
    ensures Sort(Filter(entries, IsSql), TextLe) == files
  {
    SameMembers(entries, files);
    FilterAll(entries, IsSql);
    TextLeOrders();
    SortSorts(entries, TextLe);
    SortedUnique(Sort(entries, TextLe), files, TextLe);
  }

  lemma LitEnds(s: string, suffix: string)
    requires |suffix| <= |s| && s[|s| - |suffix|..] == suffix
    ensures Lit(s)[|s| - |suffix|..] == Lit(suffix)
  {
    forall i | 0 <= i < |suffix| ensures Lit(s)[|s| - |suffix|..][i] == Lit(suffix)[i] {
      assert s[|s| - |suffix|..][i] == s[|s| - |suffix| + i];
    }
  }

  // ---- what the checks accept ----

  predicate Ships(m: seq<Migration>, name: Text) {
    exists i :: 0 <= i < |m| && m[i].name == name
  }

  /** `assertMigrationCompatibility` accepts. */
  predicate Compatible(m: seq<Migration>, recorded: Recorded) {
    (forall name :: name in recorded ==> Ships(m, name)) && Unmodified(m, recorded)
  }

  predicate Unmodified(m: seq<Migration>, recorded: Recorded) {
    forall i :: 0 <= i < |m| && m[i].name in recorded ==>
        recorded[m[i].name] == [] || recorded[m[i].name] == m[i].sha256
  }

  /** `assertMigrationReadiness` accepts. */
  predicate Ready(m: seq<Migration>, recorded: Recorded) {
    Compatible(m, recorded) && forall i :: 0 <= i < |m| ==> m[i].name in recorded
  }

  // ---- runners ----

  datatype Runner =
    | Waiting
    | Running(next: nat, applied: seq<Text>)
    | Done(applied: seq<Text>)
    | Failed(applied: seq<Text>)

  /** That the SQL of a migration was executed and committed, and by which runner. */
  datatype Execution = Execution(name: Text, runner: nat)

  datatype State = State(recorded: Recorded, log: seq<Execution>, runners: seq<Runner>)

  datatype Step =
    | Begin(runner: nat)
    | Migrate(runner: nat, succeeds: bool)
    | Return(runner: nat)
    | Stop(runner: nat)

  predicate Enabled(m: seq<Migration>, s: State, step: Step) {
    && step.runner < |s.runners|
    && var r := s.runners[step.runner];
       match step
       case Begin(_) => r.Waiting?
       case Migrate(_, _) => r.Running? && r.next < |m|
       case Return(_) => r.Running? && r.next == |m|
       case Stop(_) => r.Running?
  }

  /** One transaction of the loop; `succeeds` tells whether the SQL of a new migration goes through. */
  function Migrated(m: seq<Migration>, s: State, k: nat, succeeds: bool): State
    requires k < |s.runners| && s.runners[k].Running? && s.runners[k].next < |m|
  {
    var r := s.runners[k];
    var migration := m[r.next];
    if migration.name in s.recorded then
      var sha := s.recorded[migration.name];
      if sha != [] && sha != migration.sha256 then s.(runners := s.runners[k := Failed(r.applied)])
      else
        s.(recorded := if sha == [] then s.recorded[migration.name := migration.sha256] else s.recorded,
           runners := s.runners[k := Running(r.next + 1, r.applied)])
    else if !succeeds then s.(runners := s.runners[k := Failed(r.applied)])
    else
      State(
        s.recorded[migration.name := migration.sha256],
        s.log + [Execution(migration.name, k)],
        s.runners[k := Running(r.next + 1, r.applied + [migration.name])])
  }

  function Apply(m: seq<Migration>, s: State, step: Step): State
    requires Enabled(m, s, step)
  {
    var k, r := step.runner, s.runners[step.runner];
    match step
    case Begin(_) => s.(runners := s.runners[k := if Compatible(m, s.recorded) then Running(0, []) else Failed([])])
    case Migrate(_, succeeds) => Migrated(m, s, k, succeeds)
    case Return(_) => s.(runners := s.runners[k := Done(r.applied)])
    case Stop(_) => s.(runners := s.runners[k := Failed(r.applied)])
  }

  function Start(recorded: Recorded, runners: nat): State {
    State(recorded, [], seq(runners, i => Waiting))
  }

  ghost predicate Possible(m: seq<Migration>, s: State, steps: seq<Step>)
    decreases |steps|
  {
    steps != [] ==> Enabled(m, s, steps[0]) && Possible(m, Apply(m, s, steps[0]), steps[1..])
  }

  ghost function After(m: seq<Migration>, s: State, steps: seq<Step>): State
    requires Possible(m, s, steps)
    decreases |steps|
  {
    if steps == [] then s else After(m, Apply(m, s, steps[0]), steps[1..])
  }

  // ---- what every step keeps ----

  function Names(log: seq<Execution>): seq<Text> {
    Map(log, (e: Execution) => e.name)
  }

  function By(runner: nat): Execution -> bool {
    (e: Execution) => e.runner == runner
  }

  /** The migration is recorded, with its checksum. */
  predicate InForce(recorded: Recorded, migration: Migration) {
    migration.name in recorded && recorded[migration.name] == migration.sha256
  }

  predicate PassedTo(m: seq<Migration>, recorded: Recorded, count: nat) {
    forall j :: 0 <= j < count && j < |m| ==> InForce(recorded, m[j])
  }

  ghost predicate RunnerOk(m: seq<Migration>, s: State, k: nat)
    requires k < |s.runners|
  {
    match s.runners[k]
    case Waiting => Filter(s.log, By(k)) == []
    case Running(next, applied) =>
      next <= |m| && PassedTo(m, s.recorded, next) && applied == Names(Filter(s.log, By(k)))
    case Done(applied) => PassedTo(m, s.recorded, |m|) && applied == Names(Filter(s.log, By(k)))
    case Failed(applied) => applied == Names(Filter(s.log, By(k)))
  }

  function NamesIn(log: seq<Execution>): set<Text> {
    set e | e in log :: e.name
  }

  /** Only shipped migrations that were not recorded at first are executed, by the runners there are. */
  ghost predicate OnlyNew(m: seq<Migration>, initial: Recorded, log: seq<Execution>, runners: nat) {
    forall e :: e in log ==> Ships(m, e.name) && e.name !in initial && e.runner < runners
  }

  ghost predicate NoneTwice(log: seq<Execution>) {
    forall k, l :: 0 <= k < l < |log| ==> log[k].name != log[l].name
  }

  /** No migration is executed before those that come earlier are in place. */
  ghost predicate InOrder(m: seq<Migration>, initial: Recorded, log: seq<Execution>) {
    forall i, j, k :: 0 <= j < i < |m| && 0 <= k < |log| && log[k].name == m[i].name
        ==> InPlace(m[j].name, initial, log[..k])
  }

  ghost predicate LogOk(m: seq<Migration>, initial: Recorded, s: State) {
    && s.recorded.Keys == initial.Keys + NamesIn(s.log)
    && OnlyNew(m, initial, s.log, |s.runners|) && NoneTwice(s.log) && InOrder(m, initial, s.log)
    && (if Compatible(m, initial) then Compatible(m, s.recorded) else s.recorded == initial && s.log == [])
  }

  predicate InPlace(name: Text, initial: Recorded, log: seq<Execution>) {
    name in initial || name in NamesIn(log)
  }

  ghost predicate Inv(m: seq<Migration>, initial: Recorded, s: State) {
    && LogOk(m, initial, s)
    && (forall k :: 0 <= k < |s.runners| ==> RunnerOk(m, s, k))
    && (forall k :: 0 <= k < |s.runners| && (s.runners[k].Running? || s.runners[k].Done?) ==> Compatible(m, initial))
  }

  lemma StartHolds(m: seq<Migration>, initial: Recorded, runners: nat)
    ensures Inv(m, initial, Start(initial, runners))
  {
  }

  /** A recorded checksum is never changed, so what a runner has passed stays passed. */
  lemma RecordsStay(m: seq<Migration>, recorded: Recorded, i: nat)
    requires Shipped(m) && i < |m|
    requires m[i].name !in recorded || recorded[m[i].name] == []
    ensures var recorded' := recorded[m[i].name := m[i].sha256];
            && (forall j :: 0 <= j < |m| && InForce(recorded, m[j]) ==> InForce(recorded', m[j]))
            && InForce(recorded', m[i])
            && (Compatible(m, recorded) ==> Compatible(m, recorded'))
            && (Unmodified(m, recorded) ==> Unmodified(m, recorded'))
  {
    forall j | 0 <= j < |m| && m[j].name == m[i].name ensures j == i {
    }
  }

  lemma OrderGrows(m: seq<Migration>, initial: Recorded, log: seq<Execution>, next: nat, k: nat)
    requires Shipped(m) && InOrder(m, initial, log) && next < |m|
    requires forall j :: 0 <= j < next ==> InPlace(m[j].name, initial, log)
    ensures InOrder(m, initial, log + [Execution(m[next].name, k)])
  {
    var log' := log + [Execution(m[next].name, k)];
    forall i, j, l | 0 <= j < i < |m| && 0 <= l < |log'| && log'[l].name == m[i].name
      ensures InPlace(m[j].name, initial, log'[..l]) {
      if l < |log| {
        assert log'[..l] == log[..l];
        assert log[l].name == m[i].name;
      } else {
        assert log'[..l] == log;
        assert i == next;
      }
    }
  }

  lemma NamesGrow(log: seq<Execution>, e: Execution)
    ensures NamesIn(log + [e]) == NamesIn(log) + {e.name}
    ensures e.name !in NamesIn(log) && NoneTwice(log) ==> NoneTwice(log + [e])
  {
    assert (log + [e])[|log|] == e;
    assert forall f :: f in log + [e] <==> f in log || f == e;
    if e.name !in NamesIn(log) && NoneTwice(log) {
      forall l | 0 <= l < |log| ensures log[l].name != e.name {
        assert log[l] in log;
      }
    }
  }

  lemma LogGrows(m: seq<Migration>, initial: Recorded, s: State, k: nat)
    requires Shipped(m) && LogOk(m, initial, s) && Compatible(m, initial)
    requires k < |s.runners| && s.runners[k].Running? && s.runners[k].next < |m|
    requires PassedTo(m, s.recorded, s.runners[k].next) && m[s.runners[k].next].name !in s.recorded
    ensures LogOk(m, initial, Migrated(m, s, k, true))
  {
    var next := s.runners[k].next;
    var e := Execution(m[next].name, k);
    forall j | 0 <= j < next ensures InPlace(m[j].name, initial, s.log) {
      assert InForce(s.recorded, m[j]);
    }
    OrderGrows(m, initial, s.log, next, k);
    NamesGrow(s.log, e);
    RecordsStay(m, s.recorded, next);
    assert forall f :: f in s.log + [e] <==> f in s.log || f == e;
  }

  lemma OwnNames(log: seq<Execution>, e: Execution, l: nat)
    ensures Names(Filter(log + [e], By(l))) == Names(Filter(log, By(l))) + if e.runner == l then [e.name] else []
  {
    FilterAppend(log, e, By(l));
    var own := Filter(log, By(l));
    assert Names(own + [e]) == Names(own) + [e.name];
    assert own + [] == own && Names(own) + [] == Names(own);
  }

  lemma RunnersAfterExecution(m: seq<Migration>, s: State, k: nat, l: nat)
    requires Shipped(m) && k < |s.runners| && l < |s.runners| && RunnerOk(m, s, l) && RunnerOk(m, s, k)
    requires s.runners[k].Running? && s.runners[k].next < |m| && m[s.runners[k].next].name !in s.recorded
    ensures RunnerOk(m, Migrated(m, s, k, true), l)
  {
    var next := s.runners[k].next;
    OwnNames(s.log, Execution(m[next].name, k), l);
    RecordsStay(m, s.recorded, next);
    FilterAppend(s.log, Execution(m[next].name, k), By(l));
  }

  lemma RunnersAfterCheck(m: seq<Migration>, s: State, k: nat, l: nat, succeeds: bool)
    requires Shipped(m) && k < |s.runners| && l < |s.runners| && RunnerOk(m, s, l) && RunnerOk(m, s, k)
    requires s.runners[k].Running? && s.runners[k].next < |m|
    requires m[s.runners[k].next].name in s.recorded || !succeeds
    ensures RunnerOk(m, Migrated(m, s, k, succeeds), l)
  {
    var next := s.runners[k].next;
    if m[next].name in s.recorded && s.recorded[m[next].name] == [] {
      RecordsStay(m, s.recorded, next);
    }
  }

  lemma MigrateKeeps(m: seq<Migration>, initial: Recorded, s: State, k: nat, succeeds: bool)
    requires Shipped(m) && Inv(m, initial, s) && Enabled(m, s, Migrate(k, succeeds))
    ensures Inv(m, initial, Migrated(m, s, k, succeeds))
  {
    var t := Migrated(m, s, k, succeeds);
    var next := s.runners[k].next;
    var known := m[next].name in s.recorded;
    assert RunnerOk(m, s, k);
    if !known && succeeds {
      LogGrows(m, initial, s, k);
    } else if known && s.recorded[m[next].name] == [] {
      RecordsStay(m, s.recorded, next);
    }
    forall l | 0 <= l < |t.runners| ensures RunnerOk(m, t, l) {
      assert RunnerOk(m, s, l);
      if !known && succeeds {
        RunnersAfterExecution(m, s, k, l);
      } else {
        RunnersAfterCheck(m, s, k, l, succeeds);
      }
    }
  }

  lemma StepKeeps(m: seq<Migration>, initial: Recorded, s: State, step: Step)
    requires Shipped(m) && Inv(m, initial, s) && Enabled(m, s, step)
    ensures Inv(m, initial, Apply(m, s, step))
  {
    if step.Migrate? {
      MigrateKeeps(m, initial, s, step.runner, step.succeeds);
    } else {
      var t := Apply(m, s, step);
      assert RunnerOk(m, s, step.runner);
      forall l | 0 <= l < |t.runners| ensures RunnerOk(m, t, l) {
        assert RunnerOk(m, s, l);
      }
    }
  }

  lemma {:induction false} RunKeeps(m: seq<Migration>, initial: Recorded, s: State, steps: seq<Step>)
    requires Shipped(m) && Inv(m, initial, s) && Possible(m, s, steps)
    ensures Inv(m, initial, After(m, s, steps))
    decreases |steps|
  {
    if steps != [] {
      StepKeeps(m, initial, s, steps[0]);
      RunKeeps(m, initial, Apply(m, s, steps[0]), steps[1..]);
    }
  }

  // ---- theorems ----

  function AppliedBy(r: Runner): seq<Text> {
    match r
    case Waiting => []
    case Running(_, applied) => applied
    case Done(applied) => applied
    case Failed(applied) => applied
  }

  function IsNamed(name: Text): Execution -> bool { (e: Execution) => e.name == name }

  lemma {:induction false} OneOfTheName(log: seq<Execution>, name: Text)
    requires NoneTwice(log)
    ensures |Filter(log, IsNamed(name))| == if name in NamesIn(log) then 1 else 0
  {
    if log != [] {
      assert log == [log[0]] + log[1..];
      assert forall k :: 0 <= k < |log[1..]| ==> log[1..][k] == log[k + 1];
      OneOfTheName(log[1..], name);
      assert NamesIn(log) == {log[0].name} + NamesIn(log[1..]);
    }
  }

  /** However the runners interleave and wherever they stop, a migration is recorded anew exactly if its SQL
      has been executed, and then it has been executed once. */
  lemma ExecutedExactlyOnce(m: seq<Migration>, initial: Recorded, runners: nat, steps: seq<Step>, name: Text)
    requires Shipped(m) && Possible(m, Start(initial, runners), steps)
    ensures var s := After(m, Start(initial, runners), steps);
            |Filter(s.log, IsNamed(name))| == if name in s.recorded && name !in initial then 1 else 0
  {
    var s := After(m, Start(initial, runners), steps);
    StartHolds(m, initial, runners);
    RunKeeps(m, initial, Start(initial, runners), steps);
    OneOfTheName(s.log, name);
    assert name in s.recorded <==> name in s.recorded.Keys;
    if name in NamesIn(s.log) {
      var e :| e in s.log && e.name == name;
    }
  }

  lemma InNames(log: seq<Execution>, k: nat, name: Text)
    ensures name in Names(Filter(log, By(k))) <==> Execution(name, k) in log
  {
    InFilter(log, By(k));
    var own := Filter(log, By(k));
    if name in Names(own) {
      var i :| 0 <= i < |own| && Names(own)[i] == name;
      assert own[i] in own;
    }
    if Execution(name, k) in own {
      var i :| 0 <= i < |own| && own[i] == Execution(name, k);
      assert Names(own)[i] == name;
    }
  }

  /** The lists of what the runners applied divide up the names recorded anew. */
  lemma AppliedListsPartition(m: seq<Migration>, initial: Recorded, runners: nat, steps: seq<Step>, name: Text)
    requires Shipped(m) && Possible(m, Start(initial, runners), steps)
    ensures var s := After(m, Start(initial, runners), steps);
            && (name in s.recorded && name !in initial <==>
                  exists k :: 0 <= k < |s.runners| && name in AppliedBy(s.runners[k]))
            && (forall k, l :: 0 <= k < l < |s.runners| ==>
                  !(name in AppliedBy(s.runners[k]) && name in AppliedBy(s.runners[l])))
  {
    var s := After(m, Start(initial, runners), steps);
    StartHolds(m, initial, runners);
    RunKeeps(m, initial, Start(initial, runners), steps);
    forall k | 0 <= k < |s.runners| ensures name in AppliedBy(s.runners[k]) <==> Execution(name, k) in s.log {
      assert RunnerOk(m, s, k);
      InNames(s.log, k, name);
    }
    if name in s.recorded && name !in initial {
      assert name in s.recorded.Keys;
      var e :| e in s.log && e.name == name;
      assert e == Execution(name, e.runner);
      assert name in AppliedBy(s.runners[e.runner]);
    }
    if k :| 0 <= k < |s.runners| && name in AppliedBy(s.runners[k]) {
      assert name in s.recorded.Keys;
    }
  }

  /** The SQL is executed in the order of the names, whatever was recorded at first. */
  lemma ExecutionIsSorted(m: seq<Migration>, initial: Recorded, runners: nat, steps: seq<Step>, k: nat, l: nat)
    requires Shipped(m) && Possible(m, Start(initial, runners), steps)
    requires k < l < |After(m, Start(initial, runners), steps).log|
    ensures var log := After(m, Start(initial, runners), steps).log;
            ComesFirst(log[k].name, log[l].name)
  {
    var s := After(m, Start(initial, runners), steps);
    StartHolds(m, initial, runners);
    RunKeeps(m, initial, Start(initial, runners), steps);
    assert s.log[k] in s.log && s.log[l] in s.log;
    var i :| 0 <= i < |m| && m[i].name == s.log[k].name;
    var j :| 0 <= j < |m| && m[j].name == s.log[l].name;
    NotEarlier(s.log, k, l);
    assert !InPlace(m[j].name, initial, s.log[..k]);
  }

  lemma NotEarlier(log: seq<Execution>, k: nat, l: nat)
    requires NoneTwice(log) && k <= l < |log|
    ensures log[l].name !in NamesIn(log[..k])
  {
  }

  /** The names recorded are those of the first migrations. */
  predicate IsPrefix(m: seq<Migration>, recorded: Recorded) {
    && (forall name :: name in recorded ==> Ships(m, name))
    && (forall i, j :: 0 <= j < i < |m| && m[i].name in recorded ==> m[j].name in recorded)
  }

  /** From a prefix of the migrations, the record stays a prefix at every moment. */
  lemma PrefixStays(m: seq<Migration>, initial: Recorded, runners: nat, steps: seq<Step>)
    requires Shipped(m) && IsPrefix(m, initial) && Possible(m, Start(initial, runners), steps)
    ensures IsPrefix(m, After(m, Start(initial, runners), steps).recorded)
  {
    var s := After(m, Start(initial, runners), steps);
    StartHolds(m, initial, runners);
    RunKeeps(m, initial, Start(initial, runners), steps);
    forall i, j | 0 <= j < i < |m| && m[i].name in s.recorded ensures m[j].name in s.recorded {
      assert m[i].name in s.recorded.Keys;
      if m[i].name !in initial {
        var e :| e in s.log && e.name == m[i].name;
        var k :| 0 <= k < |s.log| && s.log[k] == e;
        assert InPlace(m[j].name, initial, s.log[..k]);
        assert forall f :: f in s.log[..k] ==> f in s.log;
      }
      assert m[j].name in s.recorded.Keys;
    }
    forall name | name in s.recorded ensures Ships(m, name) {
      assert name in s.recorded.Keys;
    }
  }

  lemma {:induction false} DoneStays(m: seq<Migration>, s: State, steps: seq<Step>, k: nat)
    requires Possible(m, s, steps) && k < |s.runners| && s.runners[k].Done?
    ensures k < |After(m, s, steps).runners| && After(m, s, steps).runners[k].Done?
    decreases |steps|
  {
    if steps != [] {
      DoneStays(m, Apply(m, s, steps[0]), steps[1..], k);
    }
  }

  /** Once one runner has returned, `assertMigrationReadiness` accepts in every later state, and every
      checksum is recorded. */
  lemma ReadyForEver(m: seq<Migration>, initial: Recorded, runners: nat, before: seq<Step>, later: seq<Step>, k: nat)
    requires Shipped(m) && Possible(m, Start(initial, runners), before)
    requires var s := After(m, Start(initial, runners), before);
             k < |s.runners| && s.runners[k].Done? && Possible(m, s, later)
    ensures var t := After(m, After(m, Start(initial, runners), before), later);
            Ready(m, t.recorded) && forall i :: 0 <= i < |m| ==> InForce(t.recorded, m[i])
  {
    var s := After(m, Start(initial, runners), before);
    StartHolds(m, initial, runners);
    RunKeeps(m, initial, Start(initial, runners), before);
    RunKeeps(m, initial, s, later);
    DoneStays(m, s, later, k);
    var t := After(m, s, later);
    assert RunnerOk(m, t, k);
    assert forall i :: 0 <= i < |m| ==> InForce(t.recorded, m[i]);
  }

  /** A database that holds an unknown or a modified migration is left as it is, and no runner returns. */
  lemma IncompatibleIsLeftAlone(m: seq<Migration>, initial: Recorded, runners: nat, steps: seq<Step>)
    requires Shipped(m) && !Compatible(m, initial) && Possible(m, Start(initial, runners), steps)
    ensures var s := After(m, Start(initial, runners), steps);
            s.recorded == initial && s.log == [] && forall k :: 0 <= k < |s.runners| ==> !s.runners[k].Done?
  {
    StartHolds(m, initial, runners);
    RunKeeps(m, initial, Start(initial, runners), steps);
  }

  // ---- one runner, as the program is written ----

  lemma {:induction false} OneMoreStep(m: seq<Migration>, s: State, steps: seq<Step>, step: Step)
    requires Possible(m, s, steps) && Enabled(m, After(m, s, steps), step)
    ensures Possible(m, s, steps + [step]) && After(m, s, steps + [step]) == Apply(m, After(m, s, steps), step)
    decreases |steps|
  {
    if steps == [] {
      assert [] + [step] == [step];
      assert Possible(m, Apply(m, s, step), []);
      assert [step][1..] == [];
    } else {
      OneMoreStep(m, Apply(m, s, steps[0]), steps[1..], step);
      assert (steps + [step])[1..] == steps[1..] + [step];
    }
  }

  /** The names among the first `count` that are not recorded, in order. */
  function Missing(m: seq<Migration>, count: nat, recorded: Recorded): seq<Text>
    requires count <= |m|
  {
    if count == 0 then []
    else Missing(m, count - 1, recorded) + if m[count - 1].name in recorded then [] else [m[count - 1].name]
  }

  class Database {
    var recorded: Recorded
    ghost var log: seq<Execution>

    /** The state in which this database and one runner are. */
    ghost function Seen(r: Runner): State
      reads this
    {
      State(recorded, log, [r])
    }

    /** One transaction: executes and records a migration that is not recorded. */
    method Transaction(m: seq<Migration>, i: nat, applied: seq<Text>, succeeds: Text -> bool)
      returns (ok: bool, applied': seq<Text>)
      requires i < |m| && Shipped(m)
      modifies this
      ensures Unmodified(m, old(recorded)) ==> Unmodified(m, recorded) && (succeeds(m[i].name) ==> ok)
      ensures Apply(m, old(Seen(Running(i, applied))), Migrate(0, succeeds(m[i].name)))
              == Seen(if ok then Running(i + 1, applied') else Failed(applied'))
      ensures applied' == applied + if ok && m[i].name !in old(recorded) then [m[i].name] else []
    {
      var migration := m[i];
      applied' := applied;
      if migration.name in recorded {
        var sha := recorded[migration.name];
        if sha != [] && sha != migration.sha256 { return false, applied; }
        if sha == [] {
          RecordsStay(m, recorded, i);
          recorded := recorded[migration.name := migration.sha256];
        }
        return true, applied;
      }
      if !succeeds(migration.name) { return false, applied; }
      RecordsStay(m, recorded, i);
      recorded := recorded[migration.name := migration.sha256];
      log := log + [Execution(migration.name, 0)];
      return true, applied + [migration.name];
    }

    /** The loop over the migrations, up to the first that fails. */
    method MigrateAll(m: seq<Migration>, succeeds: Text -> bool) returns (ok: bool, applied: seq<Text>)
      requires Shipped(m) && Unmodified(m, recorded)
      modifies this
      ensures Seen(if ok then Running(|m|, applied) else Failed(applied))
          == Alone(m, old(Seen(Running(0, []))), succeeds)
      ensures ok ==> applied == Missing(m, |m|, old(recorded))
      ensures !ok ==> exists j :: 0 <= j < |m| && !succeeds(m[j].name)
    {
      ghost var initial, start := recorded, Seen(Running(0, []));
      applied, ok := [], true;
      var i := 0;
      while i < |m|
        invariant i <= |m| && Alone(m, Seen(Running(i, applied)), succeeds) == Alone(m, start, succeeds)
        invariant applied == Missing(m, i, initial) && Untouched(m, initial, recorded, i) && Unmodified(m, recorded)
      {
        ok, applied := Transaction(m, i, applied, succeeds);
        if !ok { return; }
        i := i + 1;
      }
    }

    /** `runMigrations`; `succeeds` tells which SQL goes through. What it does is a run of one runner. */
    method RunMigrations(m: seq<Migration>, succeeds: Text -> bool) returns (result: Result<seq<Text>>)
      requires log == [] && Shipped(m)
      modifies this
      ensures if result.Ok? then Leads(m, Start(old(recorded), 1), Seen(Done(result.value)))
              else exists applied :: Leads(m, Start(old(recorded), 1), Seen(Failed(applied)))
      ensures result.Ok? ==> result.value == Missing(m, |m|, old(recorded))
      ensures Compatible(m, old(recorded)) && (forall j :: 0 <= j < |m| ==> succeeds(m[j].name)) ==> result.Ok?
    {
      ghost var start := Start(recorded, 1);
      assert start == Seen(Waiting);
      LeadsNowhere(m, start);
      LeadsOn(m, start, start, Begin(0));
      if !Compatible(m, recorded) {
        assert Apply(m, start, Begin(0)) == Seen(Failed([]));
        return Err("Database contains unavailable or modified migrations.");
      }
      assert Apply(m, start, Begin(0)) == Seen(Running(0, []));
      AloneIsARun(m, start, Seen(Running(0, [])), succeeds);
      var ok, applied := MigrateAll(m, succeeds);
      if !ok { return Err("A migration failed."); }
      LeadsOn(m, start, Seen(Running(|m|, applied)), Return(0));
      assert Apply(m, Seen(Running(|m|, applied)), Return(0)) == Seen(Done(applied));
      result := Ok(applied);
    }
  }

  /** The migrations from `i` on are recorded as they were at first. */
  ghost predicate Untouched(m: seq<Migration>, initial: Recorded, recorded: Recorded, i: nat) {
    forall j :: i <= j < |m| ==> (m[j].name in recorded <==> m[j].name in initial)
  }

  /** Some run leads from one state to the other. */
  ghost predicate Leads(m: seq<Migration>, s: State, t: State) {
    exists steps :: Possible(m, s, steps) && After(m, s, steps) == t
  }

  lemma LeadsNowhere(m: seq<Migration>, s: State)
    ensures Leads(m, s, s)
  {
    assert Possible(m, s, []) && After(m, s, []) == s;
  }

  lemma LeadsOn(m: seq<Migration>, s: State, t: State, step: Step)
    requires Leads(m, s, t) && Enabled(m, t, step)
    ensures Leads(m, s, Apply(m, t, step))
  {
    var steps :| Possible(m, s, steps) && After(m, s, steps) == t;
    OneMoreStep(m, s, steps, step);
  }

  /** What becomes of a single runner in the loop. */
  function Alone(m: seq<Migration>, s: State, succeeds: Text -> bool): (t: State)
    requires |s.runners| == 1
    ensures |t.runners| == 1
    decreases if s.runners[0].Running? then |m| - s.runners[0].next else -1
  {
    var r := s.runners[0];
    if r.Running? && r.next < |m| then Alone(m, Migrated(m, s, 0, succeeds(m[r.next].name)), succeeds) else s
  }

  lemma {:induction false} AloneIsARun(m: seq<Migration>, start: State, s: State, succeeds: Text -> bool)
    requires |s.runners| == 1 && Leads(m, start, s)
    ensures Leads(m, start, Alone(m, s, succeeds))
    decreases if s.runners[0].Running? then |m| - s.runners[0].next else -1
  {
    var r := s.runners[0];
    if r.Running? && r.next < |m| {
      LeadsOn(m, start, s, Migrate(0, succeeds(m[r.next].name)));
      AloneIsARun(m, start, Migrated(m, s, 0, succeeds(m[r.next].name)), succeeds);
    }
  }

  // ---- what is accepted, name by name ----

  /** A record is accepted exactly if each name in it is that of a shipped migration, under its checksum or
      under none. */
  lemma CompatibleIff(m: seq<Migration>, recorded: Recorded)
    requires Shipped(m)
    ensures Compatible(m, recorded) <==>
            forall name :: name in recorded ==>
              exists i :: 0 <= i < |m| && m[i].name == name && (recorded[name] == [] || recorded[name] == m[i].sha256)
  {
    forall i, j | 0 <= i < j < |m| ensures m[i].name != m[j].name {
      ComesFirstIff(m[i].name, m[j].name);
    }
    if forall name :: name in recorded ==>
         exists i :: 0 <= i < |m| && m[i].name == name && (recorded[name] == [] || recorded[name] == m[i].sha256) {
      forall i | 0 <= i < |m| && m[i].name in recorded
        ensures recorded[m[i].name] == [] || recorded[m[i].name] == m[i].sha256 {
        var j :| 0 <= j < |m| && m[j].name == m[i].name
                 && (recorded[m[i].name] == [] || recorded[m[i].name] == m[j].sha256);
      }
    }
  }

  /** The database is ready exactly if in addition no shipped migration is missing. */
  lemma ReadyIff(m: seq<Migration>, recorded: Recorded)
    ensures Ready(m, recorded) <==> Compatible(m, recorded) && recorded.Keys == set i | 0 <= i < |m| :: m[i].name
  {
  }

  /** A migration fails only if its own SQL does, as long as no checksum differs: what is recorded is passed over. */
  lemma FailsOnlyIfItsSqlDoes(m: seq<Migration>, s: State, k: nat, succeeds: bool)
    requires Enabled(m, s, Migrate(k, succeeds)) && Unmodified(m, s.recorded)
    ensures var name, t := m[s.runners[k].next].name, Apply(m, s, Migrate(k, succeeds));
            && (t.runners[k].Failed? <==> name !in s.recorded && !succeeds)
            && (t.runners[k].Failed? ==> t.recorded == s.recorded && t.log == s.log)
            && (!t.runners[k].Failed? ==> t.runners[k].Running? && t.runners[k].next == s.runners[k].next + 1)
  {
  }
}
