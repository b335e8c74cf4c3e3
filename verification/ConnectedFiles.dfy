/** Which source files a service is connected to: the files that use it, and those that import such a file,
    directly or through others. What a source imports is an arbitrary function of it. */
module ConnectedFiles {
  import opened Wrappers
  import opened Sorting
  import opened Lists
  import opened DependencyGraph
  import opened DependencyGraphBuilder

  /** A map of sources, in order of insertion. */
  datatype Source = Source(path: string, content: string)

  /** `localImportTargets`: the normalized targets of the local imports of a file. */
  type Imports = (string, string) -> seq<string>

  function PathOf(): Source -> string { (s: Source) => s.path }

  function Paths(sources: seq<Source>): set<string> {
    set s | s in sources :: s.path
  }

  const EXTENSIONS := [".ts", ".tsx", ".js", ".jsx", ".mjs", ".cjs"]
  const INDEX_EXTENSIONS := [".ts", ".tsx", ".js", ".jsx"]

  function Candidates(target: string): seq<string> {
    [target]
    + seq(|EXTENSIONS|, i requires 0 <= i < |EXTENSIONS| => target + EXTENSIONS[i])
    + seq(|INDEX_EXTENSIONS|, i requires 0 <= i < |INDEX_EXTENSIONS| => target + "/index" + INDEX_EXTENSIONS[i])
  }

  /** `find`: the first candidate that is a source. */
  function FirstIn(candidates: seq<string>, paths: set<string>): (r: Option<string>)
    ensures r.None? ==> forall c :: c in candidates ==> c !in paths
    ensures r.Some? ==> exists i :: 0 <= i < |candidates| && candidates[i] == r.value && r.value in paths
                                    && forall j :: 0 <= j < i ==> candidates[j] !in paths
  {
    if candidates == [] then None
    else if candidates[0] in paths then Some(candidates[0])
    else FirstIn(candidates[1..], paths)
  }

  function ResolveLocalTarget(target: string, paths: set<string>): Option<string> {
    FirstIn(Candidates(target), paths)
  }

  /** The target is resolved to a file of the set; an empty path is taken for no path. */
  predicate LeadsInto(target: string, paths: set<string>, connected: set<string>) {
    var resolved := ResolveLocalTarget(target, paths);
    resolved.Some? && resolved.value != "" && resolved.value in connected
  }

  predicate ImportsConnected(s: Source, imports: Imports, paths: set<string>, connected: set<string>) {
    exists target :: target in imports(s.path, s.content) && LeadsInto(target, paths, connected)
  }

  /** A source imports a file. */
  ghost predicate ImportsFile(sources: seq<Source>, imports: Imports, path: string, file: string) {
    exists s, target :: s in sources && s.path == path && target in imports(s.path, s.content)
                        && LeadsInto(target, Paths(sources), {file})
  }

  /** A chain of `n` imports leads to a direct file. */
  ghost predicate Chain(sources: seq<Source>, imports: Imports, direct: set<string>, path: string, n: nat)
    decreases n
  {
    if n == 0 then path in direct
    else exists file :: ImportsFile(sources, imports, path, file) && Chain(sources, imports, direct, file, n - 1)
  }

  ghost predicate Connected(sources: seq<Source>, imports: Imports, direct: set<string>, path: string) {
    exists n: nat :: Chain(sources, imports, direct, path, n)
  }

  ghost predicate Closed(sources: seq<Source>, imports: Imports, files: set<string>) {
    forall s :: s in sources && ImportsConnected(s, imports, Paths(sources), files) ==> s.path in files
  }

  lemma ImportsOneOf(sources: seq<Source>, imports: Imports, s: Source, files: set<string>)
    requires s in sources && ImportsConnected(s, imports, Paths(sources), files)
    ensures exists file :: file in files && ImportsFile(sources, imports, s.path, file)
  {
    var target :| target in imports(s.path, s.content) && LeadsInto(target, Paths(sources), files);
    var file := ResolveLocalTarget(target, Paths(sources)).value;
    assert LeadsInto(target, Paths(sources), {file});
  }

  lemma ImporterIsIn(sources: seq<Source>, imports: Imports, files: set<string>, path: string, file: string)
    requires Closed(sources, imports, files) && file in files && ImportsFile(sources, imports, path, file)
    ensures path in files
  {
    var s, target :| s in sources && s.path == path && target in imports(s.path, s.content)
                     && LeadsInto(target, Paths(sources), {file});
    assert LeadsInto(target, Paths(sources), files);
  }

  lemma {:induction false} ChainStaysIn(
    sources: seq<Source>, imports: Imports, direct: set<string>, files: set<string>, path: string, n: nat)
    requires UniqueBy(sources, PathOf()) && direct <= files && Closed(sources, imports, files)
    requires Chain(sources, imports, direct, path, n)
    ensures path in files
    decreases n
  {
    if n > 0 {
      var file :| ImportsFile(sources, imports, path, file) && Chain(sources, imports, direct, file, n - 1);
      ChainStaysIn(sources, imports, direct, files, file, n - 1);
      ImporterIsIn(sources, imports, files, path, file);
    }
  }

  ghost predicate AllConnected(sources: seq<Source>, imports: Imports, direct: set<string>, files: set<string>) {
    forall path :: path in files ==> Connected(sources, imports, direct, path)
  }

  lemma OneMoreConnected(sources: seq<Source>, imports: Imports, direct: set<string>, files: set<string>, s: Source)
    requires AllConnected(sources, imports, direct, files)
    requires s in sources && ImportsConnected(s, imports, Paths(sources), files)
    ensures AllConnected(sources, imports, direct, files + {s.path})
  {
    ImportsOneOf(sources, imports, s, files);
    var file :| file in files && ImportsFile(sources, imports, s.path, file);
    assert Connected(sources, imports, direct, file);
    var n: nat :| Chain(sources, imports, direct, file, n);
    assert Chain(sources, imports, direct, s.path, n + 1);
  }

  lemma FewerLeft(paths: set<string>, connected: set<string>, path: string)
    requires path in paths && path !in connected
    ensures |paths - (connected + {path})| < |paths - connected|
  {
    assert paths - (connected + {path}) == (paths - connected) - {path};
  }

  /** The sources before `i` that import a file of the set are in it. */
  ghost predicate ClosedUpTo(sources: seq<Source>, imports: Imports, files: set<string>, i: nat)
    requires i <= |sources|
  {
    forall j :: 0 <= j < i && ImportsConnected(sources[j], imports, Paths(sources), files) ==> sources[j].path in files
  }

  /** What is connected is in every set that holds the direct files and whatever imports a file of it. */
  lemma ConnectedIsLeast(sources: seq<Source>, imports: Imports, direct: set<string>, files: set<string>)
    requires UniqueBy(sources, PathOf()) && direct <= files && Closed(sources, imports, files)
    ensures forall path :: Connected(sources, imports, direct, path) ==> path in files
  {
    forall path | Connected(sources, imports, direct, path) ensures path in files {
      var n: nat :| Chain(sources, imports, direct, path, n);
      ChainStaysIn(sources, imports, direct, files, path, n);
    }
  }

  lemma DirectIsConnected(sources: seq<Source>, imports: Imports, direct: set<string>)
    ensures AllConnected(sources, imports, direct, direct)
  {
    assert forall path :: path in direct ==> Chain(sources, imports, direct, path, 0);
  }

  lemma ClosedUpToNext(sources: seq<Source>, imports: Imports, files: set<string>, i: nat)
    requires i < |sources| && ClosedUpTo(sources, imports, files, i)
    requires sources[i].path in files || !ImportsConnected(sources[i], imports, Paths(sources), files)
    ensures ClosedUpTo(sources, imports, files, i + 1)
  {
  }

  /** The set changes while a pass goes over the sources; passes are made until one changes nothing. */
  method ConnectedFilesOf(sources: seq<Source>, imports: Imports, direct: set<string>) returns (connected: set<string>)
    requires UniqueBy(sources, PathOf())
    ensures forall path :: path in connected <==> Connected(sources, imports, direct, path)
    ensures direct <= connected && Closed(sources, imports, connected)
  {
    var paths := Paths(sources);
    connected := direct;
    DirectIsConnected(sources, imports, direct);
    var changed := true;
    while changed
      invariant direct <= connected && AllConnected(sources, imports, direct, connected)
      invariant changed || Closed(sources, imports, connected)
      decreases |paths - connected|, changed
    {
      changed := false;
      ghost var start := connected;
      for i := 0 to |sources|
        invariant direct <= connected && start <= connected && AllConnected(sources, imports, direct, connected)
        invariant if changed then |paths - connected| < |paths - start| else connected == start
        invariant changed || ClosedUpTo(sources, imports, connected, i)
      {
        var s := sources[i];
        if s.path !in connected && ImportsConnected(s, imports, paths, connected) {
          OneMoreConnected(sources, imports, direct, connected, s);
          FewerLeft(paths, connected, s.path);
          connected := connected + {s.path};
          changed := true;
        } else if !changed {
          ClosedUpToNext(sources, imports, connected, i);
        }
      }
    }
    ConnectedIsLeast(sources, imports, direct, connected);
  }

  /** The order in which the sources are visited does not matter. */
  lemma OrderDoesNotMatter(a: seq<Source>, b: seq<Source>, imports: Imports, direct: set<string>, path: string)
    requires multiset(a) == multiset(b)
    ensures Connected(a, imports, direct, path) <==> Connected(b, imports, direct, path)
  {
    SameMembers(a, b);
    forall n: nat ensures Chain(a, imports, direct, path, n) <==> Chain(b, imports, direct, path, n) {
      SameChains(a, b, imports, direct, path, n);
      SameChains(b, a, imports, direct, path, n);
    }
  }

  lemma {:induction false} SameChains(
    a: seq<Source>, b: seq<Source>, imports: Imports, direct: set<string>, path: string, n: nat)
    requires forall s :: s in a <==> s in b
    ensures Chain(a, imports, direct, path, n) ==> Chain(b, imports, direct, path, n)
    decreases n
  {
    if n > 0 && Chain(a, imports, direct, path, n) {
      var file :| ImportsFile(a, imports, path, file) && Chain(a, imports, direct, file, n - 1);
      SameChains(a, b, imports, direct, file, n - 1);
      assert Paths(a) == Paths(b);
      assert ImportsFile(b, imports, path, file);
    }
  }

  // ---- capabilities found in several files ----

  function CapabilityKey(): CapabilityUse -> string { (c: CapabilityUse) => c.capabilityId }

  function HasId(id: string): CapabilityUse -> bool { (c: CapabilityUse) => c.capabilityId == id }

  function AllEvidence(uses: seq<CapabilityUse>): seq<Evidence> {
    if uses == [] then [] else AllEvidence(uses[..|uses| - 1]) + uses[|uses| - 1].evidence
  }

  /** The uses of one capability, put together: the first of them, with the evidence of all. */
  function Grouped(uses: seq<CapabilityUse>, id: string): Option<CapabilityUse> {
    var same := Filter(uses, HasId(id));
    if same == [] then None else Some(same[0].(evidence := AllEvidence(same)))
  }

  /** The groups are those of the uses, each once. */
  ghost predicate Groups(uses: seq<CapabilityUse>, groups: seq<CapabilityUse>) {
    && UniqueBy(groups, CapabilityKey())
    && (forall g :: g in groups ==> Grouped(uses, g.capabilityId) == Some(g))
    && (forall u :: u in uses ==> exists g :: g in groups && g.capabilityId == u.capabilityId)
  }

  lemma GroupedNext(uses: seq<CapabilityUse>, u: CapabilityUse, id: string)
    ensures Grouped(uses + [u], id) ==
            if u.capabilityId != id then Grouped(uses, id)
            else match Grouped(uses, id)
                 case None => Some(u)
                 case Some(g) => Some(g.(evidence := g.evidence + u.evidence))
  {
    FilterAppend(uses, u, HasId(id));
    var same := Filter(uses, HasId(id));
    assert same + [] == same;
    assert (same + [u])[..|same|] == same;
    assert AllEvidence(same + [u]) == AllEvidence(same) + u.evidence;
    if same == [] {
      assert AllEvidence(same) + u.evidence == u.evidence;
    } else {
      assert (same + [u])[0] == same[0];
    }
  }

  lemma GroupsNext(uses: seq<CapabilityUse>, groups: seq<CapabilityUse>, u: CapabilityUse)
    requires Groups(uses, groups)
    ensures match IndexOf(groups, CapabilityKey(), u.capabilityId)
            case None => Groups(uses + [u], groups + [u])
            case Some(i) => Groups(uses + [u], groups[i := groups[i].(evidence := groups[i].evidence + u.evidence)])
  {
    var found := IndexOf(groups, CapabilityKey(), u.capabilityId);
    if found.Some? {
      ExistingGroup(uses, groups, u, found.value);
    } else {
      NewGroup(uses, groups, u);
    }
  }

  lemma ExistingGroup(uses: seq<CapabilityUse>, groups: seq<CapabilityUse>, u: CapabilityUse, i: nat)
    requires Groups(uses, groups) && i < |groups| && groups[i].capabilityId == u.capabilityId
    ensures Groups(uses + [u], groups[i := groups[i].(evidence := groups[i].evidence + u.evidence)])
  {
    var groups' := groups[i := groups[i].(evidence := groups[i].evidence + u.evidence)];
    forall j | 0 <= j < |groups'| ensures Grouped(uses + [u], groups'[j].capabilityId) == Some(groups'[j]) {
      assert groups[j] in groups;
      GroupedNext(uses, u, groups[j].capabilityId);
      assert j != i ==> CapabilityKey()(groups[j]) != CapabilityKey()(groups[i]);
    }
    forall v | v in uses + [u] ensures exists g :: g in groups' && g.capabilityId == v.capabilityId {
      assert groups'[i] in groups';
      if v in uses {
        var g :| g in groups && g.capabilityId == v.capabilityId;
        var j :| 0 <= j < |groups| && groups[j] == g;
        assert groups'[j] in groups';
      }
    }
    assert forall j :: 0 <= j < |groups'| ==> CapabilityKey()(groups'[j]) == CapabilityKey()(groups[j]);
  }

  lemma NewGroup(uses: seq<CapabilityUse>, groups: seq<CapabilityUse>, u: CapabilityUse)
    requires Groups(uses, groups) && IndexOf(groups, CapabilityKey(), u.capabilityId).None?
    ensures Groups(uses + [u], groups + [u])
  {
    forall g | g in groups ensures CapabilityKey()(g) != CapabilityKey()(u) {
      var j :| 0 <= j < |groups| && groups[j] == g;
    }
    AppendUnique(groups, u, CapabilityKey());
    assert u in groups + [u];
    forall v | v in uses ensures v.capabilityId != u.capabilityId && exists g ::
        g in groups + [u] && g.capabilityId == v.capabilityId {
      var g :| g in groups && g.capabilityId == v.capabilityId;
      assert g in groups + [u];
    }
    forall g | g in groups + [u] ensures Grouped(uses + [u], g.capabilityId) == Some(g) {
      GroupedNext(uses, u, g.capabilityId);
      InFilter(uses, HasId(u.capabilityId));
      Inhabited(Filter(uses, HasId(u.capabilityId)));
    }
  }

  function ByCapabilityId(le: (string, string) -> bool): (CapabilityUse, CapabilityUse) -> bool {
    (c: CapabilityUse, d: CapabilityUse) => le(c.capabilityId, d.capabilityId)
  }

  method GroupUses(uses: seq<CapabilityUse>) returns (groups: seq<CapabilityUse>)
    ensures Groups(uses, groups)
  {
    groups := [];
    for i := 0 to |uses|
      invariant Groups(uses[..i], groups)
    {
      var u := uses[i];
      assert uses[..i + 1] == uses[..i] + [u];
      GroupsNext(uses[..i], groups, u);
      var existing := IndexOf(groups, CapabilityKey(), u.capabilityId);
      if existing.Some? {
        var group := groups[existing.value];
        groups := groups[existing.value := group.(evidence := group.evidence + u.evidence)];
      } else {
        groups := groups + [u];
      }
    }
    assert uses[..|uses|] == uses;
  }

  /** One entry for each capability, with the evidence of all its uses in the order they were found. */
  method MergeCapabilities(uses: seq<CapabilityUse>, le: (string, string) -> bool) returns (merged: seq<CapabilityUse>)
    ensures exists groups :: Groups(uses, groups) && merged == Sort(groups, ByCapabilityId(le))
  {
    var groups := GroupUses(uses);
    merged := Sort(groups, ByCapabilityId(le));
  }

  /** A target is resolved to the first of these that is a source: itself, itself with an extension, its index file. */
  lemma TargetsResolveInOrder(target: string, paths: set<string>)
    ensures ResolveLocalTarget(target, paths) ==
            FirstIn([target, target + ".ts", target + ".tsx", target + ".js", target + ".jsx", target + ".mjs",
                     target + ".cjs", target + "/index.ts", target + "/index.tsx", target + "/index.js",
                     target + "/index.jsx"], paths)
  {
    IndexNames(target);
    assert Candidates(target) ==
      [target, target + ".ts", target + ".tsx", target + ".js", target + ".jsx", target + ".mjs", target + ".cjs",
       target + "/index.ts", target + "/index.tsx", target + "/index.js", target + "/index.jsx"];
  }

  lemma IndexNames(target: string)
    ensures target + "/index" + ".ts" == target + "/index.ts" && target + "/index" + ".tsx" == target + "/index.tsx"
    ensures target + "/index" + ".js" == target + "/index.js" && target + "/index" + ".jsx" == target + "/index.jsx"
  {
  }

  /** A target leads to the file if the file is the first of the candidates that is a source. */
  predicate LeadsTo(target: string, paths: set<string>, file: string) {
    var candidates := [target, target + ".ts", target + ".tsx", target + ".js", target + ".jsx", target + ".mjs",
                       target + ".cjs", target + "/index.ts", target + "/index.tsx", target + "/index.js",
                       target + "/index.jsx"];
    exists i :: 0 <= i < |candidates| && candidates[i] == file && file in paths
                && forall j :: 0 <= j < i ==> candidates[j] !in paths
  }

  lemma {:induction false} FirstIsUnique(candidates: seq<string>, paths: set<string>, i: nat)
    requires i < |candidates| && candidates[i] in paths && forall j :: 0 <= j < i ==> candidates[j] !in paths
    ensures FirstIn(candidates, paths) == Some(candidates[i])
  {
    if i > 0 {
      assert candidates[0] !in paths;
      assert forall j :: 0 <= j < i - 1 ==> candidates[1..][j] == candidates[j + 1];
      FirstIsUnique(candidates[1..], paths, i - 1);
    }
  }

  lemma LeadsToIff(target: string, paths: set<string>, file: string)
    ensures ResolveLocalTarget(target, paths) == Some(file) <==> LeadsTo(target, paths, file)
  {
    TargetsResolveInOrder(target, paths);
    var candidates := [target, target + ".ts", target + ".tsx", target + ".js", target + ".jsx", target + ".mjs",
                       target + ".cjs", target + "/index.ts", target + "/index.tsx", target + "/index.js",
                       target + "/index.jsx"];
    if i :| 0 <= i < |candidates| && candidates[i] == file && file in paths && forall j ::
        0 <= j < i ==> candidates[j] !in paths {
      FirstIsUnique(candidates, paths, i);
    }
  }

  /** A source imports a file exactly if one of its import targets leads to it, and the file has a name. */
  lemma ImportsFileIff(sources: seq<Source>, imports: Imports, path: string, file: string)
    ensures ImportsFile(sources, imports, path, file) <==>
            file != "" && exists s, target :: s in sources && s.path == path && target in imports(s.path, s.content)
                                              && LeadsTo(target, Paths(sources), file)
  {
    forall target ensures LeadsInto(target, Paths(sources), {file}) <==>
        file != "" && LeadsTo(target, Paths(sources), file) {
      LeadsToIff(target, Paths(sources), file);
    }
  }
}
