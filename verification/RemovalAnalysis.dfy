/** What breaks when a service is removed: a breadth-first search against the edges. The graph is
    arbitrary here, it may have cycles, loops and edges between ids that name no node. */
module RemovalAnalysis {
  import opened Wrappers
  import opened Sorting
  import opened Lists
  import opened DependencyGraph

  datatype Level = LowImpact | MediumImpact | HighImpact

  datatype Impact = Impact(
    serviceId: string,
    level: Level,
    directNodeIds: seq<string>,
    indirectNodeIds: seq<string>,
    affectedNodeIds: seq<string>,
    affectedFiles: seq<string>,
    capabilities: seq<string>,
    configuration: seq<string>)

  /** A node the search met, and how far from the service. */
  datatype Hit = Hit(node: Node, depth: nat)

  function TargetOf(serviceId: string): string {
    if "service:" <= serviceId then serviceId else NodeId(Service, serviceId)
  }

  function LeadsTo(id: string): Edge -> bool {
    (e: Edge) => e.to == id
  }

  function Incoming(edges: seq<Edge>, id: string): seq<Edge> {
    Filter(edges, LeadsTo(id))
  }

  /** `incoming.get(id) ?? []` */
  function Get(incoming: map<string, seq<Edge>>, id: string): seq<Edge> {
    if id in incoming then incoming[id] else []
  }

  method IndexIncoming(edges: seq<Edge>) returns (incoming: map<string, seq<Edge>>)
    ensures forall id :: Get(incoming, id) == Incoming(edges, id)
  {
    incoming := map[];
    for i := 0 to |edges|
      invariant forall id :: Get(incoming, id) == Incoming(edges[..i], id)
    {
      var edge := edges[i];
      assert edges[..i + 1] == edges[..i] + [edge];
      var grown := incoming[edge.to := Get(incoming, edge.to) + [edge]];
      forall id ensures Get(grown, id) == Incoming(edges[..i + 1], id) {
        FilterAppend(edges[..i], edge, LeadsTo(id));
        assert Get(incoming, id) == Incoming(edges[..i], id);
      }
      incoming := grown;
    }
    assert edges[..|edges|] == edges;
  }

  /** What has been found is real, and listed once, nearest first. */
  ghost predicate Found(edges: seq<Edge>, target: string, queue: seq<string>, distance: map<string, nat>) {
    && queue != [] && queue[0] == target
    && Distinct(queue)
    && (forall x :: x in queue <==> x in distance)
    && distance[target] == 0
    && (forall x :: x in distance ==> Walk(edges, x, target, distance[x]))
    && (forall i, j :: 0 <= i < j < |queue| ==> distance[queue[i]] <= distance[queue[j]])
  }

  /** The edges into `id` have been followed. */
  ghost predicate Followed(edges: seq<Edge>, distance: map<string, nat>, id: string)
    requires id in distance
  {
    forall e :: e in edges && e.to == id ==> e.from in distance && distance[e.from] <= distance[id] + 1
  }

  ghost predicate AllFollowed(edges: seq<Edge>, queue: seq<string>, distance: map<string, nat>, count: nat) {
    forall j :: 0 <= j < count && j < |queue| ==> queue[j] in distance && Followed(edges, distance, queue[j])
  }

  ghost predicate Near(distance: map<string, nat>, bound: nat) {
    forall x :: x in distance ==> distance[x] <= bound
  }

  ghost function Ids(edges: seq<Edge>, target: string): set<string> {
    {target} + set e | e in edges :: e.from
  }

  /** Each id is queued once, so the queue stays within the ids of the graph. */
  lemma QueueFits(edges: seq<Edge>, target: string, queue: seq<string>, distance: map<string, nat>)
    requires Found(edges, target, queue, distance)
    ensures |queue| <= |Ids(edges, target)|
  {
    forall x | x in queue ensures x in Ids(edges, target) {
      assert Walk(edges, x, target, distance[x]);
    }
    DistinctFits(queue, Ids(edges, target));
  }

  lemma FoundGrows(edges: seq<Edge>, target: string, queue: seq<string>, distance: map<string, nat>, e: Edge, next: nat)
    requires Found(edges, target, queue, distance) && Near(distance, next)
    requires e in edges && e.from !in distance && e.to in distance && distance[e.to] + 1 == next
    ensures Found(edges, target, queue + [e.from], distance[e.from := next])
    ensures Near(distance[e.from := next], next)
  {
    var queue', distance' := queue + [e.from], distance[e.from := next];
    assert Walk(edges, e.from, target, next);
    forall x ensures x in queue' <==> x in distance' {
      assert x in queue' <==> x in queue || x == e.from;
    }
    forall i, j | 0 <= i < j < |queue'| ensures queue'[i] != queue'[j] && distance'[queue'[i]] <= distance'[queue'[j]] {
      assert queue[i] in queue;
      if j < |queue| { assert queue[j] in queue; }
    }
  }

  lemma FollowedGrows(edges: seq<Edge>, queue: seq<string>, distance: map<string, nat>, count: nat, id: string,
      next: nat)
    requires AllFollowed(edges, queue, distance, count) && count <= |queue| && id !in distance
    ensures AllFollowed(edges, queue + [id], distance[id := next], count)
  {
  }

  ghost predicate Met(into: seq<Edge>, count: nat, distance: map<string, nat>)
    requires count <= |into|
  {
    forall m :: 0 <= m < count ==> into[m].from in distance
  }

  lemma MetGrows(into: seq<Edge>, k: nat, distance: map<string, nat>, distance': map<string, nat>)
    requires k < |into| && Met(into, k, distance) && distance.Keys <= distance'.Keys && into[k].from in distance'
    ensures Met(into, k + 1, distance')
  {
  }

  /** One round of the search: queue what leads to `queue[index]` and is new. */
  method Follow(edges: seq<Edge>, into: seq<Edge>, target: string, queue: seq<string>, distance: map<string, nat>,
      index: nat)
    returns (queue': seq<string>, distance': map<string, nat>)
    requires index < |queue| && queue[index] in distance && into == Incoming(edges, queue[index])
    requires Found(edges, target, queue, distance) && Near(distance, distance[queue[index]] + 1)
    requires AllFollowed(edges, queue, distance, index)
    ensures queue <= queue' && queue[index] in distance' && distance'[queue[index]] == distance[queue[index]]
    ensures Found(edges, target, queue', distance') && Near(distance', distance[queue[index]] + 1)
    ensures AllFollowed(edges, queue', distance', index + 1)
  {
    var current, next := queue[index], distance[queue[index]] + 1;
    queue', distance' := queue, distance;
    InFilter(edges, LeadsTo(current));
    for k := 0 to |into|
      invariant queue <= queue' && current in distance' && distance'[current] + 1 == next
      invariant Found(edges, target, queue', distance') && Near(distance', next)
      invariant AllFollowed(edges, queue', distance', index)
      invariant Met(into, k, distance')
    {
      var edge := into[k];
      ghost var before := distance';
      assert edge in into;
      if edge.from !in distance' {
        FoundGrows(edges, target, queue', distance', edge, next);
        FollowedGrows(edges, queue', distance', index, edge.from, next);
        distance' := distance'[edge.from := next];
        queue' := queue' + [edge.from];
      }
      MetGrows(into, k, before, distance');
    }
    assert Followed(edges, distance', current);
  }

  /** The search of `analyzeRemoval`: every id that reaches the target is queued once, with the
      length of its shortest walk. */
  method Search(edges: seq<Edge>, incoming: map<string, seq<Edge>>, target: string)
    returns (queue: seq<string>, distance: map<string, nat>)
    requires forall id :: Get(incoming, id) == Incoming(edges, id)
    ensures Found(edges, target, queue, distance)
    ensures forall x :: x in distance ==> Distance(edges, x, target, distance[x])
    ensures forall x :: x in distance <==> Reaches(edges, x, target)
  {
    distance, queue := map[target := 0], [target];
    var index := 0;
    QueueFits(edges, target, queue, distance);
    while index < |queue|
      invariant index <= |queue| <= |Ids(edges, target)|
      invariant Found(edges, target, queue, distance)
      invariant index < |queue| ==> queue[index] in distance && Near(distance, distance[queue[index]] + 1)
      invariant AllFollowed(edges, queue, distance, index)
      decreases |Ids(edges, target)| - index
    {
      var current := queue[index];
      queue, distance := Follow(edges, Get(incoming, current), target, queue, distance, index);
      assert queue[index] == current;
      QueueFits(edges, target, queue, distance);
      index := index + 1;
      if index < |queue| { assert queue[index] in queue; }
    }
    SearchIsComplete(edges, target, queue, distance);
  }

  /** Once every queued id has been followed, no walk has been missed and none is shorter. */
  lemma SearchIsComplete(edges: seq<Edge>, target: string, queue: seq<string>, distance: map<string, nat>)
    requires Found(edges, target, queue, distance)
    requires AllFollowed(edges, queue, distance, |queue|)
    ensures forall x :: x in distance ==> Distance(edges, x, target, distance[x])
    ensures forall x :: x in distance <==> Reaches(edges, x, target)
  {
    forall x, n: nat | Walk(edges, x, target, n) ensures x in distance && distance[x] <= n {
      WalkIsMet(edges, target, queue, distance, x, n);
    }
  }

  lemma {:induction false} WalkIsMet(
    edges: seq<Edge>, target: string, queue: seq<string>, distance: map<string, nat>, x: string, n: nat)
    requires Found(edges, target, queue, distance)
    requires AllFollowed(edges, queue, distance, |queue|)
    requires Walk(edges, x, target, n)
    ensures x in distance && distance[x] <= n
    decreases n
  {
    assert target in queue;
    if n > 0 {
      var e :| e in edges && e.from == x && Walk(edges, e.to, target, n - 1);
      WalkIsMet(edges, target, queue, distance, e.to, n - 1);
      assert e.to in queue;
    }
  }

  /** `new Map(nodes.map(...)).get(id)`: the last node of that id. */
  function NodeById(nodes: seq<Node>, id: string): (r: Option<Node>)
    ensures r.Some? ==> r.value in nodes && r.value.id == id
    ensures r.None? ==> forall n :: n in nodes ==> n.id != id
  {
    if nodes == [] then None
    else
      var last := |nodes| - 1;
      assert nodes == nodes[..last] + [nodes[last]];
      if nodes[last].id == id then Some(nodes[last]) else NodeById(nodes[..last], id)
  }

  /** The entries of `distance`, in the order they were made, that are other nodes than the target. */
  function Hits(nodes: seq<Node>, target: string, queue: seq<string>, distance: map<string, nat>): seq<Hit>
    requires forall x :: x in queue ==> x in distance
  {
    if queue == [] then []
    else
      assert queue[0] in queue;
      var rest := Hits(nodes, target, queue[1..], distance);
      var node := NodeById(nodes, queue[0]);
      if queue[0] == target || node.None? then rest else [Hit(node.value, distance[queue[0]])] + rest
  }

  function IdOf(): Hit -> string { (h: Hit) => h.node.id }
  function NameOf(): Hit -> string { (h: Hit) => h.node.name }
  function DetailOf(): Hit -> string { (h: Hit) => h.node.detail }
  function OfKind(kind: Kind): Hit -> bool { (h: Hit) => h.node.kind == kind }
  function IsDirect(): Hit -> bool { (h: Hit) => h.depth == 1 }
  function IsIndirect(): Hit -> bool { (h: Hit) => h.depth > 1 }

  function LevelOf(hits: seq<Hit>): Level {
    if |Filter(hits, OfKind(Capability))| > 0 || |Filter(hits, OfKind(File))| >= 3 then HighImpact
    else if |hits| > 0 then MediumImpact
    else LowImpact
  }

  function Summary(target: string, hits: seq<Hit>): Impact {
    Impact(
      target,
      LevelOf(hits),
      Map(Filter(hits, IsDirect()), IdOf()),
      Map(Filter(hits, IsIndirect()), IdOf()),
      Map(hits, IdOf()),
      Dedup(Map(Filter(hits, OfKind(File)), DetailOf())),
      Dedup(Map(Filter(hits, OfKind(Capability)), NameOf())),
      Dedup(Map(Filter(hits, OfKind(Configuration)), NameOf())))
  }

  /** The nodes that removal affects: they reach the service along the edges. */
  ghost predicate Affected(graph: Graph, target: string, node: Node) {
    NodeById(graph.nodes, node.id) == Some(node) && node.id != target && Reaches(graph.edges, node.id, target)
  }

  /** The hits are the affected nodes, each once and with its exact distance, nearest first. */
  ghost predicate Exact(graph: Graph, target: string, hits: seq<Hit>) {
    && (forall h :: h in hits ==> Affected(graph, target, h.node) && Distance(graph.edges, h.node.id, target, h.depth))
    && (forall n :: Affected(graph, target, n) ==> exists h :: h in hits && h.node == n)
    && (forall i, j :: 0 <= i < j < |hits| ==> hits[i].node.id != hits[j].node.id && hits[i].depth <= hits[j].depth)
  }

  lemma {:induction false} HitsAreQueued(nodes: seq<Node>, target: string, queue: seq<string>,
      distance: map<string, nat>)
    requires Distinct(queue) && forall x :: x in queue ==> x in distance
    requires forall i, j :: 0 <= i < j < |queue| ==> distance[queue[i]] <= distance[queue[j]]
    ensures var hits := Hits(nodes, target, queue, distance);
            && (forall h :: h in hits ==> h.node.id in queue && h.node.id != target && h.depth == distance[h.node.id])
            && (forall h :: h in hits ==> NodeById(nodes, h.node.id) == Some(h.node))
            && (forall x :: x in queue && x != target && NodeById(nodes, x).Some? ==>
                  Hit(NodeById(nodes, x).value, distance[x]) in hits)
            && (forall i, j :: 0 <= i < j < |hits| ==>
                hits[i].node.id != hits[j].node.id && hits[i].depth <= hits[j].depth)
  {
    if queue != [] {
      assert queue[0] in queue;
      var rest := Hits(nodes, target, queue[1..], distance);
      HitsAreQueued(nodes, target, queue[1..], distance);
      forall j | 0 <= j < |rest| ensures rest[j].node.id != queue[0] && distance[queue[0]] <= rest[j].depth {
        assert rest[j] in rest;
        var k :| 0 <= k < |queue[1..]| && queue[1..][k] == rest[j].node.id;
        assert queue[k + 1] == rest[j].node.id;
      }
    }
  }

  lemma HitsAreExact(graph: Graph, target: string, queue: seq<string>, distance: map<string, nat>)
    requires Found(graph.edges, target, queue, distance)
    requires forall x :: x in distance ==> Distance(graph.edges, x, target, distance[x])
    requires forall x :: x in distance <==> Reaches(graph.edges, x, target)
    ensures Exact(graph, target, Hits(graph.nodes, target, queue, distance))
  {
    HitsAreQueued(graph.nodes, target, queue, distance);
    var hits := Hits(graph.nodes, target, queue, distance);
    forall n | Affected(graph, target, n) ensures exists h :: h in hits && h.node == n {
      assert Hit(n, distance[n.id]) in hits;
    }
  }

  method AnalyzeRemoval(graph: Graph, serviceId: string) returns (impact: Impact)
    ensures exists hits :: Exact(graph, TargetOf(serviceId), hits) && impact == Summary(TargetOf(serviceId), hits)
  {
    var target := TargetOf(serviceId);
    var incoming := IndexIncoming(graph.edges);
    var queue, distance := Search(graph.edges, incoming, target);
    HitsAreExact(graph, target, queue, distance);
    impact := Summary(target, Hits(graph.nodes, target, queue, distance));
  }

  lemma MapMembers<T(!new), U>(s: seq<T>, f: T -> U, u: U)
    ensures u in Map(s, f) <==> exists x :: x in s && f(x) == u
  {
    if u in Map(s, f) {
      var i :| 0 <= i < |s| && Map(s, f)[i] == u;
      assert s[i] in s;
    }
    if x :| x in s && f(x) == u {
      var i :| 0 <= i < |s| && s[i] == x;
      assert Map(s, f)[i] == u;
    }
  }

  /** A field of the affected nodes of one kind. */
  lemma Listed(graph: Graph, target: string, hits: seq<Hit>, kind: Kind, field: Hit -> string, value: string)
    requires Exact(graph, target, hits)
    ensures value in Map(Filter(hits, OfKind(kind)), field) <==>
            exists h :: h in hits && h.node.kind == kind && field(h) == value
  {
    InFilter(hits, OfKind(kind));
    MapMembers(Filter(hits, OfKind(kind)), field, value);
  }

  /** The report says what removal affects and how near: affected is what reaches the service, direct
      what an edge joins to it, indirect what only longer walks do. */
  lemma ImpactIsExact(graph: Graph, target: string, hits: seq<Hit>, id: string)
    requires Exact(graph, target, hits)
    ensures var impact := Summary(target, hits);
            && (id in impact.affectedNodeIds <==>
                  id != target && NodeById(graph.nodes, id).Some? && Reaches(graph.edges, id, target))
            && (id in impact.directNodeIds <==> id in impact.affectedNodeIds && Distance(graph.edges, id, target, 1))
            && (id in impact.indirectNodeIds <==> id in impact.affectedNodeIds && !Distance(graph.edges, id, target, 1))
            && Distinct(impact.affectedNodeIds)
            && (id in impact.affectedFiles <==>
                  exists n :: Affected(graph, target, n) && n.kind == File && n.detail == id)
            && (id in impact.capabilities <==>
                  exists n :: Affected(graph, target, n) && n.kind == Capability && n.name == id)
            && (id in impact.configuration <==>
                  exists n :: Affected(graph, target, n) && n.kind == Configuration && n.name == id)
  {
    MapMembers(hits, IdOf(), id);
    InFilter(hits, IsDirect());
    InFilter(hits, IsIndirect());
    MapMembers(Filter(hits, IsDirect()), IdOf(), id);
    MapMembers(Filter(hits, IsIndirect()), IdOf(), id);
    forall h | h in hits ensures h.depth > 0 && (h.depth == 1 <==> Distance(graph.edges, h.node.id, target, 1)) {
      DistanceIsOne(graph.edges, h.node.id, target, h.depth);
    }
    ReachedNode(graph, target, hits, id);
    Listed(graph, target, hits, File, DetailOf(), id);
    Listed(graph, target, hits, Capability, NameOf(), id);
    Listed(graph, target, hits, Configuration, NameOf(), id);
  }

  lemma DistanceIsOne(edges: seq<Edge>, id: string, target: string, n: nat)
    requires id != target && Distance(edges, id, target, n)
    ensures n > 0 && (n == 1 <==> Distance(edges, id, target, 1))
  {
    assert n > 1 ==> !Walk(edges, id, target, 1);
  }

  lemma ReachedNode(graph: Graph, target: string, hits: seq<Hit>, id: string)
    requires Exact(graph, target, hits)
    ensures (exists h :: h in hits && h.node.id == id) <==>
            id != target && NodeById(graph.nodes, id).Some? && Reaches(graph.edges, id, target)
  {
    if id != target && NodeById(graph.nodes, id).Some? && Reaches(graph.edges, id, target) {
      assert Affected(graph, target, NodeById(graph.nodes, id).value);
    }
  }

  ghost predicate AffectedFile(graph: Graph, target: string, node: Node) {
    Affected(graph, target, node) && node.kind == File
  }

  /** The level is low when nothing is affected, and high when a capability or three files are. */
  lemma LevelIsExact(graph: Graph, target: string, hits: seq<Hit>)
    requires Exact(graph, target, hits)
    ensures var level := Summary(target, hits).level;
            && (level == LowImpact <==> forall n :: !Affected(graph, target, n))
            && (level == HighImpact <==>
                  || (exists n :: Affected(graph, target, n) && n.kind == Capability)
                  || (exists a, b, c :: ThreeAffectedFiles(graph, target, a, b, c)))
  {
    Inhabited(hits);
    InFilter(hits, OfKind(Capability));
    Inhabited(Filter(hits, OfKind(Capability)));
    if |Filter(hits, OfKind(File))| >= 3 { ManyFiles(graph, target, hits); }
    if a, b, c :| ThreeAffectedFiles(graph, target, a, b, c) { ThreeFiles(graph, target, hits, a, b, c); }
  }

  ghost predicate ThreeAffectedFiles(graph: Graph, target: string, a: Node, b: Node, c: Node) {
    && a != b && b != c && c != a
    && AffectedFile(graph, target, a) && AffectedFile(graph, target, b) && AffectedFile(graph, target, c)
  }

  lemma FileHits(graph: Graph, target: string, hits: seq<Hit>, node: Node)
    requires Exact(graph, target, hits)
    ensures (exists h :: h in Filter(hits, OfKind(File)) && h.node == node) <==> AffectedFile(graph, target, node)
  {
    InFilter(hits, OfKind(File));
    if AffectedFile(graph, target, node) { assert Affected(graph, target, node); }
  }

  lemma ManyFiles(graph: Graph, target: string, hits: seq<Hit>)
    requires Exact(graph, target, hits) && |Filter(hits, OfKind(File))| >= 3
    ensures exists a, b, c :: ThreeAffectedFiles(graph, target, a, b, c)
  {
    var files := Filter(hits, OfKind(File));
    FilterUnique(hits, IdOf(), OfKind(File));
    assert files[0] in files && files[1] in files && files[2] in files;
    var a, b, c := files[0].node, files[1].node, files[2].node;
    FileHits(graph, target, hits, a);
    FileHits(graph, target, hits, b);
    FileHits(graph, target, hits, c);
    assert IdOf()(files[0]) != IdOf()(files[1]) && IdOf()(files[1]) != IdOf()(files[2])
        && IdOf()(files[0]) != IdOf()(files[2]);
    assert ThreeAffectedFiles(graph, target, a, b, c);
  }

  lemma ThreeFiles(graph: Graph, target: string, hits: seq<Hit>, a: Node, b: Node, c: Node)
    requires Exact(graph, target, hits) && ThreeAffectedFiles(graph, target, a, b, c)
    ensures |Filter(hits, OfKind(File))| >= 3
  {
    FileHits(graph, target, hits, a);
    FileHits(graph, target, hits, b);
    FileHits(graph, target, hits, c);
    var files := Filter(hits, OfKind(File));
    var i, j, k := IndexOfNode(files, a), IndexOfNode(files, b), IndexOfNode(files, c);
    assert i != j && j != k && k != i;
  }

  ghost function IndexOfNode(hits: seq<Hit>, node: Node): (i: nat)
    requires exists h :: h in hits && h.node == node
    ensures i < |hits| && hits[i].node == node
  {
    var h :| h in hits && h.node == node;
    var i :| 0 <= i < |hits| && hits[i] == h;
    i
  }
}
