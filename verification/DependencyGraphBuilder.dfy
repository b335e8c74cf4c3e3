/** Builds the dependency graph of an analysed commit: nodes and edges are put into two maps that keep
    the order of first insertion, and putting an id that is present merges its evidence. */
module DependencyGraphBuilder {
  import opened Wrappers
  import opened Sorting
  import opened Lists
  import opened DependencyGraph

  datatype SignalKind =
    | ManifestDependency | ActiveImport | EnvironmentName | ApiHostname | InfrastructureDeclaration
    | RuntimeCall | WrapperCall

  datatype Signal = Signal(kind: SignalKind, value: string, evidence: Evidence)

  datatype ObservationStatus = Active | Ambiguous | Inactive

  datatype Observation = Observation(
    serviceId: string, category: string, status: ObservationStatus, confidence: Confidence, evidence: seq<Evidence>)

  datatype CapabilityUse = CapabilityUse(
    serviceId: string, capabilityId: string, requirement: string, confidence: Confidence, evidence: seq<Evidence>)

  datatype Analysis = Analysis(
    commit: string, observations: seq<Observation>, capabilities: seq<CapabilityUse>, signals: seq<Signal>)

  /** `displayLabel`: the text of a label. */
  type Display = string -> string

  function Rank(c: Confidence): nat {
    match c
    case Low => 0
    case Medium => 1
    case High => 2
    case VeryHigh => 3
  }

  method StrongestConfidence(evidence: seq<Evidence>) returns (strongest: Confidence)
    ensures strongest == Strongest(evidence)
  {
    strongest := Low;
    for i := 0 to |evidence|
      invariant strongest == Strongest(evidence[..i])
    {
      assert evidence[..i + 1][..i] == evidence[..i];
      if Rank(evidence[i].confidence) > Rank(strongest) {
        strongest := evidence[i].confidence;
      }
    }
    assert evidence[..|evidence|] == evidence;
  }

  function Strongest(evidence: seq<Evidence>): (c: Confidence)
    ensures forall e :: e in evidence ==> Rank(e.confidence) <= Rank(c)
    ensures c == Low || exists e :: e in evidence && e.confidence == c
  {
    if evidence == [] then Low
    else
      var last := |evidence| - 1;
      assert evidence == evidence[..last] + [evidence[last]];
      var before := Strongest(evidence[..last]);
      if Rank(evidence[last].confidence) > Rank(before) then
        assert evidence[last] in evidence;
        evidence[last].confidence
      else before
  }

  function Decimal(n: nat): string {
    if n < 10 then ["0123456789"[n]] else Decimal(n / 10) + ["0123456789"[n % 10]]
  }

  function EvidenceKey(e: Evidence): string {
    e.file + ":" + Decimal(if e.lineStart.Some? then e.lineStart.value else 0) + ":" + e.reason
  }

  function Keys(evidence: seq<Evidence>): set<string> {
    set e | e in evidence :: EvidenceKey(e)
  }

  /** The first item of every key. */
  function FirstOfKey(evidence: seq<Evidence>): (r: seq<Evidence>)
    ensures Keys(r) == Keys(evidence)
    ensures forall i, j :: 0 <= i < j < |r| ==> EvidenceKey(r[i]) != EvidenceKey(r[j])
  {
    if evidence == [] then []
    else
      var last := |evidence| - 1;
      var before := FirstOfKey(evidence[..last]);
      assert evidence == evidence[..last] + [evidence[last]];
      assert EvidenceKey(evidence[last]) in Keys(evidence);
      assert Keys(evidence) == Keys(evidence[..last]) + {EvidenceKey(evidence[last])};
      if EvidenceKey(evidence[last]) in Keys(before) then before
      else
        assert Keys(before + [evidence[last]]) == Keys(before) + {EvidenceKey(evidence[last])};
        before + [evidence[last]]
  }

  /** The two maps, as the lists of their values in order of insertion. */
  datatype Shape = Shape(nodes: seq<Node>, edges: seq<Edge>)

  /** One upsert. */
  datatype Fact =
    | Observed(node: Node)
    | Related(from: string, to: string, relationship: Relationship, evidence: seq<Evidence>)

  function RelationshipName(r: Relationship): string {
    match r
    case Requires => "requires"
    case Imports => "imports"
    case Configures => "configures"
    case Declares => "declares"
    case Invokes => "invokes"
  }

  function EdgeId(from: string, to: string, relationship: Relationship): string {
    from + "->" + to + ":" + RelationshipName(relationship)
  }

  function IndexOf<T>(xs: seq<T>, id: T -> string, wanted: string): (r: Option<nat>)
    ensures r.Some? ==> r.value < |xs| && id(xs[r.value]) == wanted
    ensures r.None? ==> forall i :: 0 <= i < |xs| ==> id(xs[i]) != wanted
  {
    if xs == [] then None
    else if id(xs[0]) == wanted then Some(0)
    else match IndexOf(xs[1..], id, wanted) { case None => None case Some(i) => Some(i + 1) }
  }

  function NodeKey(): Node -> string { (n: Node) => n.id }
  function EdgeKey(): Edge -> string { (e: Edge) => e.id }

  function MergedNode(existing: Node, node: Node): Node {
    var evidence := FirstOfKey(existing.evidence + node.evidence);
    existing.(evidence := evidence, confidence := Strongest(evidence))
  }

  function After(s: Shape, fact: Fact): Shape {
    match fact
    case Observed(node) =>
      (match IndexOf(s.nodes, NodeKey(), node.id)
       case None => s.(nodes := s.nodes + [node])
       case Some(i) => s.(nodes := s.nodes[i := MergedNode(s.nodes[i], node)]))
    case Related(from, to, relationship, evidence) =>
      if from == to then s
      else
        var id := EdgeId(from, to, relationship);
        match IndexOf(s.edges, EdgeKey(), id)
        case None => s.(edges := s.edges + [Edge(id, from, to, relationship, evidence)])
        case Some(i) => s.(edges := s.edges[i := s.edges[i].(evidence := s.edges[i].evidence + evidence)])
  }

  function AfterAll(s: Shape, facts: seq<Fact>): Shape
    decreases |facts|
  {
    if facts == [] then s else After(AfterAll(s, facts[..|facts| - 1]), facts[|facts| - 1])
  }

  lemma {:induction false} AfterAllAppend(s: Shape, a: seq<Fact>, b: seq<Fact>)
    ensures AfterAll(s, a + b) == AfterAll(AfterAll(s, a), b)
    decreases |b|
  {
    if b == [] {
      assert a + b == a;
    } else {
      AfterAllAppend(s, a, b[..|b| - 1]);
      assert (a + b)[..|a + b| - 1] == a + b[..|b| - 1];
    }
  }

  function FlatMap<T>(xs: seq<T>, f: T -> seq<Fact>): seq<Fact> {
    if xs == [] then [] else FlatMap(xs[..|xs| - 1], f) + f(xs[|xs| - 1])
  }

  lemma FlatMapNext<T>(xs: seq<T>, i: nat, f: T -> seq<Fact>)
    requires i < |xs|
    ensures FlatMap(xs[..i + 1], f) == FlatMap(xs[..i], f) + f(xs[i])
  {
    assert xs[..i + 1][..i] == xs[..i];
  }

  function Last(path: string): string {
    if path == [] then []
    else if path[|path| - 1] == '/' then []
    else Last(path[..|path| - 1]) + [path[|path| - 1]]
  }

  function FileNode(e: Evidence): Node {
    Node(NodeId(File, e.file), File, Last(e.file), e.file, e.confidence, [e])
  }

  function ServiceNode(o: Observation, display: Display): Node {
    Node(NodeId(Service, o.serviceId), Service, display(o.serviceId), display(o.category), o.confidence, o.evidence)
  }

  function CapabilityId(o: Observation, c: CapabilityUse): string {
    NodeId(Capability, o.serviceId + ":" + c.capabilityId)
  }

  function CapabilityNode(o: Observation, c: CapabilityUse, display: Display): Node {
    Node(CapabilityId(o, c), Capability, display(c.capabilityId), display(c.requirement) + " capability", c.confidence,
         c.evidence)
  }

  function SignalRelationship(s: Signal): Relationship {
    match s.kind
    case ActiveImport => Imports
    case ManifestDependency => Imports
    case EnvironmentName => Configures
    case InfrastructureDeclaration => Declares
    case _ => Invokes
  }

  function SignalNodeKind(s: Signal): Option<Kind> {
    match s.kind
    case ActiveImport => Some(Package)
    case ManifestDependency => Some(Package)
    case EnvironmentName => Some(Configuration)
    case InfrastructureDeclaration => Some(Infrastructure)
    case _ => None
  }

  function SignalNode(o: Observation, s: Signal, kind: Kind, display: Display): Node {
    Node(NodeId(kind, o.serviceId + ":" + s.value), kind, s.value,
         if kind == Configuration then "Environment variable" else display(KindName(kind)), s.evidence.confidence,
             [s.evidence])
  }

  function UseFacts(capabilityId: string): Evidence -> seq<Fact> {
    (e: Evidence) => [Observed(FileNode(e)), Related(NodeId(File, e.file), capabilityId, Invokes, [e])]
  }

  function CapabilityFacts(o: Observation, display: Display): CapabilityUse -> seq<Fact> {
    (c: CapabilityUse) =>
      [Observed(CapabilityNode(o, c, display)),
       Related(CapabilityId(o, c), NodeId(Service, o.serviceId), Requires, c.evidence)]
      + FlatMap(c.evidence, UseFacts(CapabilityId(o, c)))
  }

  function SignalFacts(o: Observation, display: Display): Signal -> seq<Fact> {
    (s: Signal) =>
      var file, service, r := NodeId(File, s.evidence.file), NodeId(Service, o.serviceId), SignalRelationship(s);
      match SignalNodeKind(s)
      case None => [Observed(FileNode(s.evidence)), Related(file, service, r, [s.evidence])]
      case Some(kind) =>
        var node := SignalNode(o, s, kind, display);
        [Observed(FileNode(s.evidence)), Observed(node),
         Related(node.id, service, r, [s.evidence]), Related(file, node.id, r, [s.evidence])]
  }

  function OfService(serviceId: string): CapabilityUse -> bool {
    (c: CapabilityUse) => c.serviceId == serviceId
  }

  function Matching(keys: set<string>): Signal -> bool {
    (s: Signal) => EvidenceKey(s.evidence) in keys
  }

  function CapabilitiesOf(a: Analysis, o: Observation): seq<CapabilityUse> {
    Filter(a.capabilities, OfService(o.serviceId))
  }

  function ServiceEvidence(a: Analysis, o: Observation): set<string> {
    Keys(o.evidence) + set c, e | c in CapabilitiesOf(a, o) && e in c.evidence :: EvidenceKey(e)
  }

  function SignalsOf(a: Analysis, o: Observation): seq<Signal> {
    Filter(a.signals, Matching(ServiceEvidence(a, o)))
  }

  function ObservationFacts(a: Analysis, display: Display): Observation -> seq<Fact> {
    (o: Observation) =>
      if o.status == Inactive then []
      else
        [Observed(ServiceNode(o, display))]
        + FlatMap(CapabilitiesOf(a, o), CapabilityFacts(o, display))
        + FlatMap(SignalsOf(a, o), SignalFacts(o, display))
  }

  /** Everything the graph of an analysis is built from, in order. */
  function Facts(a: Analysis, display: Display): seq<Fact> {
    FlatMap(a.observations, ObservationFacts(a, display))
  }

  class GraphBuilder {
    var nodes: seq<Node>
    var edges: seq<Edge>

    ghost function Contents(): Shape
      reads this
    {
      Shape(nodes, edges)
    }

    constructor ()
      ensures Contents() == Shape([], [])
    {
      nodes, edges := [], [];
    }

    method UpsertNode(node: Node)
      modifies this
      ensures Contents() == After(old(Contents()), Observed(node))
    {
      var existing := IndexOf(nodes, NodeKey(), node.id);
      if existing.None? {
        nodes := nodes + [node];
        return;
      }
      var evidence := FirstOfKey(nodes[existing.value].evidence + node.evidence);
      var confidence := StrongestConfidence(evidence);
      nodes := nodes[existing.value := nodes[existing.value].(evidence := evidence, confidence := confidence)];
    }

    method UpsertEdge(from: string, to: string, relationship: Relationship, evidence: seq<Evidence>)
      modifies this
      ensures Contents() == After(old(Contents()), Related(from, to, relationship, evidence))
    {
      if from == to { return; }
      var id := EdgeId(from, to, relationship);
      var existing := IndexOf(edges, EdgeKey(), id);
      if existing.Some? {
        var edge := edges[existing.value];
        edges := edges[existing.value := edge.(evidence := edge.evidence + evidence)];
      } else {
        edges := edges + [Edge(id, from, to, relationship, evidence)];
      }
    }

    method AddCapability(o: Observation, c: CapabilityUse, display: Display)
      modifies this
      ensures Contents() == AfterAll(old(Contents()), CapabilityFacts(o, display)(c))
    {
      var capabilityId := CapabilityId(o, c);
      UpsertNode(CapabilityNode(o, c, display));
      UpsertEdge(capabilityId, NodeId(Service, o.serviceId), Requires, c.evidence);
      ghost var start := Contents();
      for i := 0 to |c.evidence|
        invariant Contents() == AfterAll(start, FlatMap(c.evidence[..i], UseFacts(capabilityId)))
      {
        ghost var before := FlatMap(c.evidence[..i], UseFacts(capabilityId));
        var evidence := c.evidence[i];
        UpsertNode(FileNode(evidence));
        UpsertEdge(NodeId(File, evidence.file), capabilityId, Invokes, [evidence]);
        FlatMapNext(c.evidence, i, UseFacts(capabilityId));
        AfterTwo(AfterAll(start, before), UseFacts(capabilityId)(evidence));
        AfterAllAppend(start, before, UseFacts(capabilityId)(evidence));
      }
      assert c.evidence[..|c.evidence|] == c.evidence;
      ghost var first := CapabilityFacts(o, display)(c)[..2];
      AfterTwo(old(Contents()), first);
      AfterAllAppend(old(Contents()), first, FlatMap(c.evidence, UseFacts(capabilityId)));
    }

    method AddSignal(o: Observation, signal: Signal, display: Display)
      modifies this
      ensures Contents() == AfterAll(old(Contents()), SignalFacts(o, display)(signal))
    {
      var kind := SignalNodeKind(signal);
      var fileId, serviceId := NodeId(File, signal.evidence.file), NodeId(Service, o.serviceId);
      ghost var facts := SignalFacts(o, display)(signal);
      UpsertNode(FileNode(signal.evidence));
      if kind.None? {
        UpsertEdge(fileId, serviceId, SignalRelationship(signal), [signal.evidence]);
        AfterTwo(old(Contents()), facts);
        return;
      }
      var node := SignalNode(o, signal, kind.value, display);
      UpsertNode(node);
      AfterTwo(old(Contents()), facts[..2]);
      UpsertEdge(node.id, serviceId, SignalRelationship(signal), [signal.evidence]);
      UpsertEdge(fileId, node.id, SignalRelationship(signal), [signal.evidence]);
      AfterTwo(AfterAll(old(Contents()), facts[..2]), facts[2..]);
      AfterAllAppend(old(Contents()), facts[..2], facts[2..]);
      assert facts == facts[..2] + facts[2..];
    }

    method AddObservation(a: Analysis, o: Observation, display: Display)
      modifies this
      ensures Contents() == AfterAll(old(Contents()), ObservationFacts(a, display)(o))
    {
      if o.status == Inactive { return; }
      ghost var service := [Observed(ServiceNode(o, display))];
      UpsertNode(ServiceNode(o, display));
      ghost var start := Contents();
      AfterOne(old(Contents()), service);
      var capabilities, uses := CapabilitiesOf(a, o), CapabilityFacts(o, display);
      for i := 0 to |capabilities|
        invariant Contents() == AfterAll(start, FlatMap(capabilities[..i], uses))
      {
        AddCapability(o, capabilities[i], display);
        FlatMapNext(capabilities, i, uses);
        AfterAllAppend(start, FlatMap(capabilities[..i], uses), uses(capabilities[i]));
      }
      assert capabilities[..|capabilities|] == capabilities;
      ghost var middle := Contents();
      AfterAllAppend(old(Contents()), service, FlatMap(capabilities, uses));
      var signals, sightings := SignalsOf(a, o), SignalFacts(o, display);
      for i := 0 to |signals|
        invariant Contents() == AfterAll(middle, FlatMap(signals[..i], sightings))
      {
        AddSignal(o, signals[i], display);
        FlatMapNext(signals, i, sightings);
        AfterAllAppend(middle, FlatMap(signals[..i], sightings), sightings(signals[i]));
      }
      assert signals[..|signals|] == signals;
      AfterAllAppend(old(Contents()), service + FlatMap(capabilities, uses), FlatMap(signals, sightings));
    }
  }

  lemma AfterOne(s: Shape, facts: seq<Fact>)
    requires |facts| == 1
    ensures AfterAll(s, facts) == After(s, facts[0])
  {
    assert facts[..0] == [];
  }

  lemma AfterTwo(s: Shape, facts: seq<Fact>)
    requires |facts| == 2
    ensures AfterAll(s, facts) == After(After(s, facts[0]), facts[1])
  {
    AfterOne(s, facts[..1]);
  }

  function ByNodeId(le: (string, string) -> bool): (Node, Node) -> bool {
    (m: Node, n: Node) => le(m.id, n.id)
  }

  function ByEdgeId(le: (string, string) -> bool): (Edge, Edge) -> bool {
    (d: Edge, e: Edge) => le(d.id, e.id)
  }

  /** The graph of an analysis; `le` is the collation of `localeCompare`. */
  function Built(a: Analysis, display: Display, le: (string, string) -> bool): Graph {
    var s := AfterAll(Shape([], []), Facts(a, display));
    Graph(a.commit, Sort(s.nodes, ByNodeId(le)), Sort(s.edges, ByEdgeId(le)))
  }

  method BuildDependencyGraph(a: Analysis, display: Display, le: (string, string) -> bool) returns (graph: Graph)
    ensures graph == Built(a, display, le)
  {
    var builder := new GraphBuilder();
    var facts := ObservationFacts(a, display);
    for i := 0 to |a.observations|
      invariant builder.Contents() == AfterAll(Shape([], []), FlatMap(a.observations[..i], facts))
    {
      builder.AddObservation(a, a.observations[i], display);
      FlatMapNext(a.observations, i, facts);
      AfterAllAppend(Shape([], []), FlatMap(a.observations[..i], facts), facts(a.observations[i]));
    }
    assert a.observations[..|a.observations|] == a.observations;
    graph := Graph(a.commit, Sort(builder.nodes, ByNodeId(le)), Sort(builder.edges, ByEdgeId(le)));
  }
}
