/** What holds of every graph that `buildDependencyGraph` makes, and of removal analysis on it. */
module DependencyGraphTheorems {
  import opened Wrappers
  import opened Sorting
  import opened Lists
  import opened DependencyGraph
  import opened DependencyGraphBuilder
  import opened RemovalAnalysis

  /** Files depend on what is declared in them, and that depends on services. Of the names of kinds only
      "file" and "service" start with these letters. */
  function Height(id: string): nat {
    if id == [] then 1 else if id[0] == 'f' then 2 else if id[0] == 's' then 0 else 1
  }

  function IdsOf(nodes: seq<Node>): set<string> {
    set n | n in nodes :: n.id
  }

  predicate HasNode(nodes: seq<Node>, id: string) {
    id in IdsOf(nodes)
  }

  ghost predicate Descending(edges: seq<Edge>) {
    forall e :: e in edges ==> Height(e.from) > Height(e.to)
  }

  ghost predicate WellFormed(nodes: seq<Node>, edges: seq<Edge>) {
    && UniqueBy(nodes, NodeKey())
    && UniqueBy(edges, EdgeKey())
    && (forall n :: n in nodes ==> NodeId(n.kind, "") <= n.id)
    && (forall e :: e in edges ==> HasNode(nodes, e.from) && HasNode(nodes, e.to))
    && Descending(edges)
  }

  lemma IdShowsKind(k: Kind, value: string)
    ensures NodeId(k, "") <= NodeId(k, value)
  {
  }

  lemma HeightOfKind(k: Kind, id: string)
    requires NodeId(k, "") <= id
    ensures Height(id) == if k == File then 2 else if k == Service then 0 else 1
  {
    assert id[0] == NodeId(k, "")[0];
  }

  // ---- facts that come in a sound order ----

  /** A fact that may be recorded once the nodes `known` are there. */
  predicate Sound(fact: Fact, known: set<string>) {
    match fact
    case Observed(n) => NodeId(n.kind, "") <= n.id
    case Related(from, to, _, _) => from in known && to in known && Height(from) > Height(to)
  }

  function Named(facts: seq<Fact>): set<string> {
    set f | f in facts && f.Observed? :: f.node.id
  }

  lemma NamedIn(facts: seq<Fact>, i: nat, k: nat)
    requires i < k <= |facts| && facts[i].Observed?
    ensures facts[i].node.id in Named(facts[..k])
  {
    assert facts[..k][i] in facts[..k];
  }

  function Names(fact: Fact): set<string> {
    if fact.Observed? then {fact.node.id} else {}
  }

  lemma NamedNext(facts: seq<Fact>, last: Fact)
    ensures Named(facts + [last]) == Named(facts) + Names(last)
  {
    assert (facts + [last])[|facts|] == last;
  }

  ghost predicate Grounded(known: set<string>, facts: seq<Fact>) {
    forall i :: 0 <= i < |facts| ==> Sound(facts[i], known + Named(facts[..i]))
  }

  lemma GroundedMore(known: set<string>, more: set<string>, facts: seq<Fact>)
    requires Grounded(known, facts) && known <= more
    ensures Grounded(more, facts)
  {
    forall i | 0 <= i < |facts| ensures Sound(facts[i], more + Named(facts[..i])) {
      assert Sound(facts[i], known + Named(facts[..i]));
    }
  }

  lemma GroundedAppend(known: set<string>, a: seq<Fact>, b: seq<Fact>)
    requires Grounded(known, a) && Grounded(known + Named(a), b)
    ensures Grounded(known, a + b)
  {
    forall i | 0 <= i < |a + b| ensures Sound((a + b)[i], known + Named((a + b)[..i])) {
      if i < |a| {
        assert (a + b)[..i] == a[..i];
        assert Sound(a[i], known + Named(a[..i]));
      } else {
        assert (a + b)[..i] == a + b[..i - |a|];
        assert Named(a + b[..i - |a|]) == Named(a) + Named(b[..i - |a|]);
        assert Sound(b[i - |a|], known + Named(a) + Named(b[..i - |a|]));
      }
    }
  }

  lemma {:induction false} FlatMapGrounded<T(!new)>(known: set<string>, xs: seq<T>, f: T -> seq<Fact>)
    requires forall x :: x in xs ==> Grounded(known, f(x))
    ensures Grounded(known, FlatMap(xs, f))
  {
    if xs != [] {
      var rest := xs[..|xs| - 1];
      FlatMapGrounded(known, rest, f);
      assert xs[|xs| - 1] in xs;
      GroundedMore(known, known + Named(FlatMap(rest, f)), f(xs[|xs| - 1]));
      GroundedAppend(known, FlatMap(rest, f), f(xs[|xs| - 1]));
    }
  }

  lemma CapabilityGrounded(known: set<string>, o: Observation, display: Display, c: CapabilityUse)
    requires NodeId(Service, o.serviceId) in known
    ensures Grounded(known, CapabilityFacts(o, display)(c))
  {
    var id := CapabilityId(o, c);
    HeightOfKind(Capability, id);
    HeightOfKind(Service, NodeId(Service, o.serviceId));
    var first := CapabilityFacts(o, display)(c)[..2];
    NamedIn(first, 0, 1);
    NamedIn(first, 0, 2);
    assert first[..2] == first;
    assert Grounded(known, first);
    forall e | e in c.evidence ensures Grounded(known + Named(first), UseFacts(id)(e)) {
      HeightOfKind(File, NodeId(File, e.file));
      NamedIn(UseFacts(id)(e), 0, 1);
    }
    FlatMapGrounded(known + Named(first), c.evidence, UseFacts(id));
    GroundedAppend(known, first, FlatMap(c.evidence, UseFacts(id)));
  }

  lemma SignalGrounded(known: set<string>, o: Observation, display: Display, s: Signal)
    requires NodeId(Service, o.serviceId) in known
    ensures Grounded(known, SignalFacts(o, display)(s))
  {
    var facts := SignalFacts(o, display)(s);
    HeightOfKind(File, NodeId(File, s.evidence.file));
    HeightOfKind(Service, NodeId(Service, o.serviceId));
    if SignalNodeKind(s).Some? {
      var node := SignalNode(o, s, SignalNodeKind(s).value, display);
      HeightOfKind(node.kind, node.id);
      FourFactsGrounded(known, facts);
    } else {
      NamedIn(facts, 0, 1);
    }
  }

  lemma FourFactsGrounded(known: set<string>, facts: seq<Fact>)
    requires |facts| == 4 && facts[0].Observed? && facts[1].Observed? && facts[2].Related? && facts[3].Related?
    requires Sound(facts[0], {}) && Sound(facts[1], {})
    requires facts[2].from == facts[3].to == facts[1].node.id && facts[2].to in known
        && facts[3].from == facts[0].node.id
    requires Height(facts[2].from) > Height(facts[2].to) && Height(facts[3].from) > Height(facts[3].to)
    ensures Grounded(known, facts)
  {
    NamedIn(facts, 1, 2);
    NamedIn(facts, 0, 3);
    NamedIn(facts, 1, 3);
    forall i | 0 <= i < 4 ensures Sound(facts[i], known + Named(facts[..i])) {
      if i == 2 {
        assert Sound(facts[2], known + Named(facts[..2]));
      } else if i == 3 {
        assert Sound(facts[3], known + Named(facts[..3]));
      }
    }
  }

  lemma ObservationGrounded(known: set<string>, a: Analysis, display: Display, o: Observation)
    ensures Grounded(known, ObservationFacts(a, display)(o))
  {
    if o.status != Inactive {
      var service := [Observed(ServiceNode(o, display))];
      var id := NodeId(Service, o.serviceId);
      assert service[0] in service;
      assert id in Named(service);
      var uses := FlatMap(CapabilitiesOf(a, o), CapabilityFacts(o, display));
      forall c | c in CapabilitiesOf(a, o) ensures Grounded(known + Named(service), CapabilityFacts(o, display)(c)) {
        CapabilityGrounded(known + Named(service), o, display, c);
      }
      FlatMapGrounded(known + Named(service), CapabilitiesOf(a, o), CapabilityFacts(o, display));
      GroundedAppend(known, service, uses);
      var more := known + Named(service + uses);
      assert id in more by { assert (service + uses)[0] == service[0]; }
      forall s | s in SignalsOf(a, o) ensures Grounded(more, SignalFacts(o, display)(s)) {
        SignalGrounded(more, o, display, s);
      }
      FlatMapGrounded(more, SignalsOf(a, o), SignalFacts(o, display));
      GroundedAppend(known, service + uses, FlatMap(SignalsOf(a, o), SignalFacts(o, display)));
    }
  }

  // ---- recording sound facts ----

  lemma AfterKeeps(s: Shape, fact: Fact)
    requires WellFormed(s.nodes, s.edges) && Sound(fact, IdsOf(s.nodes))
    ensures WellFormed(After(s, fact).nodes, After(s, fact).edges)
    ensures IdsOf(After(s, fact).nodes) == IdsOf(s.nodes) + Names(fact)
  {
    match fact
    case Observed(node) => NodeKeeps(s, node);
    case Related(from, to, relationship, evidence) => EdgeKeeps(s, fact);
  }

  lemma NodeKeeps(s: Shape, node: Node)
    requires WellFormed(s.nodes, s.edges) && NodeId(node.kind, "") <= node.id
    ensures WellFormed(After(s, Observed(node)).nodes, s.edges)
    ensures IdsOf(After(s, Observed(node)).nodes) == IdsOf(s.nodes) + {node.id}
  {
    var nodes := After(s, Observed(node)).nodes;
    match IndexOf(s.nodes, NodeKey(), node.id)
    case None =>
      AppendUnique(s.nodes, node, NodeKey());
      assert nodes[|s.nodes|] == node;
      assert forall n :: n in nodes <==> n in s.nodes || n == node;
    case Some(i) =>
      assert forall j :: 0 <= j < |nodes| ==> nodes[j].id == s.nodes[j].id && nodes[j].kind == s.nodes[j].kind;
      SameIds(s.nodes, nodes);
  }

  lemma SameIds(nodes: seq<Node>, nodes': seq<Node>)
    requires |nodes| == |nodes'|
    requires forall j :: 0 <= j < |nodes'| ==> nodes'[j].id == nodes[j].id && nodes'[j].kind == nodes[j].kind
    ensures IdsOf(nodes') == IdsOf(nodes)
  {
    forall id ensures id in IdsOf(nodes') <==> id in IdsOf(nodes) {
      if id in IdsOf(nodes) {
        var j :| 0 <= j < |nodes| && nodes[j].id == id;
        assert nodes'[j] in nodes';
      }
      if id in IdsOf(nodes') {
        var j :| 0 <= j < |nodes'| && nodes'[j].id == id;
        assert nodes[j] in nodes;
      }
    }
  }

  lemma EdgeKeeps(s: Shape, fact: Fact)
    requires WellFormed(s.nodes, s.edges) && fact.Related? && Sound(fact, IdsOf(s.nodes))
    ensures WellFormed(s.nodes, After(s, fact).edges)
  {
    var id := EdgeId(fact.from, fact.to, fact.relationship);
    var edges := After(s, fact).edges;
    match IndexOf(s.edges, EdgeKey(), id)
    case None =>
      AppendUnique(s.edges, Edge(id, fact.from, fact.to, fact.relationship, fact.evidence), EdgeKey());
    case Some(i) =>
      assert forall j :: 0 <= j < |edges| ==>
        edges[j].id == s.edges[j].id && edges[j].from == s.edges[j].from && edges[j].to == s.edges[j].to;
      forall e | e in edges ensures HasNode(s.nodes, e.from) && HasNode(s.nodes, e.to)
          && Height(e.from) > Height(e.to) {
        var j :| 0 <= j < |edges| && edges[j] == e;
        assert s.edges[j] in s.edges;
      }
  }

  /** The graph of a list of facts. */
  function Recorded(facts: seq<Fact>): Shape {
    AfterAll(Shape([], []), facts)
  }

  ghost predicate GoodRecord(facts: seq<Fact>) {
    WellFormed(Recorded(facts).nodes, Recorded(facts).edges) && IdsOf(Recorded(facts).nodes) == Named(facts)
  }

  ghost predicate SoundUpTo(facts: seq<Fact>, k: nat) {
    k <= |facts| && forall i :: 0 <= i < k ==> Sound(facts[i], Named(facts[..i]))
  }

  lemma RecordedNext(rest: seq<Fact>, last: Fact)
    requires GoodRecord(rest) && Sound(last, Named(rest))
    ensures GoodRecord(rest + [last])
  {
    AfterKeeps(Recorded(rest), last);
    NamedNext(rest, last);
    AfterAllAppend(Shape([], []), rest, [last]);
    AfterOne(Recorded(rest), [last]);
  }

  lemma {:induction false} RecordedIsWellFormed(facts: seq<Fact>, k: nat)
    requires SoundUpTo(facts, k)
    ensures GoodRecord(facts[..k])
    decreases k
  {
    if k > 0 {
      RecordedIsWellFormed(facts, k - 1);
      WellFormedOneMore(facts, k);
    }
  }

  lemma WellFormedOneMore(facts: seq<Fact>, k: nat)
    requires 0 < k && SoundUpTo(facts, k) && GoodRecord(facts[..k - 1])
    ensures GoodRecord(facts[..k])
  {
    assert facts[..k] == facts[..k - 1] + [facts[k - 1]];
    RecordedNext(facts[..k - 1], facts[k - 1]);
  }

  lemma FactsAreGrounded(a: Analysis, display: Display)
    ensures Grounded({}, Facts(a, display))
  {
    forall o | o in a.observations ensures Grounded({}, ObservationFacts(a, display)(o)) {
      ObservationGrounded({}, a, display, o);
    }
    FlatMapGrounded({}, a.observations, ObservationFacts(a, display));
  }

  lemma UniqueRearranged<T, K>(s: seq<T>, t: seq<T>, key: T -> K)
    requires UniqueBy(s, key) && multiset(s) == multiset(t)
    ensures UniqueBy(t, key)
  {
    SameMembers(s, t);
    DistinctRearranged(s, t);
    forall i, j | 0 <= i < j < |t| ensures key(t[i]) != key(t[j]) {
      assert t[i] in s && t[j] in s;
      var k, l :| 0 <= k < |s| && 0 <= l < |s| && s[k] == t[i] && s[l] == t[j];
    }
  }

  lemma RearrangedIsWellFormed(s: Shape, nodes: seq<Node>, edges: seq<Edge>)
    requires WellFormed(s.nodes, s.edges) && multiset(s.nodes) == multiset(nodes)
        && multiset(s.edges) == multiset(edges)
    ensures WellFormed(nodes, edges) && IdsOf(nodes) == IdsOf(s.nodes)
  {
    UniqueRearranged(s.nodes, nodes, NodeKey());
    UniqueRearranged(s.edges, edges, EdgeKey());
    SameMembers(s.nodes, nodes);
    SameMembers(s.edges, edges);
  }

  /** Ids are unique, every edge joins two nodes, and every edge leads strictly downwards: from files to
      what is declared in them, and from that to services. The nodes are those that were observed. */
  lemma BuiltGraphsAreWellFormed(a: Analysis, display: Display, le: (string, string) -> bool)
    ensures var g := Built(a, display, le);
            WellFormed(g.nodes, g.edges) && IdsOf(g.nodes) == Named(Facts(a, display))
  {
    FactsAreGrounded(a, display);
    var facts := Facts(a, display);
    forall i | 0 <= i < |facts| ensures Sound(facts[i], Named(facts[..i])) {
      assert {} + Named(facts[..i]) == Named(facts[..i]);
    }
    RecordedIsWellFormed(facts, |facts|);
    assert facts[..|facts|] == facts;
    RearrangedIsWellFormed(Recorded(facts), Built(a, display, le).nodes, Built(a, display, le).edges);
  }

  lemma OrderByKey<T(!new)>(le: (string, string) -> bool, key: T -> string, order: (T, T) -> bool)
    requires TotalPreorder(le) && forall x, y :: order(x, y) == le(key(x), key(y))
    ensures TotalPreorder(order)
  {
    forall x, y ensures order(x, y) || order(y, x) {
      assert le(key(x), key(y)) || le(key(y), key(x));
    }
    forall x, y, z | order(x, y) && order(y, z) ensures order(x, z) {
      assert le(key(x), key(y)) && le(key(y), key(z));
    }
  }

  lemma SortByIds(nodes: seq<Node>, edges: seq<Edge>, le: (string, string) -> bool)
    requires TotalPreorder(le)
    ensures Sorted(Sort(nodes, ByNodeId(le)), ByNodeId(le)) && Sorted(Sort(edges, ByEdgeId(le)), ByEdgeId(le))
  {
    OrderByKey(le, NodeKey(), ByNodeId(le));
    OrderByKey(le, EdgeKey(), ByEdgeId(le));
    SortSorts(nodes, ByNodeId(le));
    SortSorts(edges, ByEdgeId(le));
  }

  lemma BuiltGraphsAreSorted(a: Analysis, display: Display, le: (string, string) -> bool)
    requires TotalPreorder(le)
    ensures var g := Built(a, display, le); Sorted(g.nodes, ByNodeId(le)) && Sorted(g.edges, ByEdgeId(le))
  {
    var s := Recorded(Facts(a, display));
    SortByIds(s.nodes, s.edges, le);
  }

  // ---- the edges are the relations that were found ----

  predicate IsRelated(facts: seq<Fact>, from: string, to: string, r: Relationship) {
    exists f :: f in facts && f.Related? && f.from == from && f.to == to && f.relationship == r
  }

  predicate HasEdge(edges: seq<Edge>, from: string, to: string, r: Relationship) {
    exists e :: e in edges && e.from == from && e.to == to && e.relationship == r
  }

  function FactId(f: Fact): string
    requires f.Related?
  {
    EdgeId(f.from, f.to, f.relationship)
  }

  predicate SameRelation(f: Fact, g: Fact)
    requires f.Related? && g.Related?
  {
    f.from == g.from && f.to == g.to && f.relationship == g.relationship
  }

  /** No two relations share the id of an edge. */
  ghost predicate InjectiveIds(facts: seq<Fact>) {
    forall f, g :: f in facts && g in facts && f.Related? && g.Related? && FactId(f) == FactId(g) ==> SameRelation(f, g)
  }

  const ARROW := "->"

  predicate ArrowFree(id: string) {
    forall i :: 0 <= i < |id| - 1 ==> !(id[i] == '-' && id[i + 1] == '>')
  }

  lemma NoColon(r: Relationship)
    ensures ':' !in RelationshipName(r)
  {
  }

  lemma NamesDiffer(r: Relationship, q: Relationship)
    requires RelationshipName(r) == RelationshipName(q)
    ensures r == q
  {
    assert RelationshipName(r)[0] == RelationshipName(q)[0] && RelationshipName(r)[1] == RelationshipName(q)[1];
  }

  lemma SuffixDetermines(a: string, b: string, r: Relationship, q: Relationship)
    requires a + ":" + RelationshipName(r) == b + ":" + RelationshipName(q)
    ensures a == b && r == q
  {
    NoColon(r);
    NoColon(q);
    LastColonDetermines(a, RelationshipName(r), b, RelationshipName(q));
    NamesDiffer(r, q);
  }

  lemma LastColonDetermines(a: string, m: string, b: string, n: string)
    requires a + ":" + m == b + ":" + n && ':' !in m && ':' !in n
    ensures a == b && m == n
  {
    var s := a + ":" + m;
    assert s[|a|] == ':' && s[|b|] == ':';
    assert forall i :: |a| < i < |s| ==> s[i] == m[i - |a| - 1];
    assert forall i :: |b| < i < |s| ==> s[i] == n[i - |b| - 1];
    assert s[..|a|] == a && s[..|b|] == b;
    assert s[|a| + 1..] == m && s[|b| + 1..] == n;
  }

  /** The second relation is the first with what follows an arrow of its target moved into its source. */
  predicate Shifted(f: Fact, g: Fact, part: string)
    requires f.Related? && g.Related?
  {
    f.relationship == g.relationship && g.from == f.from + ARROW + part && f.to == part + ARROW + g.to
  }

  lemma ShiftedShareId(f: Fact, g: Fact, part: string)
    requires f.Related? && g.Related? && Shifted(f, g, part)
    ensures FactId(f) == FactId(g)
  {
    assert f.from + ARROW + f.to == g.from + ARROW + g.to;
  }

  lemma SameLengthSameEnds(f: Fact, g: Fact)
    requires f.Related? && g.Related? && FactId(f) == FactId(g) && |f.from| == |g.from|
    ensures SameRelation(f, g)
  {
    SuffixDetermines(f.from + ARROW + f.to, g.from + ARROW + g.to, f.relationship, g.relationship);
    var s := f.from + ARROW + f.to;
    assert s[..|f.from|] == f.from && s[..|f.from|] == g.from;
    assert s[|f.from| + 2..] == f.to && s[|f.from| + 2..] == g.to;
  }

  lemma ArrowsOverlap(from: string, to: string, from': string, to': string) returns (part: string)
    requires from + ARROW + to == from' + ARROW + to' && |from| < |from'|
    ensures from' == from + ARROW + part && to == part + ARROW + to'
  {
    var s := from + ARROW + to;
    assert s[|from|] == '-' && s[|from| + 1] == '>' && s[|from'|] == '-';
    part := s[|from| + 2..|from'|];
    assert s[..|from'|] == from' && s[..|from'|] == from + ARROW + part;
    assert s[|from| + 2..] == to && s[|from| + 2..] == part + ARROW + to';
  }

  /** Two relations share an edge id exactly if they are one, or one is the other shifted. */
  lemma EdgeIdsCollideIff(f: Fact, g: Fact)
    requires f.Related? && g.Related?
    ensures FactId(f) == FactId(g) <==>
            SameRelation(f, g) || (exists part :: Shifted(f, g, part)) || (exists part :: Shifted(g, f, part))
  {
    if part :| Shifted(f, g, part) { ShiftedShareId(f, g, part); }
    if part :| Shifted(g, f, part) { ShiftedShareId(g, f, part); }
    if FactId(f) == FactId(g) {
      SuffixDetermines(f.from + ARROW + f.to, g.from + ARROW + g.to, f.relationship, g.relationship);
      if |f.from| == |g.from| {
        SameLengthSameEnds(f, g);
      } else if |f.from| < |g.from| {
        var part := ArrowsOverlap(f.from, f.to, g.from, g.to);
        assert Shifted(f, g, part);
      } else {
        var part := ArrowsOverlap(g.from, g.to, f.from, f.to);
        assert Shifted(g, f, part);
      }
    }
  }

  lemma ShiftedHasArrows(f: Fact, g: Fact, part: string)
    requires f.Related? && g.Related? && Shifted(f, g, part)
    ensures !ArrowFree(g.from) && !ArrowFree(f.to)
  {
    assert g.from[|f.from|] == '-' && g.from[|f.from| + 1] == '>';
    assert f.to[|part|] == '-' && f.to[|part| + 1] == '>';
  }

  /** Sources without an arrow can be read back from the id of an edge. */
  lemma EdgeIdDetermines(f: Fact, g: Fact)
    requires f.Related? && g.Related? && FactId(f) == FactId(g) && ArrowFree(f.from) && ArrowFree(g.from)
    ensures SameRelation(f, g)
  {
    EdgeIdsCollideIff(f, g);
    if part :| Shifted(f, g, part) { ShiftedHasArrows(f, g, part); }
    if part :| Shifted(g, f, part) { ShiftedHasArrows(g, f, part); }
  }

  /** It is enough that no source has an arrow in it, or no target. */
  lemma ArrowFreeIdsAreInjective(facts: seq<Fact>)
    requires (forall f :: f in facts && f.Related? ==> ArrowFree(f.from))
          || (forall f :: f in facts && f.Related? ==> ArrowFree(f.to))
    ensures InjectiveIds(facts)
  {
    forall f, g | f in facts && g in facts && f.Related? && g.Related? && FactId(f) == FactId(g)
        ensures SameRelation(f, g) {
      EdgeIdsCollideIff(f, g);
      if part :| Shifted(f, g, part) { ShiftedHasArrows(f, g, part); }
      if part :| Shifted(g, f, part) { ShiftedHasArrows(g, f, part); }
    }
  }

  /** Every edge has the id of its ends, and is a relation that was found. */
  ghost predicate EdgesSound(edges: seq<Edge>, facts: seq<Fact>) {
    forall e :: e in edges ==>
        e.id == EdgeId(e.from, e.to, e.relationship) && IsRelated(facts, e.from, e.to, e.relationship)
  }

  predicate HasId(edges: seq<Edge>, id: string) {
    exists e :: e in edges && e.id == id
  }

  /** Every relation that was found has an edge of its id. */
  ghost predicate IdsCovered(edges: seq<Edge>, facts: seq<Fact>) {
    forall f :: f in facts && f.Related? && f.from != f.to ==> HasId(edges, FactId(f))
  }

  lemma EdgesNext(s: Shape, facts: seq<Fact>, fact: Fact)
    requires EdgesSound(s.edges, facts) && IdsCovered(s.edges, facts) && fact.Related?
    ensures EdgesSound(After(s, fact).edges, facts + [fact]) && IdsCovered(After(s, fact).edges, facts + [fact])
  {
    var facts', edges := facts + [fact], After(s, fact).edges;
    assert facts'[|facts|] == fact;
    assert forall f :: f in facts' <==> f in facts || f == fact;
    if fact.from != fact.to {
      var i := IndexOf(s.edges, EdgeKey(), FactId(fact));
      if i.Some? {
        assert edges[i.value] in edges;
        SameEnds(s.edges, edges);
      } else {
        assert edges[|s.edges|] in edges;
        assert forall e :: e in edges <==> e in s.edges || e == edges[|s.edges|];
      }
    }
  }

  lemma SameEnds(edges: seq<Edge>, edges': seq<Edge>)
    requires |edges| == |edges'|
    requires forall j :: 0 <= j < |edges| ==> edges'[j].(evidence := []) == edges[j].(evidence := [])
    ensures forall id :: HasId(edges, id) ==> HasId(edges', id)
    ensures forall e :: e in edges' ==> exists d :: d in edges && e.(evidence := []) == d.(evidence := [])
  {
    forall id | HasId(edges, id) ensures HasId(edges', id) {
      var e :| e in edges && e.id == id;
      var j :| 0 <= j < |edges| && edges[j] == e;
      assert edges'[j] in edges';
    }
    forall e | e in edges' ensures exists d :: d in edges && e.(evidence := []) == d.(evidence := []) {
      var j :| 0 <= j < |edges'| && edges'[j] == e;
      assert edges[j] in edges;
    }
  }

  lemma {:induction false} RecordedEdges(facts: seq<Fact>)
    ensures EdgesSound(Recorded(facts).edges, facts) && IdsCovered(Recorded(facts).edges, facts)
    decreases |facts|
  {
    if facts != [] {
      var rest, last := facts[..|facts| - 1], facts[|facts| - 1];
      assert facts == rest + [last];
      RecordedEdges(rest);
      if last.Related? {
        EdgesNext(Recorded(rest), rest, last);
      }
    }
  }

  /** Every edge is a relation that was found, under its own id, and every relation has an edge of its id. */
  lemma EdgesAreRelations(a: Analysis, display: Display, le: (string, string) -> bool)
    ensures EdgesSound(Built(a, display, le).edges, Facts(a, display))
    ensures forall f :: f in Facts(a, display) && f.Related? ==> HasId(Built(a, display, le).edges, FactId(f))
  {
    var facts := Facts(a, display);
    RecordedEdges(facts);
    SameMembers(Recorded(facts).edges, Built(a, display, le).edges);
    forall f | f in facts && f.Related? ensures HasId(Built(a, display, le).edges, FactId(f)) {
      RelatedDescends(a, display, f);
      var e :| e in Recorded(facts).edges && e.id == FactId(f);
      assert e in Built(a, display, le).edges;
    }
  }

  lemma RelatedDescends(a: Analysis, display: Display, f: Fact)
    requires f in Facts(a, display) && f.Related?
    ensures f.from != f.to
  {
    FactsAreGrounded(a, display);
    var facts := Facts(a, display);
    var i :| 0 <= i < |facts| && facts[i] == f;
    assert Sound(facts[i], {} + Named(facts[..i]));
  }

  /** The edges are the relations that were found, neither more nor less. */
  ghost predicate EdgesMatch(edges: seq<Edge>, facts: seq<Fact>) {
    forall from, to, r :: HasEdge(edges, from, to, r) <==> IsRelated(facts, from, to, r)
  }

  lemma InjectiveIdsMatch(edges: seq<Edge>, facts: seq<Fact>)
    requires EdgesSound(edges, facts) && InjectiveIds(facts)
    requires forall f :: f in facts && f.Related? ==> HasId(edges, FactId(f))
    ensures EdgesMatch(edges, facts)
  {
    forall from, to, r | IsRelated(facts, from, to, r) ensures HasEdge(edges, from, to, r) {
      var f :| f in facts && f.Related? && f.from == from && f.to == to && f.relationship == r;
      var e :| e in edges && e.id == FactId(f);
      var g :| g in facts && g.Related? && g.from == e.from && g.to == e.to && g.relationship == e.relationship;
      assert SameRelation(f, g);
    }
  }

  /** Two edges cannot share an id, so two relations that do cannot both have an edge. */
  lemma OneEdgePerId(edges: seq<Edge>, facts: seq<Fact>, f: Fact, g: Fact)
    requires EdgesSound(edges, facts) && UniqueBy(edges, EdgeKey())
    requires f.Related? && g.Related? && FactId(f) == FactId(g)
    requires HasEdge(edges, f.from, f.to, f.relationship) && HasEdge(edges, g.from, g.to, g.relationship)
    ensures SameRelation(f, g)
  {
    var d :| d in edges && d.from == f.from && d.to == f.to && d.relationship == f.relationship;
    var e :| e in edges && e.from == g.from && e.to == g.to && e.relationship == g.relationship;
    var i, j :| 0 <= i < |edges| && 0 <= j < |edges| && edges[i] == d && edges[j] == e;
    assert EdgeKey()(edges[i]) == EdgeKey()(edges[j]);
  }

  lemma MatchingIdsAreInjective(edges: seq<Edge>, facts: seq<Fact>)
    requires EdgesSound(edges, facts) && UniqueBy(edges, EdgeKey()) && EdgesMatch(edges, facts)
    ensures InjectiveIds(facts)
  {
    forall f, g | f in facts && g in facts && f.Related? && g.Related? && FactId(f) == FactId(g)
        ensures SameRelation(f, g) {
      assert IsRelated(facts, f.from, f.to, f.relationship) && IsRelated(facts, g.from, g.to, g.relationship);
      OneEdgePerId(edges, facts, f, g);
    }
  }

  /** Of two relations that alone share an id, the graph has one. */
  lemma OneOfTwo(edges: seq<Edge>, facts: seq<Fact>, f: Fact, g: Fact)
    requires EdgesSound(edges, facts) && UniqueBy(edges, EdgeKey()) && f.Related? && g.Related?
    requires FactId(f) == FactId(g) && !SameRelation(f, g) && HasId(edges, FactId(f))
    requires forall h :: h in facts && h.Related? && FactId(h) == FactId(f) ==> SameRelation(h, f) || SameRelation(h, g)
    ensures HasEdge(edges, f.from, f.to, f.relationship) <==> !HasEdge(edges, g.from, g.to, g.relationship)
  {
    if HasEdge(edges, f.from, f.to, f.relationship) && HasEdge(edges, g.from, g.to, g.relationship) {
      OneEdgePerId(edges, facts, f, g);
    }
    var e :| e in edges && e.id == FactId(f);
    var h :| h in facts && h.Related? && h.from == e.from && h.to == e.to && h.relationship == e.relationship;
    assert SameRelation(h, f) || SameRelation(h, g);
  }

  /** The edges of a built graph are exactly the relations that were found, if and only if no two of these share
      an id. */
  lemma EdgesMatchIff(a: Analysis, display: Display, le: (string, string) -> bool)
    ensures EdgesMatch(Built(a, display, le).edges, Facts(a, display)) <==> InjectiveIds(Facts(a, display))
  {
    var edges, facts := Built(a, display, le).edges, Facts(a, display);
    EdgesAreRelations(a, display, le);
    BuiltGraphsAreWellFormed(a, display, le);
    if InjectiveIds(facts) { InjectiveIdsMatch(edges, facts); }
    if EdgesMatch(edges, facts) { MatchingIdsAreInjective(edges, facts); }
  }

  /** Relations do get lost: of these two, both found in one analysis, the graph has one edge, which is either
      of them. */
  lemma ArrowsCollide(display: Display, le: (string, string) -> bool)
    ensures var facts, edges := Facts(ArrowAnalysis(), display), Built(ArrowAnalysis(), display, le).edges;
            && First() in facts && Second() in facts && !InjectiveIds(facts)
            && (HasEdge(edges, First().from, First().to, Invokes) <==>
                !HasEdge(edges, Second().from, Second().to, Invokes))
  {
    ArrowRelations(display);
    ArrowIds();
    OneOfTwoUses(ArrowAnalysis(), display, le, First(), Second());
  }

  lemma OneOfTwoUses(a: Analysis, display: Display, le: (string, string) -> bool, f: Fact, g: Fact)
    requires f != g && IsUse(f) && IsUse(g) && FactId(f) == FactId(g) && !SameRelation(f, g)
    requires forall h :: h in Facts(a, display) && IsUse(h) <==> h == f || h == g
    ensures f in Facts(a, display) && g in Facts(a, display) && !InjectiveIds(Facts(a, display))
    ensures HasEdge(Built(a, display, le).edges, f.from, f.to, Invokes) <==>
            !HasEdge(Built(a, display, le).edges, g.from, g.to, Invokes)
  {
    EdgesAreRelations(a, display, le);
    BuiltGraphsAreWellFormed(a, display, le);
    forall h | h in Facts(a, display) && h.Related? && FactId(h) == FactId(f) ensures h == f || h == g {
      IdShowsRelationship(h, f);
    }
    OneOfTwo(Built(a, display, le).edges, Facts(a, display), f, g);
  }

  lemma ArrowIds()
    ensures FactId(First()) == FactId(Second()) && !SameRelation(First(), Second())
  {
    assert Shifted(First(), Second(), "capability:s:b");
    ShiftedShareId(First(), Second(), "capability:s:b");
    assert |First().from| < |Second().from|;
  }

  lemma IdShowsRelationship(f: Fact, g: Fact)
    requires f.Related? && g.Related? && FactId(f) == FactId(g)
    ensures f.relationship == g.relationship
  {
    SuffixDetermines(f.from + ARROW + f.to, g.from + ARROW + g.to, f.relationship, g.relationship);
  }

  const PLAIN := Evidence("a", None, "", High)
  const WITH_ARROW := Evidence("a->capability:s:b", None, "", High)
  const SERVICE := Observation("s", "", Active, High, [])
  const LONG_NAME := CapabilityUse("s", "b->capability:s:c", "", High, [PLAIN])
  const SHORT_NAME := CapabilityUse("s", "c", "", High, [WITH_ARROW])

  function ArrowAnalysis(): Analysis {
    Analysis("commit", [SERVICE], [LONG_NAME, SHORT_NAME], [])
  }

  function First(): Fact { Related("file:a", "capability:s:b->capability:s:c", Invokes, [PLAIN]) }
  function Second(): Fact { Related("file:a->capability:s:b", "capability:s:c", Invokes, [WITH_ARROW]) }

  lemma OneFactOf<T>(x: T, f: T -> seq<Fact>)
    ensures FlatMap([x], f) == f(x)
  {
    assert FlatMap([], f) == [] && [x][..0] == [];
  }

  lemma TwoFactsOf<T>(x: T, y: T, f: T -> seq<Fact>)
    ensures FlatMap([x, y], f) == f(x) + f(y)
  {
    OneFactOf(x, f);
    assert [x, y][..1] == [x];
  }

  /** The facts about a capability that one file shows. */
  lemma OneUse(display: Display, c: CapabilityUse, e: Evidence)
    requires c.evidence == [e]
    ensures var uses := CapabilityFacts(SERVICE, display)(c);
            UseIsLast(uses) && uses[3] == Related(NodeId(File, e.file), CapabilityId(SERVICE, c), Invokes, [e])
  {
    OneFactOf(e, UseFacts(CapabilityId(SERVICE, c)));
  }

  lemma ArrowFacts(display: Display)
    ensures Facts(ArrowAnalysis(), display) ==
            [Observed(ServiceNode(SERVICE, display))]
            + CapabilityFacts(SERVICE, display)(LONG_NAME) + CapabilityFacts(SERVICE, display)(SHORT_NAME)
  {
    var a := ArrowAnalysis();
    assert CapabilitiesOf(a, SERVICE) == [LONG_NAME, SHORT_NAME] by {
      assert a.capabilities[1..] == [SHORT_NAME] && [SHORT_NAME][1..] == [];
    }
    assert SignalsOf(a, SERVICE) == [];
    OneFactOf(SERVICE, ObservationFacts(a, display));
    TwoFactsOf(LONG_NAME, SHORT_NAME, CapabilityFacts(SERVICE, display));
  }

  /** The relations of use in this analysis. */
  lemma ArrowRelations(display: Display)
    ensures forall f :: f in Facts(ArrowAnalysis(), display) && IsUse(f) <==> f == First() || f == Second()
  {
    ArrowFacts(display);
    LongUse(display);
    ShortUse(display);
    TwoUses(Observed(ServiceNode(SERVICE, display)), CapabilityFacts(SERVICE, display)(LONG_NAME),
            CapabilityFacts(SERVICE, display)(SHORT_NAME));
  }

  lemma LongUse(display: Display)
    ensures var uses := CapabilityFacts(SERVICE, display)(LONG_NAME); UseIsLast(uses) && uses[3] == First()
  {
    OneUse(display, LONG_NAME, PLAIN);
    LongIds();
  }

  lemma LongIds()
    ensures NodeId(File, PLAIN.file) == First().from && CapabilityId(SERVICE, LONG_NAME) == First().to
  {
  }

  lemma ShortUse(display: Display)
    ensures var uses := CapabilityFacts(SERVICE, display)(SHORT_NAME); UseIsLast(uses) && uses[3] == Second()
  {
    OneUse(display, SHORT_NAME, WITH_ARROW);
    ShortIds();
  }

  lemma ShortIds()
    ensures NodeId(File, WITH_ARROW.file) == Second().from && CapabilityId(SERVICE, SHORT_NAME) == Second().to
  {
  }

  predicate IsUse(f: Fact) {
    f.Related? && f.relationship == Invokes
  }

  predicate UseIsLast(facts: seq<Fact>) {
    |facts| == 4 && !IsUse(facts[0]) && !IsUse(facts[1]) && !IsUse(facts[2]) && IsUse(facts[3])
  }

  lemma TwoUses(service: Fact, b: seq<Fact>, c: seq<Fact>)
    requires !IsUse(service) && UseIsLast(b) && UseIsLast(c)
    ensures forall f :: f in [service] + b + c && IsUse(f) <==> f == b[3] || f == c[3]
  {
    assert forall f :: f in [service] + b + c <==> f == service || f in b || f in c;
  }

  lemma {:induction false} InFlatMap<T>(xs: seq<T>, f: T -> seq<Fact>, x: T, fact: Fact)
    requires x in xs && fact in f(x)
    ensures fact in FlatMap(xs, f)
  {
    if x != xs[|xs| - 1] {
      assert xs == xs[..|xs| - 1] + [xs[|xs| - 1]];
      InFlatMap(xs[..|xs| - 1], f, x, fact);
    }
  }

  // ---- removal analysis on a built graph ----

  /** Edges that lead downwards make no cycle, and no walk of more than two edges. */
  lemma {:induction false} WalksAreShort(edges: seq<Edge>, from: string, to: string, n: nat)
    requires Descending(edges) && Walk(edges, from, to, n)
    ensures Height(from) >= Height(to) + n && n <= 2 && (from == to ==> n == 0)
    decreases n
  {
    if n > 0 {
      var e :| e in edges && e.from == from && Walk(edges, e.to, to, n - 1);
      WalksAreShort(edges, e.to, to, n - 1);
    }
  }

  lemma WalksStartAtNodes(nodes: seq<Node>, edges: seq<Edge>, from: string, to: string, n: nat)
    requires WellFormed(nodes, edges) && n > 0 && Walk(edges, from, to, n)
    ensures exists node :: node in nodes && node.id == from
  {
    var e :| e in edges && e.from == from && Walk(edges, e.to, to, n - 1);
    assert from in IdsOf(nodes);
  }

  /** Removal analysis of a well-formed graph drops no id that reaches the service, and what is affected
      indirectly is a file at distance exactly two. */
  lemma RemovalIsComplete(g: Graph, service: string, hits: seq<Hit>, id: string)
    requires WellFormed(g.nodes, g.edges) && NodeId(Service, "") <= service && Exact(g, service, hits)
    ensures id in Summary(service, hits).affectedNodeIds <==> id != service && Reaches(g.edges, id, service)
    ensures id in Summary(service, hits).indirectNodeIds ==> Distance(g.edges, id, service, 2) && NodeId(File, "") <= id
  {
    ImpactIsExact(g, service, hits, id);
    if Reaches(g.edges, id, service) && id != service {
      var n: nat :| Walk(g.edges, id, service, n);
      WalksStartAtNodes(g.nodes, g.edges, id, service, n);
    }
    if id in Summary(service, hits).indirectNodeIds {
      var h := IndirectHit(hits, id);
      IndirectIsTwo(g, service, id, h.depth);
    }
  }

  ghost function IndirectHit(hits: seq<Hit>, id: string): (h: Hit)
    requires id in Map(Filter(hits, IsIndirect()), IdOf())
    ensures h in hits && h.node.id == id && h.depth > 1
  {
    MapMembers(Filter(hits, IsIndirect()), IdOf(), id);
    InFilter(hits, IsIndirect());
    var h :| h in hits && h.node.id == id && h.depth > 1;
    h
  }

  lemma IndirectIsTwo(g: Graph, service: string, id: string, n: nat)
    requires WellFormed(g.nodes, g.edges) && NodeId(Service, "") <= service && n > 1
        && Distance(g.edges, id, service, n)
    ensures n == 2 && NodeId(File, "") <= id
  {
    WalksAreShort(g.edges, id, service, n);
    WalksStartAtNodes(g.nodes, g.edges, id, service, n);
    HeightOfKind(Service, service);
    var node :| node in g.nodes && node.id == id;
    HeightOfKind(node.kind, id);
  }

  // ---- what belongs to a service ----

  /** The signal was seen where the service was: at some evidence of its observation or of a use of it. */
  predicate Belongs(a: Analysis, o: Observation, s: Signal) {
    && s in a.signals
    && ((exists e :: e in o.evidence && EvidenceKey(e) == EvidenceKey(s.evidence))
        || (exists c, e :: c in a.capabilities && c.serviceId == o.serviceId && e in c.evidence
                           && EvidenceKey(e) == EvidenceKey(s.evidence)))
  }

  lemma CapabilitiesAreThoseOfTheService(a: Analysis, o: Observation, c: CapabilityUse)
    ensures c in CapabilitiesOf(a, o) <==> c in a.capabilities && c.serviceId == o.serviceId
  {
    InFilter(a.capabilities, OfService(o.serviceId));
  }

  /** The signals taken for a service are exactly those that belong to it. */
  lemma SignalsAreThoseOfTheService(a: Analysis, o: Observation, s: Signal)
    ensures s in SignalsOf(a, o) <==> Belongs(a, o, s)
  {
    InFilter(a.signals, Matching(ServiceEvidence(a, o)));
    InFilter(a.capabilities, OfService(o.serviceId));
  }

  /** Removal analysis aims at the service it is asked about, unless the name of the service itself starts
      like a node id. */
  lemma TargetIsTheServiceIff(serviceId: string)
    ensures TargetOf(serviceId) == NodeId(Service, serviceId) <==> !("service:" <= serviceId)
  {
    assert |NodeId(Service, serviceId)| > |serviceId|;
  }

  lemma CapabilityRelations(a: Analysis, display: Display, o: Observation, c: CapabilityUse, e: Evidence)
    requires o in a.observations && o.status != Inactive && c in CapabilitiesOf(a, o) && e in c.evidence
    ensures IsRelated(Facts(a, display), NodeId(File, e.file), CapabilityId(o, c), Invokes)
    ensures IsRelated(Facts(a, display), CapabilityId(o, c), NodeId(Service, o.serviceId), Requires)
  {
    var file, capability := NodeId(File, e.file), CapabilityId(o, c);
    var uses, own := CapabilityFacts(o, display)(c), ObservationFacts(a, display)(o);
    var use, need := Related(file, capability, Invokes, [e]),
      Related(capability, NodeId(Service, o.serviceId), Requires, c.evidence);
    assert use == UseFacts(capability)(e)[1];
    InFlatMap(c.evidence, UseFacts(capability), e, use);
    assert need == uses[1];
    InFlatMap(CapabilitiesOf(a, o), CapabilityFacts(o, display), c, use);
    InFlatMap(CapabilitiesOf(a, o), CapabilityFacts(o, display), c, need);
    InFlatMap(a.observations, ObservationFacts(a, display), o, use);
    InFlatMap(a.observations, ObservationFacts(a, display), o, need);
  }

  lemma ChainIsAffected(g: Graph, file: string, middle: string, kind: Kind, service: string, r: Relationship,
      q: Relationship, hits: seq<Hit>)
    requires WellFormed(g.nodes, g.edges) && Exact(g, service, hits)
    requires NodeId(File, "") <= file && NodeId(kind, "") <= middle && NodeId(Service, "") <= service
    requires kind != Service && HasEdge(g.edges, file, middle, r) && HasEdge(g.edges, middle, service, q)
    ensures file in Summary(service, hits).affectedNodeIds && middle in Summary(service, hits).directNodeIds
  {
    EdgeWalks(g.edges, middle, service, q);
    TwoEdgesWalk(g.edges, file, middle, service, r);
    HeightOfKind(File, file);
    HeightOfKind(kind, middle);
    HeightOfKind(Service, service);
    RemovalIsComplete(g, service, hits, file);
    RemovalIsComplete(g, service, hits, middle);
    ImpactIsExact(g, service, hits, middle);
  }

  lemma EdgeIsAffected(g: Graph, file: string, service: string, r: Relationship, hits: seq<Hit>)
    requires WellFormed(g.nodes, g.edges) && Exact(g, service, hits)
    requires NodeId(File, "") <= file && NodeId(Service, "") <= service && HasEdge(g.edges, file, service, r)
    ensures file in Summary(service, hits).directNodeIds
  {
    EdgeWalks(g.edges, file, service, r);
    HeightOfKind(File, file);
    HeightOfKind(Service, service);
    RemovalIsComplete(g, service, hits, file);
    ImpactIsExact(g, service, hits, file);
  }

  /** No use is missed: a file that shows a capability of an observed service is affected by the removal
      of the service, and the capability is affected directly. */
  lemma CapabilityFilesAreAffected(a: Analysis, display: Display, le: (string, string) -> bool, o: Observation,
    c: CapabilityUse, e: Evidence, hits: seq<Hit>)
    requires InjectiveIds(Facts(a, display))
    requires o in a.observations && o.status != Inactive
    requires c in a.capabilities && c.serviceId == o.serviceId && e in c.evidence
    requires Exact(Built(a, display, le), NodeId(Service, o.serviceId), hits)
    ensures var impact := Summary(NodeId(Service, o.serviceId), hits);
            NodeId(File, e.file) in impact.affectedNodeIds && CapabilityId(o, c) in impact.directNodeIds
  {
    CapabilitiesAreThoseOfTheService(a, o, c);
    CapabilityRelations(a, display, o, c, e);
    IdShowsKind(Capability, o.serviceId + ":" + c.capabilityId);
    IdShowsKind(File, e.file);
    IdShowsKind(Service, o.serviceId);
    RelatedChainIsAffected(
      a, display, le, NodeId(File, e.file), CapabilityId(o, c), Capability, NodeId(Service, o.serviceId), Invokes,
        Requires, hits);
  }

  lemma SignalFactsAreFacts(a: Analysis, display: Display, o: Observation, s: Signal, f: Fact)
    requires o in a.observations && o.status != Inactive && s in SignalsOf(a, o) && f in SignalFacts(o, display)(s)
    ensures f in Facts(a, display)
  {
    InFlatMap(SignalsOf(a, o), SignalFacts(o, display), s, f);
    InFlatMap(a.observations, ObservationFacts(a, display), o, f);
  }

  lemma CallRelation(a: Analysis, display: Display, o: Observation, s: Signal)
    requires o in a.observations && o.status != Inactive && s in SignalsOf(a, o) && SignalNodeKind(s).None?
    ensures IsRelated(Facts(a, display), NodeId(File, s.evidence.file), NodeId(Service, o.serviceId),
        SignalRelationship(s))
  {
    var facts := SignalFacts(o, display)(s);
    assert facts[1] in facts;
    SignalFactsAreFacts(a, display, o, s, facts[1]);
  }

  lemma SignalRelations(a: Analysis, display: Display, o: Observation, s: Signal, kind: Kind)
    requires o in a.observations && o.status != Inactive && s in SignalsOf(a, o) && SignalNodeKind(s) == Some(kind)
    ensures var id := SignalNode(o, s, kind, display).id;
            && NodeId(kind, "") <= id && kind != Service
            && IsRelated(Facts(a, display), NodeId(File, s.evidence.file), id, SignalRelationship(s))
            && IsRelated(Facts(a, display), id, NodeId(Service, o.serviceId), SignalRelationship(s))
  {
    var facts := SignalFacts(o, display)(s);
    assert facts[2] in facts && facts[3] in facts;
    SignalFactsAreFacts(a, display, o, s, facts[2]);
    SignalFactsAreFacts(a, display, o, s, facts[3]);
    IdShowsKind(kind, o.serviceId + ":" + s.value);
  }

  /** No relation is missed: a file with an edge to a service is affected directly by its removal. */
  lemma RelatedFileIsAffected(a: Analysis, display: Display, le: (string, string) -> bool, file: string,
      service: string, r: Relationship, hits: seq<Hit>)
    requires InjectiveIds(Facts(a, display)) && Exact(Built(a, display, le), service, hits)
    requires NodeId(File, "") <= file && NodeId(Service, "") <= service
        && IsRelated(Facts(a, display), file, service, r)
    ensures file in Summary(service, hits).directNodeIds
  {
    BuiltGraphsAreWellFormed(a, display, le);
    EdgesMatchIff(a, display, le);
    EdgeIsAffected(Built(a, display, le), file, service, r, hits);
  }

  /** Nor is a chain: what a file declares is affected directly, and the file with it. */
  lemma RelatedChainIsAffected(a: Analysis, display: Display, le: (string, string) -> bool, file: string,
      middle: string, kind: Kind, service: string, r: Relationship, q: Relationship, hits: seq<Hit>)
    requires InjectiveIds(Facts(a, display)) && Exact(Built(a, display, le), service, hits)
    requires NodeId(File, "") <= file && NodeId(kind, "") <= middle && NodeId(Service, "") <= service && kind != Service
    requires IsRelated(Facts(a, display), file, middle, r) && IsRelated(Facts(a, display), middle, service, q)
    ensures file in Summary(service, hits).affectedNodeIds && middle in Summary(service, hits).directNodeIds
  {
    BuiltGraphsAreWellFormed(a, display, le);
    EdgesMatchIff(a, display, le);
    ChainIsAffected(Built(a, display, le), file, middle, kind, service, r, q, hits);
  }

  /** No signal that names a package, a setting or a resource is missed: its file is affected by the removal of
      the service it belongs to, and what it names is affected directly. */
  lemma SignalFilesAreAffected(a: Analysis, display: Display, le: (string, string) -> bool, o: Observation, s: Signal,
    hits: seq<Hit>)
    requires InjectiveIds(Facts(a, display)) && Exact(Built(a, display, le), NodeId(Service, o.serviceId), hits)
    requires o in a.observations && o.status != Inactive && Belongs(a, o, s) && SignalNodeKind(s).Some?
    ensures var impact := Summary(NodeId(Service, o.serviceId), hits);
            && NodeId(File, s.evidence.file) in impact.affectedNodeIds
            && SignalNode(o, s, SignalNodeKind(s).value, display).id in impact.directNodeIds
  {
    var kind := SignalNodeKind(s).value;
    SignalsAreThoseOfTheService(a, o, s);
    SignalRelations(a, display, o, s, kind);
    IdShowsKind(File, s.evidence.file);
    IdShowsKind(Service, o.serviceId);
    RelatedChainIsAffected(
      a, display, le, NodeId(File, s.evidence.file), SignalNode(o, s, kind, display).id, kind,
        NodeId(Service, o.serviceId), SignalRelationship(s), SignalRelationship(s), hits);
  }

  /** The file of any other signal is affected directly. */
  lemma CallingFilesAreAffected(a: Analysis, display: Display, le: (string, string) -> bool, o: Observation, s: Signal,
    hits: seq<Hit>)
    requires InjectiveIds(Facts(a, display)) && Exact(Built(a, display, le), NodeId(Service, o.serviceId), hits)
    requires o in a.observations && o.status != Inactive && Belongs(a, o, s) && SignalNodeKind(s).None?
    ensures NodeId(File, s.evidence.file) in Summary(NodeId(Service, o.serviceId), hits).directNodeIds
  {
    SignalsAreThoseOfTheService(a, o, s);
    CallRelation(a, display, o, s);
    IdShowsKind(File, s.evidence.file);
    IdShowsKind(Service, o.serviceId);
    RelatedFileIsAffected(
      a, display, le, NodeId(File, s.evidence.file), NodeId(Service, o.serviceId), SignalRelationship(s), hits);
  }

  lemma EdgeWalks(edges: seq<Edge>, from: string, to: string, r: Relationship)
    requires HasEdge(edges, from, to, r)
    ensures Walk(edges, from, to, 1) && (from != to ==> Distance(edges, from, to, 1))
  {
    var e :| e in edges && e.from == from && e.to == to && e.relationship == r;
    assert Walk(edges, e.to, to, 0);
  }

  lemma TwoEdgesWalk(edges: seq<Edge>, from: string, middle: string, to: string, r: Relationship)
    requires HasEdge(edges, from, middle, r) && Walk(edges, middle, to, 1)
    ensures Walk(edges, from, to, 2)
  {
    var e :| e in edges && e.from == from && e.to == middle && e.relationship == r;
  }

  // ---- evidence ----

  /** A node holds the evidence that was observed for it, and no other. */
  ghost predicate EvidenceMatches(nodes: seq<Node>, facts: seq<Fact>) {
    forall n, k :: n in nodes ==> (k in Keys(n.evidence) <==> Shown(facts, n.id, k))
  }

  predicate Shown(facts: seq<Fact>, id: string, key: string) {
    exists f :: f in facts && f.Observed? && f.node.id == id && key in Keys(f.node.evidence)
  }

  lemma ShownNext(facts: seq<Fact>, fact: Fact, id: string, key: string)
    ensures Shown(facts + [fact], id, key) <==>
            Shown(facts, id, key) || (fact.Observed? && fact.node.id == id && key in Keys(fact.node.evidence))
  {
    assert (facts + [fact])[|facts|] == fact;
    assert forall f :: f in facts + [fact] <==> f in facts || f == fact;
  }

  lemma KeysOfMerged(existing: Node, node: Node)
    ensures Keys(MergedNode(existing, node).evidence) == Keys(existing.evidence) + Keys(node.evidence)
  {
    assert forall e :: e in existing.evidence + node.evidence <==> e in existing.evidence || e in node.evidence;
  }

  lemma EvidenceMatchesNext(nodes: seq<Node>, facts: seq<Fact>, node: Node)
    requires EvidenceMatches(nodes, facts) && UniqueBy(nodes, NodeKey()) && IdsOf(nodes) == Named(facts)
    ensures EvidenceMatches(After(Shape(nodes, []), Observed(node)).nodes, facts + [Observed(node)])
  {
    var nodes' := After(Shape(nodes, []), Observed(node)).nodes;
    var i := IndexOf(nodes, NodeKey(), node.id);
    forall n, k | n in nodes' ensures k in Keys(n.evidence) <==> Shown(facts + [Observed(node)], n.id, k) {
      ShownNext(facts, Observed(node), n.id, k);
      var j :| 0 <= j < |nodes'| && nodes'[j] == n;
      if i.Some? {
        assert nodes[j] in nodes;
        KeysOfMerged(nodes[i.value], node);
        assert i.value != j ==> NodeKey()(nodes[i.value]) != NodeKey()(nodes[j]);
      } else if j < |nodes| {
        assert nodes[j] in nodes;
      } else {
        assert node.id !in IdsOf(nodes);
      }
    }
  }

  lemma {:induction false} RecordedEvidence(facts: seq<Fact>, k: nat)
    requires SoundUpTo(facts, k)
    ensures EvidenceMatches(Recorded(facts[..k]).nodes, facts[..k])
    decreases k
  {
    if k > 0 {
      RecordedEvidence(facts, k - 1);
      RecordedIsWellFormed(facts, k - 1);
      EvidenceOfPrefix(facts, k);
    }
  }

  lemma EvidenceOfPrefix(facts: seq<Fact>, k: nat)
    requires 0 < k <= |facts| && GoodRecord(facts[..k - 1])
        && EvidenceMatches(Recorded(facts[..k - 1]).nodes, facts[..k - 1])
    ensures EvidenceMatches(Recorded(facts[..k]).nodes, facts[..k])
  {
    assert facts[..k] == facts[..k - 1] + [facts[k - 1]];
    EvidenceOfNext(facts[..k - 1], facts[k - 1]);
  }

  lemma EvidenceOfNext(rest: seq<Fact>, last: Fact)
    requires GoodRecord(rest) && EvidenceMatches(Recorded(rest).nodes, rest)
    ensures EvidenceMatches(Recorded(rest + [last]).nodes, rest + [last])
  {
    AfterAllAppend(Shape([], []), rest, [last]);
    AfterOne(Recorded(rest), [last]);
    if last.Observed? {
      EvidenceMatchesNext(Recorded(rest).nodes, rest, last.node);
      assert After(Shape(Recorded(rest).nodes, []), last).nodes == After(Recorded(rest), last).nodes;
    } else {
      forall n, k | n in Recorded(rest).nodes ensures Shown(rest + [last], n.id, k) <==> Shown(rest, n.id, k) {
        ShownNext(rest, last, n.id, k);
      }
    }
  }

  /** No evidence is lost and none is made up: a node of the built graph holds exactly the evidence, up to
      its key, that was observed for its id. */
  lemma EvidenceIsKept(a: Analysis, display: Display, le: (string, string) -> bool)
    ensures EvidenceMatches(Built(a, display, le).nodes, Facts(a, display))
  {
    var facts := Facts(a, display);
    FactsAreGrounded(a, display);
    forall i | 0 <= i < |facts| ensures Sound(facts[i], Named(facts[..i])) {
      assert {} + Named(facts[..i]) == Named(facts[..i]);
    }
    assert facts[..|facts|] == facts;
    RecordedEvidence(facts, |facts|);
    SameMembers(Recorded(facts).nodes, Built(a, display, le).nodes);
  }
}
