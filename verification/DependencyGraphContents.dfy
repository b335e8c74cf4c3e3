/** What exactly a built graph holds, read off the analysis: which nodes, and which relations between them. */
module DependencyGraphContents {
  import opened Wrappers
  import opened Sorting
  import opened Lists
  import opened DependencyGraph
  import opened DependencyGraphBuilder
  import opened DependencyGraphTheorems

  // ---- the analysis, in plain terms ----

  function ServiceName(o: Observation): string { "service:" + o.serviceId }

  function CapabilityName(o: Observation, c: CapabilityUse): string {
    "capability:" + o.serviceId + ":" + c.capabilityId
  }

  function FileName(e: Evidence): string { "file:" + e.file }

  /** What a signal names in the graph, and how it is related: a package that is imported, a setting that
      configures, or a declared resource. Any other signal is a call. */
  function ThingName(o: Observation, s: Signal): string
    requires !IsCall(s)
  {
    (match s.kind
     case EnvironmentName => "configuration:"
     case InfrastructureDeclaration => "infrastructure:"
     case _ => "package:") + o.serviceId + ":" + s.value
  }

  function Relation(s: Signal): Relationship {
    match s.kind
    case EnvironmentName => Configures
    case InfrastructureDeclaration => Declares
    case ManifestDependency => Imports
    case ActiveImport => Imports
    case _ => Invokes
  }

  predicate IsCall(s: Signal) {
    s.kind == ApiHostname || s.kind == RuntimeCall || s.kind == WrapperCall
  }

  predicate Observes(a: Analysis, o: Observation) {
    o in a.observations && (o.status == Active || o.status == Ambiguous)
  }

  predicate Uses(a: Analysis, o: Observation, c: CapabilityUse) {
    Observes(a, o) && c in a.capabilities && c.serviceId == o.serviceId
  }

  predicate Signals(a: Analysis, o: Observation, s: Signal) {
    Observes(a, o) && Belongs(a, o, s)
  }

  /** The node ids of the analysis. */
  ghost predicate IsNamed(a: Analysis, id: string) {
    || (exists o :: Observes(a, o) && id == ServiceName(o))
    || (exists o, c :: Uses(a, o, c) && id == CapabilityName(o, c))
    || (exists o, c, e :: Uses(a, o, c) && e in c.evidence && id == FileName(e))
    || (exists o, s :: Signals(a, o, s) && id == FileName(s.evidence))
    || (exists o, s :: Signals(a, o, s) && !IsCall(s) && id == ThingName(o, s))
  }

  /** The relations of the analysis. */
  ghost predicate Holds(a: Analysis, from: string, to: string, r: Relationship) {
    || (exists o, c :: Uses(a, o, c) && from == CapabilityName(o, c) && to == ServiceName(o) && r == Requires)
    || (exists o, c, e :: Uses(a, o, c) && e in c.evidence
          && from == FileName(e) && to == CapabilityName(o, c) && r == Invokes)
    || (exists o, s :: Signals(a, o, s) && IsCall(s)
          && from == FileName(s.evidence) && to == ServiceName(o) && r == Invokes)
    || (exists o, s :: Signals(a, o, s) && !IsCall(s)
          && from == ThingName(o, s) && to == ServiceName(o) && r == Relation(s))
    || (exists o, s :: Signals(a, o, s) && !IsCall(s)
          && from == FileName(s.evidence) && to == ThingName(o, s) && r == Relation(s))
  }

  // ---- the facts of the builder ----

  lemma {:induction false} FlatMapMembers<T(!new)>(xs: seq<T>, f: T -> seq<Fact>, fact: Fact)
    ensures fact in FlatMap(xs, f) <==> exists x :: x in xs && fact in f(x)
  {
    if xs != [] {
      var rest, last := xs[..|xs| - 1], xs[|xs| - 1];
      FlatMapMembers(rest, f, fact);
      assert forall x :: x in xs <==> x in rest || x == last by { assert xs == rest + [last]; }
    }
  }

  /** A fact about one use of a capability. */
  predicate OfUse(o: Observation, display: Display, c: CapabilityUse, fact: Fact) {
    || fact == Observed(CapabilityNode(o, c, display))
    || fact == Related(CapabilityId(o, c), NodeId(Service, o.serviceId), Requires, c.evidence)
    || (exists e :: e in c.evidence
          && (fact == Observed(FileNode(e)) || fact == Related(NodeId(File, e.file), CapabilityId(o, c), Invokes, [e])))
  }

  lemma UseFactsAre(o: Observation, display: Display, c: CapabilityUse, fact: Fact)
    ensures fact in CapabilityFacts(o, display)(c) <==> OfUse(o, display, c, fact)
  {
    FlatMapMembers(c.evidence, UseFacts(CapabilityId(o, c)), fact);
  }

  lemma FactsAre(a: Analysis, display: Display, fact: Fact)
    ensures fact in Facts(a, display) <==>
            || (exists o :: Observes(a, o) && fact == Observed(ServiceNode(o, display)))
            || (exists o, c :: Uses(a, o, c) && OfUse(o, display, c, fact))
            || (exists o, s :: Signals(a, o, s) && fact in SignalFacts(o, display)(s))
  {
    FlatMapMembers(a.observations, ObservationFacts(a, display), fact);
    forall o | o in a.observations
      ensures fact in ObservationFacts(a, display)(o) <==>
              Observes(a, o)
              && (fact == Observed(ServiceNode(o, display)) || (exists c :: Uses(a, o, c) && OfUse(o, display, c, fact))
                  || exists s :: Signals(a, o, s) && fact in SignalFacts(o, display)(s)) {
      ObservationFactsAre(a, display, o, fact);
    }
  }

  lemma ObservationFactsAre(a: Analysis, display: Display, o: Observation, fact: Fact)
    requires o in a.observations
    ensures fact in ObservationFacts(a, display)(o) <==>
            Observes(a, o)
            && (fact == Observed(ServiceNode(o, display)) || (exists c :: Uses(a, o, c) && OfUse(o, display, c, fact))
                || exists s :: Signals(a, o, s) && fact in SignalFacts(o, display)(s))
  {
    FlatMapMembers(CapabilitiesOf(a, o), CapabilityFacts(o, display), fact);
    FlatMapMembers(SignalsOf(a, o), SignalFacts(o, display), fact);
    forall c ensures c in CapabilitiesOf(a, o) <==> c in a.capabilities && c.serviceId == o.serviceId {
      CapabilitiesAreThoseOfTheService(a, o, c);
    }
    forall c ensures fact in CapabilityFacts(o, display)(c) <==> OfUse(o, display, c, fact) {
      UseFactsAre(o, display, c, fact);
    }
    forall s ensures s in SignalsOf(a, o) <==> Belongs(a, o, s) {
      SignalsAreThoseOfTheService(a, o, s);
    }
  }

  // ---- names ----

  lemma NamesAre(o: Observation, c: CapabilityUse, e: Evidence)
    ensures NodeId(Service, o.serviceId) == ServiceName(o)
    ensures CapabilityId(o, c) == CapabilityName(o, c)
    ensures NodeId(File, e.file) == FileName(e)
  {
  }

  lemma ThingNamesAre(o: Observation, s: Signal, display: Display)
    ensures IsCall(s) <==> SignalNodeKind(s).None?
    ensures SignalRelationship(s) == Relation(s)
    ensures !IsCall(s) ==> SignalNode(o, s, SignalNodeKind(s).value, display).id == ThingName(o, s)
  {
  }

  // ---- nodes ----

  /** The facts of a signal that name a node. */
  lemma SignalNodes(o: Observation, s: Signal, display: Display, id: string)
    ensures (exists f :: f in SignalFacts(o, display)(s) && f.Observed? && f.node.id == id) <==>
            id == FileName(s.evidence) || (!IsCall(s) && id == ThingName(o, s))
  {
    ThingNamesAre(o, s, display);
    NamesAre(o, CapabilityUse("", "", "", Low, []), s.evidence);
    var facts := SignalFacts(o, display)(s);
    assert facts[0] in facts && facts[1] in facts;
    if IsCall(s) {
      assert facts[0].node.id == FileName(s.evidence) && facts[1].Related?;
    } else {
      assert facts[0].node.id == FileName(s.evidence) && facts[1].node.id == ThingName(o, s);
    }
  }

  lemma UseNodes(o: Observation, display: Display, c: CapabilityUse, id: string)
    ensures (exists f :: OfUse(o, display, c, f) && f.Observed? && f.node.id == id) <==>
            id == CapabilityName(o, c) || exists e :: e in c.evidence && id == FileName(e)
  {
    NamesAre(o, c, Evidence("", None, "", Low));
    if id == CapabilityName(o, c) { assert OfUse(o, display, c, Observed(CapabilityNode(o, c, display))); }
    if e :| e in c.evidence && id == FileName(e) {
      NamesAre(o, c, e);
      assert OfUse(o, display, c, Observed(FileNode(e)));
    }
    if f :| OfUse(o, display, c, f) && f.Observed? && f.node.id == id {
      if f != Observed(CapabilityNode(o, c, display)) {
        var e :| e in c.evidence && f == Observed(FileNode(e));
        NamesAre(o, c, e);
      }
    }
  }

  lemma NamedIsObserved(a: Analysis, display: Display, id: string)
    requires IsNamed(a, id)
    ensures id in Named(Facts(a, display))
  {
    if o :| Observes(a, o) && id == ServiceName(o) {
      NamesAre(o, CapabilityUse("", "", "", Low, []), Evidence("", None, "", Low));
      FactIsNamed(a, display, Observed(ServiceNode(o, display)));
    } else if o, c :| Uses(a, o, c)
                      && (id == CapabilityName(o, c) || exists e :: e in c.evidence && id == FileName(e)) {
      UseNodes(o, display, c, id);
      var f :| OfUse(o, display, c, f) && f.Observed? && f.node.id == id;
      FactIsNamed(a, display, f);
    } else {
      var o, s :| Signals(a, o, s) && (id == FileName(s.evidence) || (!IsCall(s) && id == ThingName(o, s)));
      SignalNodes(o, s, display, id);
      var f :| f in SignalFacts(o, display)(s) && f.Observed? && f.node.id == id;
      FactIsNamed(a, display, f);
    }
  }

  lemma FactIsNamed(a: Analysis, display: Display, f: Fact)
    requires f.Observed?
    requires || (exists o :: Observes(a, o) && f == Observed(ServiceNode(o, display)))
             || (exists o, c :: Uses(a, o, c) && OfUse(o, display, c, f))
             || (exists o, s :: Signals(a, o, s) && f in SignalFacts(o, display)(s))
    ensures f.node.id in Named(Facts(a, display))
  {
    FactsAre(a, display, f);
  }

  lemma ObservedIsNamed(a: Analysis, display: Display, f: Fact)
    requires f in Facts(a, display) && f.Observed?
    ensures IsNamed(a, f.node.id)
  {
    FactsAre(a, display, f);
    if o :| Observes(a, o) && f == Observed(ServiceNode(o, display)) {
      NamesAre(o, CapabilityUse("", "", "", Low, []), Evidence("", None, "", Low));
    } else if o, c :| Uses(a, o, c) && OfUse(o, display, c, f) {
      UseNodes(o, display, c, f.node.id);
    } else {
      var o, s :| Signals(a, o, s) && f in SignalFacts(o, display)(s);
      SignalNodes(o, s, display, f.node.id);
    }
  }

  /** The nodes are the observed services, the capabilities used of them, what their signals name, and the files of all
      these, and no others. */
  lemma NodesAreExactly(a: Analysis, display: Display, le: (string, string) -> bool, id: string)
    ensures HasNode(Built(a, display, le).nodes, id) <==> IsNamed(a, id)
  {
    BuiltGraphsAreWellFormed(a, display, le);
    if IsNamed(a, id) { NamedIsObserved(a, display, id); }
    if id in Named(Facts(a, display)) {
      var f :| f in Facts(a, display) && f.Observed? && f.node.id == id;
      ObservedIsNamed(a, display, f);
    }
  }

  // ---- relations ----

  predicate Relates(f: Fact, from: string, to: string, r: Relationship) {
    f.Related? && f.from == from && f.to == to && f.relationship == r
  }

  lemma SignalRelates(o: Observation, s: Signal, display: Display, from: string, to: string, r: Relationship)
    ensures (exists f :: f in SignalFacts(o, display)(s) && Relates(f, from, to, r)) <==>
            && r == Relation(s)
            && if IsCall(s) then from == FileName(s.evidence) && to == ServiceName(o)
               else
                 || (from == ThingName(o, s) && to == ServiceName(o))
                 || (from == FileName(s.evidence) && to == ThingName(o, s))
  {
    ThingNamesAre(o, s, display);
    NamesAre(o, CapabilityUse("", "", "", Low, []), s.evidence);
    var facts := SignalFacts(o, display)(s);
    if IsCall(s) {
      assert facts[1] in facts && Relates(facts[1], FileName(s.evidence), ServiceName(o), Relation(s));
    } else {
      assert facts[2] in facts && Relates(facts[2], ThingName(o, s), ServiceName(o), Relation(s));
      assert facts[3] in facts && Relates(facts[3], FileName(s.evidence), ThingName(o, s), Relation(s));
    }
  }

  lemma UseRelates(o: Observation, display: Display, c: CapabilityUse, from: string, to: string, r: Relationship)
    ensures (exists f :: OfUse(o, display, c, f) && Relates(f, from, to, r)) <==>
            || (from == CapabilityName(o, c) && to == ServiceName(o) && r == Requires)
            || (exists e :: e in c.evidence && from == FileName(e) && to == CapabilityName(o, c) && r == Invokes)
  {
    NamesAre(o, c, Evidence("", None, "", Low));
    var need := Related(CapabilityId(o, c), NodeId(Service, o.serviceId), Requires, c.evidence);
    assert OfUse(o, display, c, need);
    if e :| e in c.evidence && from == FileName(e) && to == CapabilityName(o, c) && r == Invokes {
      NamesAre(o, c, e);
      assert OfUse(o, display, c, Related(NodeId(File, e.file), CapabilityId(o, c), Invokes, [e]));
    }
    if f :| OfUse(o, display, c, f) && Relates(f, from, to, r) {
      if f != need {
        var e :| e in c.evidence && f == Related(NodeId(File, e.file), CapabilityId(o, c), Invokes, [e]);
        NamesAre(o, c, e);
      }
    }
  }

  lemma HoldingIsRelated(a: Analysis, display: Display, from: string, to: string, r: Relationship)
    requires Holds(a, from, to, r)
    ensures IsRelated(Facts(a, display), from, to, r)
  {
    if o, c :| Uses(a, o, c)
               && ((from == CapabilityName(o, c) && to == ServiceName(o) && r == Requires)
                   || exists e ::
                        e in c.evidence && from == FileName(e) && to == CapabilityName(o, c) && r == Invokes) {
      UseRelates(o, display, c, from, to, r);
      var f :| OfUse(o, display, c, f) && Relates(f, from, to, r);
      FactsAre(a, display, f);
    } else {
      var o, s :| Signals(a, o, s) && r == Relation(s)
                  && if IsCall(s) then from == FileName(s.evidence) && to == ServiceName(o)
                     else (from == ThingName(o, s) && to == ServiceName(o))
                          || (from == FileName(s.evidence) && to == ThingName(o, s));
      SignalRelates(o, s, display, from, to, r);
      var f :| f in SignalFacts(o, display)(s) && Relates(f, from, to, r);
      FactsAre(a, display, f);
    }
  }

  lemma UseHolds(a: Analysis, display: Display, o: Observation, c: CapabilityUse, f: Fact)
    requires Uses(a, o, c) && OfUse(o, display, c, f) && f.Related?
    ensures Holds(a, f.from, f.to, f.relationship)
  {
    assert Relates(f, f.from, f.to, f.relationship);
    UseRelates(o, display, c, f.from, f.to, f.relationship);
  }

  lemma SignalHolds(a: Analysis, display: Display, o: Observation, s: Signal, f: Fact)
    requires Signals(a, o, s) && f in SignalFacts(o, display)(s) && f.Related?
    ensures Holds(a, f.from, f.to, f.relationship)
  {
    assert Relates(f, f.from, f.to, f.relationship);
    SignalRelates(o, s, display, f.from, f.to, f.relationship);
  }

  lemma RelatedHolds(a: Analysis, display: Display, f: Fact)
    requires f in Facts(a, display) && f.Related?
    ensures Holds(a, f.from, f.to, f.relationship)
  {
    FactsAre(a, display, f);
    if o, c :| Uses(a, o, c) && OfUse(o, display, c, f) {
      UseHolds(a, display, o, c, f);
    } else {
      var o, s :| Signals(a, o, s) && f in SignalFacts(o, display)(s);
      SignalHolds(a, display, o, s, f);
    }
  }

  /** The relations that are found are those of the analysis, and where edge ids are unambiguous so are the edges. */
  lemma RelationsAreExactly(a: Analysis, display: Display, le: (string, string) -> bool, from: string, to: string,
                            r: Relationship)
    ensures IsRelated(Facts(a, display), from, to, r) <==> Holds(a, from, to, r)
    ensures InjectiveIds(Facts(a, display)) ==>
              (HasEdge(Built(a, display, le).edges, from, to, r) <==> Holds(a, from, to, r))
  {
    if Holds(a, from, to, r) { HoldingIsRelated(a, display, from, to, r); }
    if f :| f in Facts(a, display) && f.Related? && f.from == from && f.to == to && f.relationship == r {
      RelatedHolds(a, display, f);
    }
    EdgesMatchIff(a, display, le);
  }

  /** It is the name of what a signal of this kind names. */
  ghost predicate NamesThing(a: Analysis, id: string, kind: Kind) {
    exists o, s :: Signals(a, o, s) && !IsCall(s) && id == ThingName(o, s) && kind == KindOfThing(s)
  }

  function KindOfThing(s: Signal): Kind {
    match s.kind
    case EnvironmentName => Configuration
    case InfrastructureDeclaration => Infrastructure
    case _ => Package
  }

  /** It is the name of something of this kind. */
  ghost predicate IsNamedAs(a: Analysis, id: string, kind: Kind) {
    match kind
    case Service => exists o :: Observes(a, o) && id == ServiceName(o)
    case Capability => exists o, c :: Uses(a, o, c) && id == CapabilityName(o, c)
    case File =>
      (exists o, c, e :: Uses(a, o, c) && e in c.evidence && id == FileName(e))
      || (exists o, s :: Signals(a, o, s) && id == FileName(s.evidence))
    case _ => NamesThing(a, id, kind)
  }

  lemma KindsStartDifferently(k: Kind, l: Kind, id: string)
    requires NodeId(k, "") <= id && NodeId(l, "") <= id
    ensures k == l
  {
    assert id[0] == NodeId(k, "")[0] == NodeId(l, "")[0];
    assert id[1] == NodeId(k, "")[1] == NodeId(l, "")[1];
    assert id[2] == NodeId(k, "")[2] == NodeId(l, "")[2];
  }

  lemma NamedAs(a: Analysis, id: string)
    requires IsNamed(a, id)
    ensures exists kind :: IsNamedAs(a, id, kind) && NodeId(kind, "") <= id
  {
    if o :| Observes(a, o) && id == ServiceName(o) {
      assert IsNamedAs(a, id, Service);
    } else if o, c :| Uses(a, o, c) && id == CapabilityName(o, c) {
      assert IsNamedAs(a, id, Capability);
    } else if o, s :| Signals(a, o, s) && !IsCall(s) && id == ThingName(o, s) {
      ThingNamed(a, o, s);
    } else {
      FileNamed(a, id);
    }
  }

  lemma ThingNamed(a: Analysis, o: Observation, s: Signal)
    requires Signals(a, o, s) && !IsCall(s)
    ensures IsNamedAs(a, ThingName(o, s), KindOfThing(s)) && NodeId(KindOfThing(s), "") <= ThingName(o, s)
  {
    assert NamesThing(a, ThingName(o, s), KindOfThing(s));
  }

  lemma FileNamed(a: Analysis, id: string)
    requires IsNamedAs(a, id, File)
    ensures NodeId(File, "") <= id
  {
  }

  /** A node is of the kind of what it is named after: packages, settings and resources come from signals of their kind,
      capabilities from uses, files from evidence. */
  lemma KindsAreExact(a: Analysis, display: Display, le: (string, string) -> bool, n: Node)
    requires n in Built(a, display, le).nodes
    ensures IsNamedAs(a, n.id, n.kind)
  {
    BuiltGraphsAreWellFormed(a, display, le);
    assert n.id in IdsOf(Built(a, display, le).nodes);
    NodesAreExactly(a, display, le, n.id);
    NamedAs(a, n.id);
    var kind :| IsNamedAs(a, n.id, kind) && NodeId(kind, "") <= n.id;
    KindsStartDifferently(kind, n.kind, n.id);
  }

  // ---- the key of evidence ----

  function LineOf(e: Evidence): nat {
    if e.lineStart.Some? then e.lineStart.value else 0
  }

  lemma {:induction false} DecimalDetermines(m: nat, n: nat)
    requires Decimal(m) == Decimal(n)
    ensures m == n
  {
    DecimalShape(m);
    DecimalShape(n);
    DigitsDiffer(m % 10, n % 10);
    if m >= 10 && n >= 10 {
      DecimalDetermines(m / 10, n / 10);
    }
  }

  lemma DigitsDiffer(i: nat, j: nat)
    requires i < 10 && j < 10 && "0123456789"[i] == "0123456789"[j]
    ensures i == j
  {
  }

  lemma {:induction false} DecimalShape(n: nat)
    ensures Decimal(n) != [] && ':' !in Decimal(n)
    ensures n >= 10 ==> |Decimal(n)| > 1 && Decimal(n)[..|Decimal(n)| - 1] == Decimal(n / 10)
    ensures Decimal(n)[|Decimal(n)| - 1] == "0123456789"[n % 10]
  {
    if n >= 10 { DecimalShape(n / 10); }
  }

  lemma FirstColonDetermines(a: string, m: string, b: string, n: string)
    requires a + ":" + m == b + ":" + n && ':' !in a && ':' !in b
    ensures a == b && m == n
  {
    var s := a + ":" + m;
    assert s[|a|] == ':' && s[|b|] == ':';
    assert forall i :: 0 <= i < |a| ==> s[i] == a[i];
    assert forall i :: 0 <= i < |b| ==> s[i] == b[i];
    assert s[..|a|] == a && s[..|b|] == b;
    assert s[|a| + 1..] == m && s[|b| + 1..] == n;
  }

  /** Evidence is told apart by file, line and reason, where file names have no colon; no line counts as line zero. */
  lemma KeysAgreeIff(e: Evidence, f: Evidence)
    requires ':' !in e.file && ':' !in f.file
    ensures EvidenceKey(e) == EvidenceKey(f) <==> e.file == f.file && LineOf(e) == LineOf(f) && e.reason == f.reason
  {
    if EvidenceKey(e) == EvidenceKey(f) {
      var m, n := Decimal(LineOf(e)), Decimal(LineOf(f));
      DecimalShape(LineOf(e));
      DecimalShape(LineOf(f));
      assert EvidenceKey(e) == e.file + ":" + (m + ":" + e.reason);
      assert EvidenceKey(f) == f.file + ":" + (n + ":" + f.reason);
      FirstColonDetermines(e.file, m + ":" + e.reason, f.file, n + ":" + f.reason);
      FirstColonDetermines(m, e.reason, n, f.reason);
      DecimalDetermines(LineOf(e), LineOf(f));
    }
  }

  // ---- what nodes and edges carry ----

  /** The node is as a fact observed it, but for evidence that was merged in, and then its confidence is the
      strongest. */
  predicate ComesFrom(n: Node, f: Fact) {
    && f.Observed? && f.node.id == n.id && f.node.kind == n.kind && f.node.name == n.name && f.node.detail == n.detail
    && (n == f.node || n.confidence == Strongest(n.evidence))
  }

  ghost predicate NodesComeFrom(nodes: seq<Node>, facts: seq<Fact>) {
    forall n :: n in nodes ==> exists f :: f in facts && ComesFrom(n, f)
  }

  lemma NodesComeFromNext(s: Shape, facts: seq<Fact>, fact: Fact)
    requires NodesComeFrom(s.nodes, facts)
    ensures NodesComeFrom(After(s, fact).nodes, facts + [fact])
  {
    var nodes := After(s, fact).nodes;
    assert (facts + [fact])[|facts|] == fact;
    assert forall f :: f in facts ==> f in facts + [fact];
    forall n | n in nodes ensures exists f :: f in facts + [fact] && ComesFrom(n, f) {
      if n in s.nodes {
        var f :| f in facts && ComesFrom(n, f);
      } else {
        NewNodeComesFrom(s, facts, fact, n);
      }
    }
  }

  lemma NewNodeComesFrom(s: Shape, facts: seq<Fact>, fact: Fact, n: Node)
    requires NodesComeFrom(s.nodes, facts) && n in After(s, fact).nodes && n !in s.nodes
    ensures ComesFrom(n, fact) || exists f :: f in facts && ComesFrom(n, f)
  {
    var i := IndexOf(s.nodes, NodeKey(), fact.node.id);
    if i.Some? {
      assert s.nodes[i.value] in s.nodes;
      var f :| f in facts && ComesFrom(s.nodes[i.value], f);
      assert n == MergedNode(s.nodes[i.value], fact.node);
      assert ComesFrom(n, f);
    }
  }

  lemma {:induction false} RecordedNodesComeFrom(facts: seq<Fact>)
    ensures NodesComeFrom(Recorded(facts).nodes, facts)
    decreases |facts|
  {
    if facts != [] {
      var rest, last := facts[..|facts| - 1], facts[|facts| - 1];
      assert facts == rest + [last];
      RecordedNodesComeFrom(rest);
      NodesComeFromNext(Recorded(rest), rest, last);
    }
  }

  /** Every node is as the analysis describes what it stands for, up to the evidence that was merged into it. */
  lemma NodesCarryTheirTexts(a: Analysis, display: Display, le: (string, string) -> bool, n: Node)
    requires n in Built(a, display, le).nodes
    ensures exists f :: f in Facts(a, display) && ComesFrom(n, f) && IsDescribed(a, display, f.node)
  {
    RecordedNodesComeFrom(Facts(a, display));
    SameMembers(Recorded(Facts(a, display)).nodes, Built(a, display, le).nodes);
    var f :| f in Facts(a, display) && ComesFrom(n, f);
    ObservedIsDescribed(a, display, f);
  }

  /** The node has the texts, the confidence and the evidence of something in the analysis. */
  ghost predicate IsDescribed(a: Analysis, display: Display, n: Node) {
    || (exists o :: Observes(a, o)
          && n == Node(ServiceName(o), Service, display(o.serviceId), display(o.category), o.confidence, o.evidence))
    || (exists o, c :: Uses(a, o, c)
          && n == Node(CapabilityName(o, c), Capability, display(c.capabilityId),
                       display(c.requirement) + " capability", c.confidence, c.evidence))
    || (exists o, c, e :: Uses(a, o, c) && e in c.evidence && DescribesFile(n, e))
    || (exists o, s :: Signals(a, o, s) && DescribesFile(n, s.evidence))
    || (exists o, s :: Signals(a, o, s) && !IsCall(s) && DescribesThing(n, o, s, display))
  }

  predicate DescribesFile(n: Node, e: Evidence) {
    && n.id == FileName(e) && n.kind == File && n.detail == e.file && n.confidence == e.confidence && n.evidence == [e]
    && '/' !in n.name && (n.name == e.file || EndsWithSegment(e.file, n.name))
  }

  predicate EndsWithSegment(path: string, segment: string) {
    |segment| < |path| && path[|path| - |segment|..] == segment && path[|path| - |segment| - 1] == '/'
  }

  predicate DescribesThing(n: Node, o: Observation, s: Signal, display: Display)
    requires !IsCall(s)
  {
    && n.id == ThingName(o, s) && n.kind == KindOfThing(s) && n.name == s.value
    && n.confidence == s.evidence.confidence && n.evidence == [s.evidence]
    && n.detail == match s.kind
                   case EnvironmentName => "Environment variable"
                   case InfrastructureDeclaration => display("infrastructure")
                   case _ => display("package")
  }

  lemma {:induction false} LastSegment(path: string)
    ensures '/' !in Last(path) && (Last(path) == path || EndsWithSegment(path, Last(path)))
  {
    if path != [] && path[|path| - 1] != '/' {
      var front := path[..|path| - 1];
      LastSegment(front);
      assert path == front + [path[|path| - 1]];
    }
  }

  lemma FileIsDescribed(e: Evidence)
    ensures DescribesFile(FileNode(e), e)
  {
    LastSegment(e.file);
  }

  lemma ThingIsDescribed(o: Observation, s: Signal, display: Display)
    requires !IsCall(s)
    ensures SignalNodeKind(s).Some? && DescribesThing(SignalNode(o, s, SignalNodeKind(s).value, display), o, s, display)
  {
    ThingNamesAre(o, s, display);
  }

  lemma ObservedIsDescribed(a: Analysis, display: Display, f: Fact)
    requires f in Facts(a, display) && f.Observed?
    ensures IsDescribed(a, display, f.node)
  {
    FactsAre(a, display, f);
    if o :| Observes(a, o) && f == Observed(ServiceNode(o, display)) {
      NamesAre(o, CapabilityUse("", "", "", Low, []), Evidence("", None, "", Low));
    } else if o, c :| Uses(a, o, c) && OfUse(o, display, c, f) {
      UseIsDescribed(a, display, o, c, f);
    } else {
      var o, s :| Signals(a, o, s) && f in SignalFacts(o, display)(s);
      SignalIsDescribed(a, display, o, s, f);
    }
  }

  lemma UseIsDescribed(a: Analysis, display: Display, o: Observation, c: CapabilityUse, f: Fact)
    requires Uses(a, o, c) && OfUse(o, display, c, f) && f.Observed?
    ensures IsDescribed(a, display, f.node)
  {
    NamesAre(o, c, Evidence("", None, "", Low));
    if f != Observed(CapabilityNode(o, c, display)) {
      var e :| e in c.evidence && f == Observed(FileNode(e));
      FileIsDescribed(e);
    }
  }

  lemma SignalIsDescribed(a: Analysis, display: Display, o: Observation, s: Signal, f: Fact)
    requires Signals(a, o, s) && f in SignalFacts(o, display)(s) && f.Observed?
    ensures IsDescribed(a, display, f.node)
  {
    ThingNamesAre(o, s, display);
    FileIsDescribed(s.evidence);
    if !IsCall(s) { ThingIsDescribed(o, s, display); }
  }

  /** The evidence of all relations under one edge id, in the order in which they were found. */
  function Gathered(facts: seq<Fact>, id: string): seq<Evidence>
    decreases |facts|
  {
    if facts == [] then []
    else
      var last := facts[|facts| - 1];
      Gathered(facts[..|facts| - 1], id)
      + if last.Related? && last.from != last.to && FactId(last) == id then last.evidence else []
  }

  ghost predicate EdgesGather(edges: seq<Edge>, facts: seq<Fact>) {
    && (forall e :: e in edges ==> e.evidence == Gathered(facts, e.id))
    && (forall id :: !HasId(edges, id) ==> Gathered(facts, id) == [])
  }

  lemma GatheredNext(facts: seq<Fact>, last: Fact, id: string)
    ensures Gathered(facts + [last], id) ==
            Gathered(facts, id)
            + if last.Related? && last.from != last.to && FactId(last) == id then last.evidence else []
  {
    assert (facts + [last])[..|facts|] == facts;
  }

  lemma EdgesGatherNext(s: Shape, facts: seq<Fact>, fact: Fact)
    requires EdgesGather(s.edges, facts) && UniqueBy(s.edges, EdgeKey())
    ensures EdgesGather(After(s, fact).edges, facts + [fact])
  {
    var edges := After(s, fact).edges;
    forall e | e in edges ensures e.evidence == Gathered(facts + [fact], e.id) {
      GatheredNext(facts, fact, e.id);
      EdgeGathers(s, facts, fact, e);
    }
    forall id | !HasId(edges, id) ensures Gathered(facts + [fact], id) == [] {
      GatheredNext(facts, fact, id);
      if HasId(s.edges, id) || (fact.Related? && fact.from != fact.to && FactId(fact) == id) {
        IdsGrow(s, fact, id);
      }
    }
  }

  lemma IdsGrow(s: Shape, fact: Fact, id: string)
    requires HasId(s.edges, id) || (fact.Related? && fact.from != fact.to && FactId(fact) == id)
    ensures HasId(After(s, fact).edges, id)
  {
    var edges := After(s, fact).edges;
    if fact.Related? && fact.from != fact.to && FactId(fact) == id {
      var i := IndexOf(s.edges, EdgeKey(), id);
      assert edges[if i.Some? then i.value else |s.edges|] in edges;
    } else {
      var e :| e in s.edges && e.id == id;
      var j :| 0 <= j < |s.edges| && s.edges[j] == e;
      assert edges[j] in edges && edges[j].id == id;
    }
  }

  lemma EdgeGathers(s: Shape, facts: seq<Fact>, fact: Fact, e: Edge)
    requires EdgesGather(s.edges, facts) && UniqueBy(s.edges, EdgeKey()) && e in After(s, fact).edges
    ensures e.evidence ==
            Gathered(facts, e.id)
            + if fact.Related? && fact.from != fact.to && FactId(fact) == e.id then fact.evidence else []
  {
    var edges := After(s, fact).edges;
    var j :| 0 <= j < |edges| && edges[j] == e;
    if fact.Related? && fact.from != fact.to {
      var i := IndexOf(s.edges, EdgeKey(), FactId(fact));
      if i.Some? {
        assert s.edges[j] in s.edges;
        assert i.value != j ==> EdgeKey()(s.edges[i.value]) != EdgeKey()(s.edges[j]);
      } else if j < |s.edges| {
        assert s.edges[j] in s.edges;
      } else {
        assert [] + fact.evidence == fact.evidence;
      }
    }
  }

  lemma {:induction false} RecordedEdgesGather(facts: seq<Fact>, k: nat)
    requires SoundUpTo(facts, k)
    ensures EdgesGather(Recorded(facts[..k]).edges, facts[..k])
    decreases k
  {
    if k > 0 {
      RecordedEdgesGather(facts, k - 1);
      RecordedIsWellFormed(facts, k - 1);
      EdgesGatherPrefix(facts, k);
    }
  }

  lemma EdgesGatherPrefix(facts: seq<Fact>, k: nat)
    requires 0 < k <= |facts| && GoodRecord(facts[..k - 1])
    requires EdgesGather(Recorded(facts[..k - 1]).edges, facts[..k - 1])
    ensures EdgesGather(Recorded(facts[..k]).edges, facts[..k])
  {
    assert facts[..k] == facts[..k - 1] + [facts[k - 1]];
    EdgesGatherOneMore(facts[..k - 1], facts[k - 1]);
  }

  lemma EdgesGatherOneMore(rest: seq<Fact>, last: Fact)
    requires EdgesGather(Recorded(rest).edges, rest) && UniqueBy(Recorded(rest).edges, EdgeKey())
    ensures EdgesGather(Recorded(rest + [last]).edges, rest + [last])
  {
    AfterAllAppend(Shape([], []), rest, [last]);
    AfterOne(Recorded(rest), [last]);
    EdgesGatherNext(Recorded(rest), rest, last);
  }

  /** An edge carries the evidence of every relation under its id, all of it and in order. */
  lemma EdgesCarryTheirEvidence(a: Analysis, display: Display, le: (string, string) -> bool, e: Edge)
    requires e in Built(a, display, le).edges
    ensures e.evidence == Gathered(Facts(a, display), e.id)
  {
    var facts := Facts(a, display);
    FactsAreGrounded(a, display);
    forall i | 0 <= i < |facts| ensures Sound(facts[i], Named(facts[..i])) {
      assert {} + Named(facts[..i]) == Named(facts[..i]);
    }
    assert facts[..|facts|] == facts;
    RecordedEdgesGather(facts, |facts|);
    SameMembers(Recorded(facts).edges, Built(a, display, le).edges);
  }

  // ---- texts in figures ----

  /** The parts of an edge id. */
  lemma EdgeIdInFull(from: string, to: string)
    ensures EdgeId(from, to, Requires) == from + "->" + to + ":" + "requires"
    ensures EdgeId(from, to, Imports) == from + "->" + to + ":" + "imports"
    ensures EdgeId(from, to, Configures) == from + "->" + to + ":" + "configures"
    ensures EdgeId(from, to, Declares) == from + "->" + to + ":" + "declares"
    ensures EdgeId(from, to, Invokes) == from + "->" + to + ":" + "invokes"
  {
  }

  /** Confidence is ordered: low, medium, high, very high. */
  lemma ConfidenceIsOrdered(c: Confidence)
    ensures Rank(Low) <= Rank(c) <= Rank(VeryHigh)
    ensures Rank(Low) < Rank(Medium) < Rank(High) < Rank(VeryHigh)
  {
  }
}
