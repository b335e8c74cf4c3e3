/** The graph of a repository's services and of what in the repository depends on them. */
module DependencyGraph {
  import opened Wrappers

  datatype Confidence = Low | Medium | High | VeryHigh

  datatype Evidence = Evidence(file: string, lineStart: Option<nat>, reason: string, confidence: Confidence)

  datatype Kind = Service | Capability | File | Package | Configuration | Infrastructure

  datatype Relationship = Requires | Imports | Configures | Declares | Invokes

  datatype Node = Node(
    id: string, kind: Kind, name: string, detail: string, confidence: Confidence, evidence: seq<Evidence>)

  datatype Edge = Edge(id: string, from: string, to: string, relationship: Relationship, evidence: seq<Evidence>)

  datatype Graph = Graph(commit: string, nodes: seq<Node>, edges: seq<Edge>)

  function KindName(kind: Kind): string {
    match kind
    case Service => "service"
    case Capability => "capability"
    case File => "file"
    case Package => "package"
    case Configuration => "configuration"
    case Infrastructure => "infrastructure"
  }

  function NodeId(kind: Kind, value: string): string {
    KindName(kind) + ":" + value
  }

  /** A walk of `n` edges leads from one node to the other. */
  ghost predicate Walk(edges: seq<Edge>, from: string, to: string, n: nat)
    decreases n
  {
    if n == 0 then from == to else exists e :: e in edges && e.from == from && Walk(edges, e.to, to, n - 1)
  }

  ghost predicate Reaches(edges: seq<Edge>, from: string, to: string) {
    exists n: nat :: Walk(edges, from, to, n)
  }

  /** The shortest walk has `n` edges. */
  ghost predicate Distance(edges: seq<Edge>, from: string, to: string, n: nat) {
    Walk(edges, from, to, n) && forall m: nat :: m < n ==> !Walk(edges, from, to, m)
  }
}
