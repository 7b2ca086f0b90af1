/** The lineage graph as the traversal sees it: a finite set of vertex ids
    and the ordered list of `__Process.inputs` / `__Process.outputs` edges.
    Both labels always point OUT of the process vertex and IN to the
    dataset vertex. */
module LineageGraph {
  import opened Wrappers

  /** A vertex's guid; the model uses it for the display id as well. */
  type VertexId = string

  datatype EdgeLabel = ProcessInputs | ProcessOutputs {
    function Name(): string {
      match this
      case ProcessInputs => "__Process.inputs"
      case ProcessOutputs => "__Process.outputs"
    }
  }

  /** A directed edge `outV -> inV` and its relationship-guid property,
      which `getEncodedProperty` reads as null when the edge lacks it. */
  datatype Edge = Edge(edgeLabel: EdgeLabel, outV: VertexId, inV: VertexId, relationshipGuid: Option<string>)

  datatype Graph = Graph(vertices: set<VertexId>, edges: seq<Edge>)

  /** Every edge carries its relationship-guid property. */
  predicate GuidsPresent(g: Graph) {
    forall e :: e in g.edges ==> e.relationshipGuid.Some?
  }

  /** Every edge endpoint is a vertex of the graph. */
  predicate WellFormed(g: Graph) {
    forall i :: 0 <= i < |g.edges| ==> g.edges[i].outV in g.vertices && g.edges[i].inV in g.vertices
  }

  /** `vertex.getEdges(IN, label)`: the edges with that label ending at `v`,
      in store order. */
  function InEdgesOf(edges: seq<Edge>, v: VertexId, lbl: EdgeLabel): (r: seq<Edge>)
    ensures forall e :: e in r <==> e in edges && e.inV == v && e.edgeLabel == lbl
    ensures |r| <= |edges|
  {
    if |edges| == 0 then []
    else
      var rest := InEdgesOf(edges[1..], v, lbl);
      var e := edges[0];
      if e.inV == v && e.edgeLabel == lbl then [e] + rest else rest
  }

  /** `vertex.getEdges(OUT, label)`: the edges with that label leaving `v`,
      in store order. */
  function OutEdgesOf(edges: seq<Edge>, v: VertexId, lbl: EdgeLabel): (r: seq<Edge>)
    ensures forall e :: e in r <==> e in edges && e.outV == v && e.edgeLabel == lbl
    ensures |r| <= |edges|
  {
    if |edges| == 0 then []
    else
      var rest := OutEdgesOf(edges[1..], v, lbl);
      var e := edges[0];
      if e.outV == v && e.edgeLabel == lbl then [e] + rest else rest
  }

  function InEdges(g: Graph, v: VertexId, lbl: EdgeLabel): seq<Edge> {
    InEdgesOf(g.edges, v, lbl)
  }

  function OutEdges(g: Graph, v: VertexId, lbl: EdgeLabel): seq<Edge> {
    OutEdgesOf(g.edges, v, lbl)
  }

  /** The label followed INTO the dataset being expanded: upstream looks for
      the process that wrote it, downstream for the process that read it. */
  function IncomingLabel(isInput: bool): EdgeLabel {
    if isInput then ProcessOutputs else ProcessInputs
  }

  /** The label followed OUT of that process to the next dataset. */
  function OutgoingLabel(isInput: bool): EdgeLabel {
    if isInput then ProcessInputs else ProcessOutputs
  }

  /** One dataset-to-dataset hop through a process in the given direction. */
  ghost predicate Hop(g: Graph, isInput: bool, u: VertexId, w: VertexId) {
    exists e1, e2 :: e1 in g.edges && e2 in g.edges && HopVia(isInput, u, w, e1, e2)
  }

  predicate HopVia(isInput: bool, u: VertexId, w: VertexId, e1: Edge, e2: Edge) {
    && e1.edgeLabel == IncomingLabel(isInput) && e1.inV == u
    && e2.edgeLabel == OutgoingLabel(isInput) && e2.outV == e1.outV && e2.inV == w
  }

  /** Consecutive vertices of `p` are one hop apart. */
  ghost predicate IsHopPath(g: Graph, isInput: bool, p: seq<VertexId>) {
    forall i, j :: 0 <= i && j == i + 1 && j < |p| ==> Hop(g, isInput, p[i], p[j])
  }

  /** `w` lies exactly `n` hops from `root` in the given direction. */
  ghost predicate Reach(g: Graph, isInput: bool, root: VertexId, w: VertexId, n: nat) {
    exists p :: IsHopPath(g, isInput, p) && |p| == n + 1 && p[0] == root && p[n] == w
  }

  lemma ReachRoot(g: Graph, isInput: bool, root: VertexId)
    ensures Reach(g, isInput, root, root, 0)
  {
    assert IsHopPath(g, isInput, [root]);
  }

  /** One more hop extends a path by one. */
  lemma ReachStep(g: Graph, isInput: bool, root: VertexId, u: VertexId, v: VertexId, n: nat, m: nat, incoming: Edge, outgoing: Edge)
    requires Reach(g, isInput, root, u, n) && m == n + 1
    requires incoming in g.edges && outgoing in g.edges && HopVia(isInput, u, v, incoming, outgoing)
    ensures Reach(g, isInput, root, v, m)
  {
    var p :| IsHopPath(g, isInput, p) && |p| == n + 1 && p[0] == root && p[n] == u;
    var q := p + [v];
    assert Hop(g, isInput, u, v);
    forall i, j | 0 <= i && j == i + 1 && j < |q|
      ensures Hop(g, isInput, q[i], q[j])
    {
      if j < |p| {
        assert q[i] == p[i] && q[j] == p[j];
      }
    }
    assert IsHopPath(g, isInput, q);
  }
}
