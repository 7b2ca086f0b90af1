/** The depth-limited dataset-to-dataset walk of EntityLineageService
    (`traverseEdges`), with the visited set that keeps it from looping. */
module LineageTraversal {
  import opened Wrappers
  import opened LineageGraph
  import opened LineageAssembler

  /** One dataset expansion: the vertex and the remaining depth it was
      expanded with. The model keeps the order of expansions to state what
      the walk did; the service itself keeps no such log. */
  datatype Expansion = Expansion(vertex: VertexId, depth: int)

  /** The state threaded through the walk: the accumulated lineage, the
      visited vertex ids and the expansion log. */
  datatype Walk = Walk(info: LineageInfo, visited: set<VertexId>, expansions: seq<Expansion>)

  /** Only the result grows during a walk; the header fields stay put. */
  ghost predicate Extends(g: Graph, w: Walk, r: Walk) {
    && w.visited <= r.visited <= g.vertices
    && w.expansions <= r.expansions
    && w.info.relations <= r.info.relations
    && w.info.guidEntityMap.Keys <= r.info.guidEntityMap.Keys
    && r.info.baseEntityGuid == w.info.baseEntityGuid
    && r.info.lineageDirection == w.info.lineageDirection
    && r.info.lineageDepth == w.info.lineageDepth
  }

  lemma ExtendsTransitive(g: Graph, a: Walk, b: Walk, c: Walk, d: Walk)
    requires a.visited == b.visited && a.expansions == b.expansions && b.visited <= g.vertices
    requires a.info.relations <= b.info.relations && a.info.guidEntityMap.Keys <= b.info.guidEntityMap.Keys
    requires b.info.baseEntityGuid == a.info.baseEntityGuid && b.info.lineageDirection == a.info.lineageDirection
    requires b.info.lineageDepth == a.info.lineageDepth
    requires Extends(g, b, c) && Extends(g, c, d)
    ensures Extends(g, a, d)
  {
  }

  lemma EdgeEndpointsInGraph(g: Graph, e: Edge)
    requires WellFormed(g) && e in g.edges
    ensures e.outV in g.vertices && e.inV in g.vertices
  {
    var i :| 0 <= i < |g.edges| && g.edges[i] == e;
  }

  lemma RemainingShrinks(all: set<VertexId>, s: set<VertexId>, v: VertexId)
    requires v in all && v !in s
    ensures |all - (s + {v})| < |all - s|
  {
    assert all - s == (all - (s + {v})) + {v};
  }

  lemma RemainingMonotone(all: set<VertexId>, s: set<VertexId>, t: set<VertexId>)
    requires s <= t
    ensures |all - t| <= |all - s|
  {
    assert all - s == (all - t) + ((all - s) - (all - t));
  }

  /** The hide-process switch between `addVirtualEdgeToResult` and
      `addEdgesToResult`. */
  function RecordPair(env: LineageEnv, ctx: LineageContext, incoming: Edge, outgoing: Edge, info: LineageInfo): (r: Step)
    ensures r.skipped <==> !PairVisible(env, ctx, incoming.inV, outgoing.inV)
    ensures r.skipped ==> r.info == info
    ensures r.info.relations >= info.relations && r.info.guidEntityMap.Keys >= info.guidEntityMap.Keys
    ensures r.info.baseEntityGuid == info.baseEntityGuid && r.info.lineageDirection == info.lineageDirection
    ensures r.info.lineageDepth == info.lineageDepth
  {
    if ctx.hideProcess then ProcessVirtualEdge(env, ctx, incoming, outgoing, info)
    else ProcessEdges(env, ctx, incoming, outgoing, info)
  }

  /** `traverseEdges(datasetVertex, isInput, depth, visited, ...)`: with a
      non-zero depth, mark the dataset visited, then for every process
      linked to it in the walk's direction and every dataset on the far side
      of that process, record the pair and continue from the far dataset with
      one less depth unless the pair was skipped or the dataset is visited.
      A negative depth never reaches zero, so only the visited set bounds it. */
  function Traverse(g: Graph, env: LineageEnv, ctx: LineageContext, v: VertexId, isInput: bool, depth: int, w: Walk): (r: Walk)
    requires WellFormed(g) && v in g.vertices && w.visited <= g.vertices
    ensures Extends(g, w, r)
    ensures depth == 0 ==> r == w
    decreases |g.vertices - (w.visited + {v})|, 2, 0
  {
    if depth == 0 then w
    else
      var w1 := w.(visited := w.visited + {v}, expansions := w.expansions + [Expansion(v, depth)]);
      TraverseIncoming(g, env, ctx, InEdges(g, v, IncomingLabel(isInput)), isInput, depth, w1)
  }

  /** The outer loop over the incoming edges of the dataset. */
  function TraverseIncoming(g: Graph, env: LineageEnv, ctx: LineageContext, ins: seq<Edge>, isInput: bool, depth: int, w: Walk): (r: Walk)
    requires WellFormed(g) && w.visited <= g.vertices
    requires forall e :: e in ins ==> e in g.edges
    ensures Extends(g, w, r)
    decreases |g.vertices - w.visited|, 1, |ins|
  {
    if |ins| == 0 then w
    else
      var incoming := ins[0];
      var w1 := TraverseOutgoing(g, env, ctx, incoming, OutEdges(g, incoming.outV, OutgoingLabel(isInput)), isInput, depth, w);
      RemainingMonotone(g.vertices, w.visited, w1.visited);
      TraverseIncoming(g, env, ctx, ins[1..], isInput, depth, w1)
  }

  /** The inner loop over the outgoing edges of one process. */
  function TraverseOutgoing(g: Graph, env: LineageEnv, ctx: LineageContext, incoming: Edge, outs: seq<Edge>, isInput: bool, depth: int, w: Walk): (r: Walk)
    requires WellFormed(g) && w.visited <= g.vertices
    requires forall e :: e in outs ==> e in g.edges
    ensures Extends(g, w, r)
    decreases |g.vertices - w.visited|, 0, |outs|
  {
    if |outs| == 0 then w
    else
      var w1 := VisitPair(g, env, ctx, incoming, outs[0], isInput, depth, w);
      RemainingMonotone(g.vertices, w.visited, w1.visited);
      TraverseOutgoing(g, env, ctx, incoming, outs[1..], isInput, depth, w1)
  }

  /** The body of the inner loop: record the pair, then continue from the
      far dataset unless the pair was skipped or the dataset is visited. */
  function VisitPair(g: Graph, env: LineageEnv, ctx: LineageContext, incoming: Edge, outgoing: Edge, isInput: bool, depth: int, w: Walk): (r: Walk)
    requires WellFormed(g) && w.visited <= g.vertices && outgoing in g.edges
    ensures Extends(g, w, r)
    decreases |g.vertices - w.visited|, 0, 0
  {
    var step := RecordPair(env, ctx, incoming, outgoing, w.info);
    var w1 := w.(info := step.info);
    var entity := outgoing.inV;
    EdgeEndpointsInGraph(g, outgoing);
    if !step.skipped && entity !in w1.visited then
      RemainingShrinks(g.vertices, w1.visited, entity);
      var r := Traverse(g, env, ctx, entity, isInput, depth - 1, w1);
      ExtendsTransitive(g, w, w1, w1, r);
      r
    else w1
  }

  /** The public `traverseEdges` overload: a fresh visited set per call. */
  function TraverseFrom(g: Graph, env: LineageEnv, ctx: LineageContext, v: VertexId, isInput: bool, depth: int, info: LineageInfo): (r: Walk)
    requires WellFormed(g) && v in g.vertices
    ensures Extends(g, Walk(info, {}, []), r)
  {
    Traverse(g, env, ctx, v, isInput, depth, Walk(info, {}, []))
  }

  // ---------------------------------------------------------------------
  // What a walk keeps: the result invariant, and a log of expansions that
  // matches the visited set, never repeats a dataset and respects the depth

  function LoggedVertices(log: seq<Expansion>): set<VertexId> {
    set e | e in log :: e.vertex
  }

  predicate LogDistinct(log: seq<Expansion>) {
    forall i, j :: 0 <= i < j < |log| ==> log[i].vertex != log[j].vertex
  }

  /** An expansion of a walk that started at `root` with depth `d0`: never at
      depth zero, within the bound, and exactly `d0 - depth` hops from the
      root in the walk's direction. */
  ghost predicate WellPlaced(g: Graph, isInput: bool, root: VertexId, d0: int, e: Expansion) {
    && e.depth != 0
    && e.depth <= d0
    && (d0 > 0 ==> e.depth > 0)
    && Reach(g, isInput, root, e.vertex, d0 - e.depth)
  }

  /** The log matches the visited set, never repeats a dataset, and places
      every expansion correctly. */
  ghost predicate LogInv(g: Graph, isInput: bool, root: VertexId, d0: int, w: Walk) {
    && w.visited == LoggedVertices(w.expansions)
    && LogDistinct(w.expansions)
    && forall i :: 0 <= i < |w.expansions| ==> WellPlaced(g, isInput, root, d0, w.expansions[i])
  }

  lemma RecordPairKeepsInv(g: Graph, env: LineageEnv, ctx: LineageContext, incoming: Edge, outgoing: Edge, info: LineageInfo)
    requires incoming in g.edges && outgoing in g.edges && Paired(incoming, outgoing)
    requires Inv(g, env, ctx, info)
    ensures Inv(g, env, ctx, RecordPair(env, ctx, incoming, outgoing, info).info)
  {
    if ctx.hideProcess {
      ProcessVirtualEdgeKeepsInv(g, env, ctx, incoming, outgoing, info);
    } else {
      ProcessEdgesKeepsInv(g, env, ctx, incoming, outgoing, info);
    }
  }

  // The result invariant, through the four mutually recursive functions.

  lemma {:induction false} TraverseKeepsInv(g: Graph, env: LineageEnv, ctx: LineageContext, v: VertexId, isInput: bool, depth: int, w: Walk)
    requires WellFormed(g) && v in g.vertices && w.visited <= g.vertices
    requires Inv(g, env, ctx, w.info)
    ensures var r := Traverse(g, env, ctx, v, isInput, depth, w); Inv(g, env, ctx, r.info)
    decreases |g.vertices - (w.visited + {v})|, 2, 0
  {
    if depth != 0 {
      var w1 := w.(visited := w.visited + {v}, expansions := w.expansions + [Expansion(v, depth)]);
      TraverseIncomingKeepsInv(g, env, ctx, InEdges(g, v, IncomingLabel(isInput)), isInput, depth, w1);
    }
  }

  lemma {:induction false} TraverseIncomingKeepsInv(g: Graph, env: LineageEnv, ctx: LineageContext, ins: seq<Edge>, isInput: bool, depth: int, w: Walk)
    requires WellFormed(g) && w.visited <= g.vertices
    requires forall e :: e in ins ==> e in g.edges && e.edgeLabel == IncomingLabel(isInput)
    requires Inv(g, env, ctx, w.info)
    ensures var r := TraverseIncoming(g, env, ctx, ins, isInput, depth, w); Inv(g, env, ctx, r.info)
    decreases |g.vertices - w.visited|, 1, |ins|
  {
    if |ins| > 0 {
      var incoming := ins[0];
      var outs := OutEdges(g, incoming.outV, OutgoingLabel(isInput));
      var w1 := TraverseOutgoing(g, env, ctx, incoming, outs, isInput, depth, w);
      TraverseOutgoingKeepsInv(g, env, ctx, incoming, outs, isInput, depth, w);
      RemainingMonotone(g.vertices, w.visited, w1.visited);
      TraverseIncomingKeepsInv(g, env, ctx, ins[1..], isInput, depth, w1);
    }
  }

  lemma {:induction false} TraverseOutgoingKeepsInv(g: Graph, env: LineageEnv, ctx: LineageContext, incoming: Edge, outs: seq<Edge>,
                                                    isInput: bool, depth: int, w: Walk)
    requires WellFormed(g) && w.visited <= g.vertices
    requires incoming in g.edges && incoming.edgeLabel == IncomingLabel(isInput)
    requires forall e :: e in outs ==> e in g.edges && e.outV == incoming.outV && e.edgeLabel == OutgoingLabel(isInput)
    requires Inv(g, env, ctx, w.info)
    ensures var r := TraverseOutgoing(g, env, ctx, incoming, outs, isInput, depth, w); Inv(g, env, ctx, r.info)
    decreases |g.vertices - w.visited|, 0, |outs| + 1
  {
    if |outs| > 0 {
      var w1 := VisitPair(g, env, ctx, incoming, outs[0], isInput, depth, w);
      VisitPairKeepsInv(g, env, ctx, incoming, outs[0], isInput, depth, w);
      RemainingMonotone(g.vertices, w.visited, w1.visited);
      TraverseOutgoingKeepsInv(g, env, ctx, incoming, outs[1..], isInput, depth, w1);
    }
  }

  lemma {:induction false} VisitPairKeepsInv(g: Graph, env: LineageEnv, ctx: LineageContext, incoming: Edge, outgoing: Edge,
                                             isInput: bool, depth: int, w: Walk)
    requires WellFormed(g) && w.visited <= g.vertices
    requires incoming in g.edges && incoming.edgeLabel == IncomingLabel(isInput)
    requires outgoing in g.edges && outgoing.outV == incoming.outV && outgoing.edgeLabel == OutgoingLabel(isInput)
    requires Inv(g, env, ctx, w.info)
    ensures var r := VisitPair(g, env, ctx, incoming, outgoing, isInput, depth, w); Inv(g, env, ctx, r.info)
    decreases |g.vertices - w.visited|, 0, 1
  {
    var step := RecordPair(env, ctx, incoming, outgoing, w.info);
    var w1 := w.(info := step.info);
    RecordPairKeepsInv(g, env, ctx, incoming, outgoing, w.info);
    var entity := outgoing.inV;
    EdgeEndpointsInGraph(g, outgoing);
    if !step.skipped && entity !in w1.visited {
      RemainingShrinks(g.vertices, w1.visited, entity);
      TraverseKeepsInv(g, env, ctx, entity, isInput, depth - 1, w1);
    }
  }

  // The log invariant, through the same four functions.

  /** The far dataset of a pair is one hop further from the root. */
  lemma ReachAcrossPair(g: Graph, isInput: bool, root: VertexId, d0: int, v: VertexId, depth: int, incoming: Edge, outgoing: Edge)
    requires incoming in g.edges && incoming.inV == v && incoming.edgeLabel == IncomingLabel(isInput)
    requires outgoing in g.edges && outgoing.outV == incoming.outV && outgoing.edgeLabel == OutgoingLabel(isInput)
    requires depth <= d0 && Reach(g, isInput, root, v, d0 - depth)
    ensures Reach(g, isInput, root, outgoing.inV, d0 - (depth - 1))
  {
    assert HopVia(isInput, v, outgoing.inV, incoming, outgoing);
    ReachStep(g, isInput, root, v, outgoing.inV, d0 - depth, d0 - (depth - 1), incoming, outgoing);
  }

  /** Expanding an unvisited dataset that is placed correctly keeps the log
      invariant. */
  lemma LogExpand(g: Graph, isInput: bool, root: VertexId, d0: int, v: VertexId, depth: int, w: Walk)
    requires LogInv(g, isInput, root, d0, w)
    requires depth != 0 && depth <= d0 && (d0 > 0 ==> depth > 0)
    requires Reach(g, isInput, root, v, d0 - depth)
    requires v !in w.visited
    ensures LogInv(g, isInput, root, d0, w.(visited := w.visited + {v}, expansions := w.expansions + [Expansion(v, depth)]))
  {
    var entry := Expansion(v, depth);
    var w1 := w.(visited := w.visited + {v}, expansions := w.expansions + [entry]);
    assert w1.visited == LoggedVertices(w1.expansions);
    forall i, j | 0 <= i < j < |w1.expansions|
      ensures w1.expansions[i].vertex != w1.expansions[j].vertex
    {
      if j == |w.expansions| {
        assert w.expansions[i].vertex in LoggedVertices(w.expansions);
      }
    }
    assert WellPlaced(g, isInput, root, d0, entry);
  }

  lemma {:induction false} TraverseKeepsLog(g: Graph, env: LineageEnv, ctx: LineageContext, isInput: bool, root: VertexId, d0: int,
                                            v: VertexId, depth: int, w: Walk)
    requires WellFormed(g) && v in g.vertices && w.visited <= g.vertices
    requires LogInv(g, isInput, root, d0, w)
    requires depth <= d0 && (d0 > 0 ==> depth >= 0)
    requires Reach(g, isInput, root, v, d0 - depth)
    requires depth != 0 ==> v !in w.visited
    ensures var r := Traverse(g, env, ctx, v, isInput, depth, w); LogInv(g, isInput, root, d0, r)
    decreases |g.vertices - (w.visited + {v})|, 2, 0
  {
    if depth != 0 {
      var w1 := w.(visited := w.visited + {v}, expansions := w.expansions + [Expansion(v, depth)]);
      LogExpand(g, isInput, root, d0, v, depth, w);
      TraverseIncomingKeepsLog(g, env, ctx, isInput, root, d0, v, depth, InEdges(g, v, IncomingLabel(isInput)), w1);
    }
  }

  lemma {:induction false} TraverseIncomingKeepsLog(g: Graph, env: LineageEnv, ctx: LineageContext, isInput: bool, root: VertexId, d0: int,
                                                    v: VertexId, depth: int, ins: seq<Edge>, w: Walk)
    requires WellFormed(g) && w.visited <= g.vertices
    requires forall e :: e in ins ==> e in g.edges && e.inV == v && e.edgeLabel == IncomingLabel(isInput)
    requires LogInv(g, isInput, root, d0, w)
    requires depth != 0 && depth <= d0 && (d0 > 0 ==> depth > 0)
    requires Reach(g, isInput, root, v, d0 - depth)
    ensures var r := TraverseIncoming(g, env, ctx, ins, isInput, depth, w); LogInv(g, isInput, root, d0, r)
    decreases |g.vertices - w.visited|, 1, |ins|
  {
    if |ins| > 0 {
      var incoming := ins[0];
      var outs := OutEdges(g, incoming.outV, OutgoingLabel(isInput));
      var w1 := TraverseOutgoing(g, env, ctx, incoming, outs, isInput, depth, w);
      TraverseOutgoingKeepsLog(g, env, ctx, isInput, root, d0, v, depth, incoming, outs, w);
      RemainingMonotone(g.vertices, w.visited, w1.visited);
      TraverseIncomingKeepsLog(g, env, ctx, isInput, root, d0, v, depth, ins[1..], w1);
    }
  }

  lemma {:induction false} TraverseOutgoingKeepsLog(g: Graph, env: LineageEnv, ctx: LineageContext, isInput: bool, root: VertexId, d0: int,
                                                    v: VertexId, depth: int, incoming: Edge, outs: seq<Edge>, w: Walk)
    requires WellFormed(g) && w.visited <= g.vertices
    requires incoming in g.edges && incoming.inV == v && incoming.edgeLabel == IncomingLabel(isInput)
    requires forall e :: e in outs ==> e in g.edges && e.outV == incoming.outV && e.edgeLabel == OutgoingLabel(isInput)
    requires LogInv(g, isInput, root, d0, w)
    requires depth != 0 && depth <= d0 && (d0 > 0 ==> depth > 0)
    requires Reach(g, isInput, root, v, d0 - depth)
    ensures var r := TraverseOutgoing(g, env, ctx, incoming, outs, isInput, depth, w); LogInv(g, isInput, root, d0, r)
    decreases |g.vertices - w.visited|, 0, |outs| + 1
  {
    if |outs| > 0 {
      var w1 := VisitPair(g, env, ctx, incoming, outs[0], isInput, depth, w);
      VisitPairKeepsLog(g, env, ctx, isInput, root, d0, v, depth, incoming, outs[0], w);
      RemainingMonotone(g.vertices, w.visited, w1.visited);
      TraverseOutgoingKeepsLog(g, env, ctx, isInput, root, d0, v, depth, incoming, outs[1..], w1);
    }
  }

  lemma {:induction false} VisitPairKeepsLog(g: Graph, env: LineageEnv, ctx: LineageContext, isInput: bool, root: VertexId, d0: int,
                                             v: VertexId, depth: int, incoming: Edge, outgoing: Edge, w: Walk)
    requires WellFormed(g) && w.visited <= g.vertices
    requires incoming in g.edges && incoming.inV == v && incoming.edgeLabel == IncomingLabel(isInput)
    requires outgoing in g.edges && outgoing.outV == incoming.outV && outgoing.edgeLabel == OutgoingLabel(isInput)
    requires LogInv(g, isInput, root, d0, w)
    requires depth != 0 && depth <= d0 && (d0 > 0 ==> depth > 0)
    requires Reach(g, isInput, root, v, d0 - depth)
    ensures var r := VisitPair(g, env, ctx, incoming, outgoing, isInput, depth, w); LogInv(g, isInput, root, d0, r)
    decreases |g.vertices - w.visited|, 0, 1
  {
    var step := RecordPair(env, ctx, incoming, outgoing, w.info);
    if !step.skipped && outgoing.inV !in w.visited {
      DescendKeepsLog(g, env, ctx, isInput, root, d0, v, depth, incoming, outgoing, w.(info := step.info));
    }
  }

  lemma {:induction false} DescendKeepsLog(g: Graph, env: LineageEnv, ctx: LineageContext, isInput: bool, root: VertexId, d0: int,
                                           v: VertexId, depth: int, incoming: Edge, outgoing: Edge, w: Walk)
    requires WellFormed(g) && w.visited <= g.vertices
    requires incoming in g.edges && incoming.inV == v && incoming.edgeLabel == IncomingLabel(isInput)
    requires outgoing in g.edges && outgoing.outV == incoming.outV && outgoing.edgeLabel == OutgoingLabel(isInput)
    requires outgoing.inV !in w.visited
    requires LogInv(g, isInput, root, d0, w)
    requires depth != 0 && depth <= d0 && (d0 > 0 ==> depth > 0)
    requires Reach(g, isInput, root, v, d0 - depth)
    ensures outgoing.inV in g.vertices
    ensures var r := Traverse(g, env, ctx, outgoing.inV, isInput, depth - 1, w); LogInv(g, isInput, root, d0, r)
    decreases |g.vertices - w.visited|, 0, 0
  {
    DescendReady(g, isInput, root, d0, v, depth, incoming, outgoing, w.visited);
    assert WellFormed(g);
    assert outgoing.inV in g.vertices;
    assert w.visited <= g.vertices;
    assert LogInv(g, isInput, root, d0, w);
    assert depth - 1 <= d0;
    assert d0 > 0 ==> depth - 1 >= 0;
    assert Reach(g, isInput, root, outgoing.inV, d0 - (depth - 1));
    assert depth - 1 != 0 ==> outgoing.inV !in w.visited;
    TraverseKeepsLog(g, env, ctx, isInput, root, d0, outgoing.inV, depth - 1, w);
  }

  /** What descending across a pair needs: the far dataset is in the graph,
      one hop further from the root, and not yet visited. */
  lemma DescendReady(g: Graph, isInput: bool, root: VertexId, d0: int, v: VertexId, depth: int,
                     incoming: Edge, outgoing: Edge, visited: set<VertexId>)
    requires WellFormed(g)
    requires incoming in g.edges && incoming.inV == v && incoming.edgeLabel == IncomingLabel(isInput)
    requires outgoing in g.edges && outgoing.outV == incoming.outV && outgoing.edgeLabel == OutgoingLabel(isInput)
    requires outgoing.inV !in visited
    requires depth <= d0 && Reach(g, isInput, root, v, d0 - depth)
    ensures outgoing.inV in g.vertices
    ensures Reach(g, isInput, root, outgoing.inV, d0 - (depth - 1))
    ensures |g.vertices - (visited + {outgoing.inV})| < |g.vertices - visited|
  {
    EdgeEndpointsInGraph(g, outgoing);
    ReachAcrossPair(g, isInput, root, d0, v, depth, incoming, outgoing);
    RemainingShrinks(g.vertices, visited, outgoing.inV);
  }

  /** A walk from a dataset keeps the result invariant, expands every
      dataset at most once, marks exactly the expanded datasets visited, and
      expands only datasets `d0 - depth` hops from the root, each with a
      non-zero remaining depth no larger than the initial one. */
  lemma TraverseFromSound(g: Graph, env: LineageEnv, ctx: LineageContext, root: VertexId, isInput: bool, d0: int, info: LineageInfo)
    requires WellFormed(g) && root in g.vertices
    requires Inv(g, env, ctx, info)
    ensures var r := TraverseFrom(g, env, ctx, root, isInput, d0, info);
      && Inv(g, env, ctx, r.info)
      && r.visited == LoggedVertices(r.expansions)
      && LogDistinct(r.expansions)
      && forall i :: 0 <= i < |r.expansions| ==> WellPlaced(g, isInput, root, d0, r.expansions[i])
  {
    var w := Walk(info, {}, []);
    ReachRoot(g, isInput, root);
    assert LogInv(g, isInput, root, d0, w);
    TraverseKeepsInv(g, env, ctx, root, isInput, d0, w);
    TraverseKeepsLog(g, env, ctx, isInput, root, d0, root, d0, w);
  }

  /** With a positive depth `d`, every dataset the walk expands lies fewer
      than `d` hops from the root; with a non-positive one the visited set
      alone ends the walk. */
  lemma TraverseFromWithinDepth(g: Graph, env: LineageEnv, ctx: LineageContext, root: VertexId, isInput: bool, d0: int, info: LineageInfo)
    requires WellFormed(g) && root in g.vertices && Inv(g, env, ctx, info)
    requires d0 > 0
    ensures var r := TraverseFrom(g, env, ctx, root, isInput, d0, info);
      forall x :: x in r.visited ==> exists n: nat :: n < d0 && Reach(g, isInput, root, x, n)
  {
    var r := TraverseFrom(g, env, ctx, root, isInput, d0, info);
    TraverseFromSound(g, env, ctx, root, isInput, d0, info);
    assert r.visited == LoggedVertices(r.expansions);
    forall x | x in r.visited
      ensures exists n: nat :: n < d0 && Reach(g, isInput, root, x, n)
    {
      var e :| e in r.expansions && e.vertex == x;
      var i :| 0 <= i < |r.expansions| && r.expansions[i] == e;
      assert WellPlaced(g, isInput, root, d0, r.expansions[i]);
      var n: nat := d0 - e.depth;
      assert n < d0 && Reach(g, isInput, root, x, n);
    }
  }

  // ---------------------------------------------------------------------
  // The walk's control flow does not read the accumulated result, so a
  // walk over a non-empty result adds exactly what it adds to an empty one.

  /** The same walk state with an empty result under a fixed header. */
  function Blank(w: Walk): (r: Walk)
    ensures r.visited == w.visited && r.expansions == w.expansions
    ensures r.info.relations == {} && r.info.guidEntityMap == map[]
  {
    Walk(EmptyInfo, w.visited, w.expansions)
  }

  const EmptyInfo := LineageInfo("", map[], {}, INPUT, 0)

  /** `r` is what walking from `w` gives, given that walking from `Blank(w)` gives `b`. */
  ghost predicate AddsAsBlank(w: Walk, r: Walk, b: Walk) {
    && r.visited == b.visited
    && r.expansions == b.expansions
    && r.info.relations == w.info.relations + b.info.relations
    && r.info.guidEntityMap.Keys == w.info.guidEntityMap.Keys + b.info.guidEntityMap.Keys
  }

  /** Two walk states that differ only in their result. */
  lemma BlankAgrees(a: Walk, b: Walk)
    requires a.visited == b.visited && a.expansions == b.expansions
    ensures Blank(a) == Blank(b)
  {
  }

  lemma ComposeAdds(w: Walk, w1: Walk, b1: Walk, r: Walk, rb: Walk, bb: Walk)
    requires AddsAsBlank(w, w1, b1) && AddsAsBlank(w1, r, bb) && AddsAsBlank(b1, rb, bb)
    ensures AddsAsBlank(w, r, rb)
  {
  }

  lemma RecordPairAddsAsBlank(env: LineageEnv, ctx: LineageContext, incoming: Edge, outgoing: Edge, info: LineageInfo)
    ensures var s := RecordPair(env, ctx, incoming, outgoing, info);
      var t := RecordPair(env, ctx, incoming, outgoing, EmptyInfo);
      && s.skipped == t.skipped
      && s.info.relations == info.relations + t.info.relations
      && s.info.guidEntityMap.Keys == info.guidEntityMap.Keys + t.info.guidEntityMap.Keys
  {
    if ctx.hideProcess {
      var s := ProcessVirtualEdge(env, ctx, incoming, outgoing, info);
      var t := ProcessVirtualEdge(env, ctx, incoming, outgoing, EmptyInfo);
      assert s.info.relations == info.relations + t.info.relations;
    } else {
      var s := ProcessEdges(env, ctx, incoming, outgoing, info);
      var t := ProcessEdges(env, ctx, incoming, outgoing, EmptyInfo);
      assert s.info.relations == info.relations + t.info.relations;
    }
  }

  lemma {:induction false} TraverseAddsAsBlank(g: Graph, env: LineageEnv, ctx: LineageContext, v: VertexId, isInput: bool, depth: int, w: Walk)
    requires WellFormed(g) && v in g.vertices && w.visited <= g.vertices
    ensures var r := Traverse(g, env, ctx, v, isInput, depth, w);
      AddsAsBlank(w, r, Traverse(g, env, ctx, v, isInput, depth, Blank(w)))
    decreases |g.vertices - (w.visited + {v})|, 2, 0
  {
    if depth != 0 {
      var w1 := w.(visited := w.visited + {v}, expansions := w.expansions + [Expansion(v, depth)]);
      var b1 := Blank(w).(visited := w.visited + {v}, expansions := w.expansions + [Expansion(v, depth)]);
      assert b1 == Blank(w1);
      TraverseIncomingAddsAsBlank(g, env, ctx, InEdges(g, v, IncomingLabel(isInput)), isInput, depth, w1);
    }
  }

  lemma {:induction false} TraverseIncomingAddsAsBlank(g: Graph, env: LineageEnv, ctx: LineageContext, ins: seq<Edge>, isInput: bool, depth: int, w: Walk)
    requires WellFormed(g) && w.visited <= g.vertices
    requires forall e :: e in ins ==> e in g.edges
    ensures var r := TraverseIncoming(g, env, ctx, ins, isInput, depth, w);
      AddsAsBlank(w, r, TraverseIncoming(g, env, ctx, ins, isInput, depth, Blank(w)))
    decreases |g.vertices - w.visited|, 1, |ins|
  {
    if |ins| > 0 {
      var incoming := ins[0];
      var outs := OutEdges(g, incoming.outV, OutgoingLabel(isInput));
      var w1 := TraverseOutgoing(g, env, ctx, incoming, outs, isInput, depth, w);
      var b1 := TraverseOutgoing(g, env, ctx, incoming, outs, isInput, depth, Blank(w));
      TraverseOutgoingAddsAsBlank(g, env, ctx, incoming, outs, isInput, depth, w);
      BlankAgrees(w1, b1);
      RemainingMonotone(g.vertices, w.visited, w1.visited);
      TraverseIncomingAddsAsBlank(g, env, ctx, ins[1..], isInput, depth, w1);
      TraverseIncomingAddsAsBlank(g, env, ctx, ins[1..], isInput, depth, b1);
      var r := TraverseIncoming(g, env, ctx, ins[1..], isInput, depth, w1);
      var rb := TraverseIncoming(g, env, ctx, ins[1..], isInput, depth, b1);
      ComposeAdds(w, w1, b1, r, rb, TraverseIncoming(g, env, ctx, ins[1..], isInput, depth, Blank(w1)));
      assert TraverseIncoming(g, env, ctx, ins, isInput, depth, w) == r;
      assert TraverseIncoming(g, env, ctx, ins, isInput, depth, Blank(w)) == rb;
    }
  }

  lemma {:induction false} TraverseOutgoingAddsAsBlank(g: Graph, env: LineageEnv, ctx: LineageContext, incoming: Edge, outs: seq<Edge>,
                                                       isInput: bool, depth: int, w: Walk)
    requires WellFormed(g) && w.visited <= g.vertices
    requires forall e :: e in outs ==> e in g.edges
    ensures var r := TraverseOutgoing(g, env, ctx, incoming, outs, isInput, depth, w);
      AddsAsBlank(w, r, TraverseOutgoing(g, env, ctx, incoming, outs, isInput, depth, Blank(w)))
    decreases |g.vertices - w.visited|, 0, |outs| + 1
  {
    if |outs| > 0 {
      var w1 := VisitPair(g, env, ctx, incoming, outs[0], isInput, depth, w);
      var b1 := VisitPair(g, env, ctx, incoming, outs[0], isInput, depth, Blank(w));
      VisitPairAddsAsBlank(g, env, ctx, incoming, outs[0], isInput, depth, w);
      BlankAgrees(w1, b1);
      RemainingMonotone(g.vertices, w.visited, w1.visited);
      TraverseOutgoingAddsAsBlank(g, env, ctx, incoming, outs[1..], isInput, depth, w1);
      TraverseOutgoingAddsAsBlank(g, env, ctx, incoming, outs[1..], isInput, depth, b1);
      var r := TraverseOutgoing(g, env, ctx, incoming, outs[1..], isInput, depth, w1);
      var rb := TraverseOutgoing(g, env, ctx, incoming, outs[1..], isInput, depth, b1);
      ComposeAdds(w, w1, b1, r, rb, TraverseOutgoing(g, env, ctx, incoming, outs[1..], isInput, depth, Blank(w1)));
      assert TraverseOutgoing(g, env, ctx, incoming, outs, isInput, depth, w) == r;
      assert TraverseOutgoing(g, env, ctx, incoming, outs, isInput, depth, Blank(w)) == rb;
    }
  }

  lemma {:induction false} VisitPairAddsAsBlank(g: Graph, env: LineageEnv, ctx: LineageContext, incoming: Edge, outgoing: Edge,
                                                isInput: bool, depth: int, w: Walk)
    requires WellFormed(g) && w.visited <= g.vertices && outgoing in g.edges
    ensures var r := VisitPair(g, env, ctx, incoming, outgoing, isInput, depth, w);
      AddsAsBlank(w, r, VisitPair(g, env, ctx, incoming, outgoing, isInput, depth, Blank(w)))
    decreases |g.vertices - w.visited|, 0, 1
  {
    var step := RecordPair(env, ctx, incoming, outgoing, w.info);
    var blankStep := RecordPair(env, ctx, incoming, outgoing, Blank(w).info);
    RecordPairAddsAsBlank(env, ctx, incoming, outgoing, w.info);
    var w1 := w.(info := step.info);
    var b1 := Blank(w).(info := blankStep.info);
    assert AddsAsBlank(w, w1, b1);
    BlankAgrees(w1, b1);
    if !step.skipped && outgoing.inV !in w.visited {
      DescendAddsAsBlank(g, env, ctx, outgoing.inV, isInput, depth - 1, w1);
      DescendAddsAsBlank(g, env, ctx, outgoing.inV, isInput, depth - 1, b1);
      var r := Traverse(g, env, ctx, outgoing.inV, isInput, depth - 1, w1);
      var rb := Traverse(g, env, ctx, outgoing.inV, isInput, depth - 1, b1);
      ComposeAdds(w, w1, b1, r, rb, Traverse(g, env, ctx, outgoing.inV, isInput, depth - 1, Blank(w1)));
    }
  }

  lemma {:induction false} DescendAddsAsBlank(g: Graph, env: LineageEnv, ctx: LineageContext, v: VertexId, isInput: bool, depth: int, w: Walk)
    requires WellFormed(g) && w.visited <= g.vertices
    requires exists e :: e in g.edges && e.inV == v
    requires v !in w.visited
    ensures v in g.vertices
    ensures var r := Traverse(g, env, ctx, v, isInput, depth, w);
      AddsAsBlank(w, r, Traverse(g, env, ctx, v, isInput, depth, Blank(w)))
    decreases |g.vertices - w.visited|, 0, 0
  {
    var e :| e in g.edges && e.inV == v;
    EdgeEndpointsInGraph(g, e);
    RemainingShrinks(g.vertices, w.visited, v);
    TraverseAddsAsBlank(g, env, ctx, v, isInput, depth, w);
  }

  /** A top-level walk adds to the result exactly what the same walk adds
      to an empty result, and visits the same datasets. */
  lemma TraverseFromAddsAsBlank(g: Graph, env: LineageEnv, ctx: LineageContext, v: VertexId, isInput: bool, depth: int, info: LineageInfo)
    requires WellFormed(g) && v in g.vertices
    ensures var r := TraverseFrom(g, env, ctx, v, isInput, depth, info);
      var b := TraverseFrom(g, env, ctx, v, isInput, depth, EmptyInfo);
      && r.visited == b.visited
      && r.info.relations == info.relations + b.info.relations
      && r.info.guidEntityMap.Keys == info.guidEntityMap.Keys + b.info.guidEntityMap.Keys
  {
    assert Blank(Walk(info, {}, [])) == Walk(EmptyInfo, {}, []);
    TraverseAddsAsBlank(g, env, ctx, v, isInput, depth, Walk(info, {}, []));
  }
}
