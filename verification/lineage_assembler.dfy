/** Turning traversed edges into lineage relations (EntityLineageService's
    `processEdge`, `processEdges`, `processVirtualEdge`, `addEdgeToResult`,
    `lineageContainsEdge`), and the invariants every recording step keeps. */
module LineageAssembler {
  import opened Wrappers
  import opened LineageGraph

  datatype LineageDirection = INPUT | OUTPUT | BOTH

  /** What the entity retriever projects a vertex to; opaque to the walk. */
  datatype EntityHeader = EntityHeader(guid: string, typeName: string, attributes: map<string, string>)

  /** `LineageRelation`: the relationship id is null for compressed
      relations, the process id is null for expanded ones. */
  datatype LineageRelation = LineageRelation(
    fromEntityId: string,
    toEntityId: string,
    relationshipId: Option<string>,
    processId: Option<string>)

  /** `AtlasLineageInfo`: the result accumulated by the traversal. */
  datatype LineageInfo = LineageInfo(
    baseEntityGuid: string,
    guidEntityMap: map<string, EntityHeader>,
    relations: set<LineageRelation>,
    lineageDirection: LineageDirection,
    lineageDepth: int)

  /** The collaborators the traversal consults but does not implement: the
      vertex type name, the type-registry process test (`isProcessEntity`),
      the visibility predicate `evaluate`, and header projection with the
      requested attributes. */
  datatype LineageEnv = LineageEnv(
    typeName: VertexId -> string,
    isProcessType: string -> bool,
    evaluate: VertexId -> bool,
    project: VertexId -> EntityHeader)

  /** The part of `AtlasLineageContext` the recording steps read: the
      hide-process switch and the start dataset (absent for a process root). */
  datatype LineageContext = LineageContext(hideProcess: bool, startDatasetVertex: Option<VertexId>)

  /** Whether a recording step skipped the pair, and the updated result. */
  datatype Step = Step(skipped: bool, info: LineageInfo)

  /** The visibility rule of both pair-recording modes: both datasets are
      visible, or the left one is the start dataset and the right one is
      visible. */
  predicate PairVisible(env: LineageEnv, ctx: LineageContext, left: VertexId, right: VertexId) {
    (Some(left) == ctx.startDatasetVertex && env.evaluate(right))
    || (env.evaluate(left) && env.evaluate(right))
  }

  /** Put the projection of `v` into the entity map unless its id is there
      already (the `containsKey` guard). */
  function Materialize(env: LineageEnv, m: map<string, EntityHeader>, v: VertexId): (r: map<string, EntityHeader>)
    ensures r.Keys == m.Keys + {v}
    ensures forall k :: k in m ==> r[k] == m[k]
  {
    if v in m then m else m[v := env.project(v)]
  }

  /** The relation an `__Process.inputs`/`__Process.outputs` edge stands
      for, oriented along the data flow: dataset -> process for inputs,
      process -> dataset for outputs. */
  function RelationOfEdge(e: Edge): LineageRelation {
    if e.edgeLabel == ProcessInputs then LineageRelation(e.inV, e.outV, e.relationshipGuid, None)
    else LineageRelation(e.outV, e.inV, e.relationshipGuid, None)
  }

  /** The `processEdge` guard: an endpoint that is not of a process type
      passes `evaluate`. */
  predicate Recordable(env: LineageEnv, edge: Edge) {
    (!env.isProcessType(env.typeName(edge.outV)) && env.evaluate(edge.outV))
    || (!env.isProcessType(env.typeName(edge.inV)) && env.evaluate(edge.inV))
  }

  /** `processEdge`: one edge, recorded only if it is `Recordable`. */
  function ProcessEdge(env: LineageEnv, edge: Edge, info: LineageInfo): (r: LineageInfo)
    ensures Recordable(env, edge) ==> r.relations == info.relations + {RelationOfEdge(edge)}
    ensures Recordable(env, edge) ==> r.guidEntityMap.Keys == info.guidEntityMap.Keys + {edge.inV, edge.outV}
    ensures !Recordable(env, edge) ==> r == info
    ensures r.baseEntityGuid == info.baseEntityGuid && r.lineageDirection == info.lineageDirection
    ensures r.lineageDepth == info.lineageDepth
  {
    var inV := edge.inV;
    var outV := edge.outV;
    if (!env.isProcessType(env.typeName(outV)) && env.evaluate(outV))
       || (!env.isProcessType(env.typeName(inV)) && env.evaluate(inV))
    then
      var m := Materialize(env, Materialize(env, info.guidEntityMap, inV), outV);
      var rel := if edge.edgeLabel == ProcessInputs
        then LineageRelation(inV, outV, edge.relationshipGuid, None)
        else LineageRelation(outV, inV, edge.relationshipGuid, None);
      info.(guidEntityMap := m, relations := info.relations + {rel})
    else info
  }

  /** `lineageContainsEdge`: some recorded relation has the edge's
      relationship guid. The Java loop calls `getRelationshipId().equals`,
      which throws once it meets a relation without an id (a compressed
      one, or one recorded from an edge without the guid property); the
      model raises that error whenever one is present, whatever the
      iteration order. A null edge guid equals no id. */
  function LineageContainsEdge(info: LineageInfo, edge: Edge): (r: Result<bool>)
    ensures r.Failure? <==> exists rel :: rel in info.relations && rel.relationshipId.None?
    ensures r.Failure? ==> r.error == NullPointer
    ensures r.Success? ==> (r.value <==> exists rel :: rel in info.relations && rel.relationshipId == edge.relationshipGuid)
  {
    if exists rel :: rel in info.relations && rel.relationshipId.None? then Failure(NullPointer)
    else Success(exists rel :: rel in info.relations && rel.relationshipId == edge.relationshipGuid)
  }

  /** `addEdgeToResult`: `processEdge` unless the relationship guid is
      recorded already. */
  function AddEdgeToResult(env: LineageEnv, edge: Edge, info: LineageInfo): (r: Result<LineageInfo>)
    ensures r.Success? ==> r.value.relations >= info.relations && r.value.guidEntityMap.Keys >= info.guidEntityMap.Keys
    ensures r.Success? && (exists rel :: rel in info.relations && rel.relationshipId == edge.relationshipGuid) ==> r.value == info
    ensures r.Success? ==> r.value == info || r.value == ProcessEdge(env, edge, info)
    ensures r.Failure? <==> exists rel :: rel in info.relations && rel.relationshipId.None?
  {
    var present :- LineageContainsEdge(info, edge);
    if present then Success(info) else Success(ProcessEdge(env, edge, info))
  }

  /** `processEdges` (expanded mode): records the incoming and the outgoing
      edge of a dataset-process-dataset pair as two relations. */
  function ProcessEdges(env: LineageEnv, ctx: LineageContext, incoming: Edge, outgoing: Edge, info: LineageInfo): (r: Step)
    ensures r.skipped <==> !PairVisible(env, ctx, incoming.inV, outgoing.inV)
    ensures r.skipped ==> r.info == info
    ensures r.info.relations >= info.relations
    ensures r.info.guidEntityMap.Keys >= info.guidEntityMap.Keys
    ensures !r.skipped ==> r.info.guidEntityMap.Keys == info.guidEntityMap.Keys + {incoming.inV, incoming.outV, outgoing.inV}
    ensures r.info.baseEntityGuid == info.baseEntityGuid && r.info.lineageDirection == info.lineageDirection
    ensures r.info.lineageDepth == info.lineageDepth
  {
    var left := incoming.inV;
    var process := incoming.outV;
    var right := outgoing.inV;
    if PairVisible(env, ctx, left, right) then
      var m := Materialize(env, Materialize(env, Materialize(env, info.guidEntityMap, left), process), right);
      var first := if incoming.edgeLabel == ProcessInputs
        then LineageRelation(left, process, incoming.relationshipGuid, None)
        else LineageRelation(process, left, incoming.relationshipGuid, None);
      var second := if outgoing.edgeLabel == ProcessInputs
        then LineageRelation(right, process, outgoing.relationshipGuid, None)
        else LineageRelation(process, right, outgoing.relationshipGuid, None);
      Step(false, info.(guidEntityMap := m, relations := info.relations + {first} + {second}))
    else
      Step(true, info)
  }

  /** `processVirtualEdge` (hide-process mode): one dataset-to-dataset
      relation carrying the process guid, without a relationship id. */
  function ProcessVirtualEdge(env: LineageEnv, ctx: LineageContext, incoming: Edge, outgoing: Edge, info: LineageInfo): (r: Step)
    ensures r.skipped <==> !PairVisible(env, ctx, incoming.inV, outgoing.inV)
    ensures r.skipped ==> r.info == info
    ensures r.info.relations >= info.relations
    ensures !r.skipped ==> r.info.guidEntityMap.Keys == info.guidEntityMap.Keys + {incoming.inV, outgoing.inV}
    ensures r.skipped ==> r.info.guidEntityMap.Keys == info.guidEntityMap.Keys
    ensures |r.info.relations - info.relations| <= 1
    ensures r.info.baseEntityGuid == info.baseEntityGuid && r.info.lineageDirection == info.lineageDirection
    ensures r.info.lineageDepth == info.lineageDepth
  {
    var inV := incoming.inV;
    var outV := outgoing.inV;
    if PairVisible(env, ctx, inV, outV) then
      var m := Materialize(env, Materialize(env, info.guidEntityMap, inV), outV);
      var rel := VirtualRelation(incoming, outgoing);
      assert info.relations + {rel} - info.relations <= {rel};
      Step(false, info.(guidEntityMap := m, relations := info.relations + {rel}))
    else
      Step(true, info)
  }

  // ---------------------------------------------------------------------
  // Invariants of the accumulated result

  /** Every relation endpoint is a key of the entity map. */
  predicate NoDangling(info: LineageInfo) {
    forall r :: r in info.relations ==> r.fromEntityId in info.guidEntityMap && r.toEntityId in info.guidEntityMap
  }

  /** Every entity-map value is the projection of its key's vertex. */
  predicate Projected(env: LineageEnv, info: LineageInfo) {
    forall k :: k in info.guidEntityMap ==> info.guidEntityMap[k] == env.project(k)
  }

  /** An expanded relation stands for an edge of the graph. */
  ghost predicate EdgeBacked(g: Graph, r: LineageRelation) {
    exists e :: e in g.edges && r == RelationOfEdge(e)
  }

  /** A compressed relation `a -> b` via `p` stands for a process `p` that
      reads `a` and writes `b`. */
  ghost predicate ProcessBacked(g: Graph, r: LineageRelation) {
    && r.relationshipId.None? && r.processId.Some?
    && exists e1, e2 :: e1 in g.edges && e2 in g.edges && ThroughProcess(r, e1, e2)
  }

  predicate ThroughProcess(r: LineageRelation, e1: Edge, e2: Edge)
    requires r.processId.Some?
  {
    && e1.edgeLabel == ProcessInputs && e1.outV == r.processId.value && e1.inV == r.fromEntityId
    && e2.edgeLabel == ProcessOutputs && e2.outV == r.processId.value && e2.inV == r.toEntityId
  }

  /** A vertex reached through an incoming edge: a dataset in a bipartite
      lineage graph. */
  ghost predicate DatasetSide(g: Graph, v: VertexId) {
    exists e :: e in g.edges && e.inV == v
  }

  predicate VisibleOrStart(env: LineageEnv, ctx: LineageContext, v: VertexId) {
    env.evaluate(v) || Some(v) == ctx.startDatasetVertex
  }

  ghost predicate ExpandedBacked(g: Graph, info: LineageInfo) {
    forall r :: r in info.relations ==> EdgeBacked(g, r)
  }

  ghost predicate CompressedBacked(g: Graph, info: LineageInfo) {
    forall r :: r in info.relations ==> ProcessBacked(g, r)
  }

  predicate EndpointsVisible(env: LineageEnv, ctx: LineageContext, info: LineageInfo) {
    forall r :: r in info.relations ==> VisibleOrStart(env, ctx, r.fromEntityId) && VisibleOrStart(env, ctx, r.toEntityId)
  }

  ghost predicate KeysDatasetSide(g: Graph, info: LineageInfo) {
    forall k :: k in info.guidEntityMap ==> DatasetSide(g, k)
  }

  /** What every recording step keeps: no dangling endpoints, projected
      headers, and relations backed by the graph; in hide-process mode also
      visible endpoints and only dataset-side entities. */
  ghost predicate Inv(g: Graph, env: LineageEnv, ctx: LineageContext, info: LineageInfo) {
    && NoDangling(info)
    && Projected(env, info)
    && (!ctx.hideProcess ==> ExpandedBacked(g, info))
    && (ctx.hideProcess ==> CompressedBacked(g, info) && EndpointsVisible(env, ctx, info) && KeysDatasetSide(g, info))
  }

  /** The incoming edge of a pair ends at the dataset being expanded and
      starts at a process; the outgoing edge leaves that same process with
      the other label. */
  predicate Paired(incoming: Edge, outgoing: Edge) {
    incoming.outV == outgoing.outV && incoming.edgeLabel != outgoing.edgeLabel
  }

  lemma MaterializeProjected(env: LineageEnv, m: map<string, EntityHeader>, v: VertexId)
    requires forall k :: k in m ==> m[k] == env.project(k)
    ensures var r := Materialize(env, m, v); forall k :: k in r ==> r[k] == env.project(k)
  {
  }

  lemma ProcessEdgesKeepsInv(g: Graph, env: LineageEnv, ctx: LineageContext, incoming: Edge, outgoing: Edge, info: LineageInfo)
    requires !ctx.hideProcess
    requires incoming in g.edges && outgoing in g.edges && Paired(incoming, outgoing)
    requires Inv(g, env, ctx, info)
    ensures Inv(g, env, ctx, ProcessEdges(env, ctx, incoming, outgoing, info).info)
  {
    var r := ProcessEdges(env, ctx, incoming, outgoing, info);
    if !r.skipped {
      var m1 := Materialize(env, info.guidEntityMap, incoming.inV);
      var m2 := Materialize(env, m1, incoming.outV);
      MaterializeProjected(env, info.guidEntityMap, incoming.inV);
      MaterializeProjected(env, m1, incoming.outV);
      MaterializeProjected(env, m2, outgoing.inV);
      assert RelationOfEdge(incoming) in r.info.relations;
      assert RelationOfEdge(outgoing) in r.info.relations;
      forall rel | rel in r.info.relations
        ensures EdgeBacked(g, rel)
      {
        if rel !in info.relations {
          assert rel == RelationOfEdge(incoming) || rel == RelationOfEdge(outgoing);
        }
      }
    }
  }

  /** The relation `processVirtualEdge` records for a visible pair. */
  function VirtualRelation(incoming: Edge, outgoing: Edge): LineageRelation {
    if incoming.edgeLabel == ProcessInputs
    then LineageRelation(incoming.inV, outgoing.inV, None, Some(outgoing.outV))
    else LineageRelation(outgoing.inV, incoming.inV, None, Some(outgoing.outV))
  }

  lemma VirtualRelationBacked(g: Graph, incoming: Edge, outgoing: Edge)
    requires incoming in g.edges && outgoing in g.edges && Paired(incoming, outgoing)
    ensures ProcessBacked(g, VirtualRelation(incoming, outgoing))
  {
    var rel := VirtualRelation(incoming, outgoing);
    if incoming.edgeLabel == ProcessInputs {
      assert ThroughProcess(rel, incoming, outgoing);
    } else {
      assert ThroughProcess(rel, outgoing, incoming);
    }
  }

  lemma ProcessVirtualEdgeKeepsInv(g: Graph, env: LineageEnv, ctx: LineageContext, incoming: Edge, outgoing: Edge, info: LineageInfo)
    requires ctx.hideProcess
    requires incoming in g.edges && outgoing in g.edges && Paired(incoming, outgoing)
    requires Inv(g, env, ctx, info)
    ensures Inv(g, env, ctx, ProcessVirtualEdge(env, ctx, incoming, outgoing, info).info)
  {
    VirtualStepMap(g, env, ctx, incoming, outgoing, info);
    VirtualStepRelations(g, env, ctx, incoming, outgoing, info);
  }

  /** The entity map after a compressed step: still projected, and only
      dataset-side vertices. */
  lemma VirtualStepMap(g: Graph, env: LineageEnv, ctx: LineageContext, incoming: Edge, outgoing: Edge, info: LineageInfo)
    requires incoming in g.edges && outgoing in g.edges
    requires Projected(env, info) && KeysDatasetSide(g, info)
    ensures var next := ProcessVirtualEdge(env, ctx, incoming, outgoing, info).info;
      Projected(env, next) && KeysDatasetSide(g, next)
  {
    var r := ProcessVirtualEdge(env, ctx, incoming, outgoing, info);
    if !r.skipped {
      var m1 := Materialize(env, info.guidEntityMap, incoming.inV);
      MaterializeProjected(env, info.guidEntityMap, incoming.inV);
      MaterializeProjected(env, m1, outgoing.inV);
      forall k | k in r.info.guidEntityMap
        ensures DatasetSide(g, k)
      {
        if k == incoming.inV {
          assert incoming in g.edges;
        } else if k == outgoing.inV {
          assert outgoing in g.edges;
        } else {
          assert k in info.guidEntityMap;
        }
      }
    }
  }

  /** The relations after a compressed step: no dangling endpoint, each
      backed by a process, each endpoint visible or the start dataset. */
  lemma VirtualStepRelations(g: Graph, env: LineageEnv, ctx: LineageContext, incoming: Edge, outgoing: Edge, info: LineageInfo)
    requires incoming in g.edges && outgoing in g.edges && Paired(incoming, outgoing)
    requires NoDangling(info) && CompressedBacked(g, info) && EndpointsVisible(env, ctx, info)
    ensures var next := ProcessVirtualEdge(env, ctx, incoming, outgoing, info).info;
      NoDangling(next) && CompressedBacked(g, next) && EndpointsVisible(env, ctx, next)
  {
    var r := ProcessVirtualEdge(env, ctx, incoming, outgoing, info);
    if !r.skipped {
      var rel := VirtualRelation(incoming, outgoing);
      assert r.info.relations == info.relations + {rel};
      VirtualRelationBacked(g, incoming, outgoing);
      assert VisibleOrStart(env, ctx, incoming.inV) && VisibleOrStart(env, ctx, outgoing.inV);
    }
  }

  lemma ProcessEdgeKeepsInv(g: Graph, env: LineageEnv, ctx: LineageContext, edge: Edge, info: LineageInfo)
    requires !ctx.hideProcess
    requires edge in g.edges
    requires Inv(g, env, ctx, info)
    ensures Inv(g, env, ctx, ProcessEdge(env, edge, info))
  {
    var r := ProcessEdge(env, edge, info);
    if r != info {
      var m1 := Materialize(env, info.guidEntityMap, edge.inV);
      MaterializeProjected(env, info.guidEntityMap, edge.inV);
      MaterializeProjected(env, m1, edge.outV);
      assert r.relations == info.relations + {RelationOfEdge(edge)};
    }
  }

  /** In expanded mode over a graph whose edges all carry their guid,
      every recorded relation has a relationship id and no process id, so
      `lineageContainsEdge` never meets a null id. */
  lemma ExpandedRelationsHaveIds(g: Graph, env: LineageEnv, ctx: LineageContext, info: LineageInfo)
    requires !ctx.hideProcess && GuidsPresent(g) && Inv(g, env, ctx, info)
    ensures forall r :: r in info.relations ==> r.relationshipId.Some? && r.processId.None?
  {
    forall r | r in info.relations
      ensures r.relationshipId.Some? && r.processId.None?
    {
      assert EdgeBacked(g, r);
    }
  }

  /** In expanded mode over a graph whose edges all carry their guid,
      `addEdgeToResult` succeeds and keeps the invariant. */
  lemma AddEdgeToResultKeepsInv(g: Graph, env: LineageEnv, ctx: LineageContext, edge: Edge, info: LineageInfo)
    requires !ctx.hideProcess && GuidsPresent(g)
    requires edge in g.edges
    requires Inv(g, env, ctx, info)
    ensures AddEdgeToResult(env, edge, info).Success?
    ensures Inv(g, env, ctx, AddEdgeToResult(env, edge, info).value)
  {
    ExpandedRelationsHaveIds(g, env, ctx, info);
    var present := LineageContainsEdge(info, edge);
    assert present.Success?;
    if !present.value {
      ProcessEdgeKeepsInv(g, env, ctx, edge, info);
    }
  }

  /** The guard of `addEdgeToResult` changes nothing when relationship guids
      identify edges: a relation with the edge's guid is the edge's own
      relation, so `processEdge` would add nothing new. */
  lemma AddEdgeDedupIsRedundant(g: Graph, env: LineageEnv, ctx: LineageContext, edge: Edge, info: LineageInfo)
    requires !ctx.hideProcess && GuidsPresent(g) && edge in g.edges && Inv(g, env, ctx, info)
    requires forall e1, e2 :: e1 in g.edges && e2 in g.edges && e1.relationshipGuid == e2.relationshipGuid ==> e1 == e2
    ensures AddEdgeToResult(env, edge, info) == Success(ProcessEdge(env, edge, info)) || AddEdgeToResult(env, edge, info) == Success(info)
    ensures AddEdgeToResult(env, edge, info).Success?
    ensures AddEdgeToResult(env, edge, info).value.relations == ProcessEdge(env, edge, info).relations
    ensures AddEdgeToResult(env, edge, info).value.guidEntityMap == ProcessEdge(env, edge, info).guidEntityMap
  {
    ExpandedRelationsHaveIds(g, env, ctx, info);
    var present := LineageContainsEdge(info, edge);
    if present.value {
      var r :| r in info.relations && r.relationshipId == edge.relationshipGuid;
      assert EdgeBacked(g, r);
      var e :| e in g.edges && r == RelationOfEdge(e);
      assert e.relationshipGuid == edge.relationshipGuid;
      assert e == edge;
      assert info.relations + {RelationOfEdge(edge)} == info.relations;
      assert edge.inV in info.guidEntityMap && edge.outV in info.guidEntityMap;
    }
  }
}
