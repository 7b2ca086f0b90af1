/** EntityLineageService's entry points: the checks on the root entity
    (`getAtlasLineageInfo`), the graph-walk lineage (`getLineageInfoV2`)
    with its free first hop from process roots, and the query-based lineage
    (`getLineageInfoV1`, `getLineageInfo`, `getBothLineageInfoV1`,
    `getLineageQuery`). */
module EntityLineageService {
  import opened Wrappers
  import opened Text
  import opened LineageGraph
  import opened LineageAssembler
  import opened LineageTraversal

  const DATA_SET_SUPER_TYPE := "DataSet"
  const PROCESS_SUPER_TYPE := "Process"

  /** `AtlasLineageRequest`. */
  datatype LineageRequest = LineageRequest(guid: VertexId, depth: int, direction: LineageDirection, hideProcess: bool)

  /** What the type checks decided about the root entity. */
  datatype RootKind = DatasetRoot | ProcessRoot

  /** The collaborators of the entry point: ENTITY_READ authorization of the
      root, and for a type name the set `getTypeAndAllSuperTypes()` of the
      registered entity type, absent when the registry has no such type. */
  datatype Registry = Registry(canRead: VertexId -> bool, superTypes: string -> Option<set<string>>)

  /** The root exists, the caller may read it and its type is registered. */
  predicate Admitted(g: Graph, env: LineageEnv, reg: Registry, req: LineageRequest) {
    req.guid in g.vertices && reg.canRead(req.guid) && reg.superTypes(env.typeName(req.guid)).Some?
  }

  /** The checks of `getAtlasLineageInfo` in source order: the header lookup,
      authorization, the registered type, then dataset before process. */
  function ClassifyRoot(g: Graph, env: LineageEnv, reg: Registry, req: LineageRequest): (r: Result<RootKind>)
    ensures req.guid !in g.vertices ==> r == Failure(InstanceGuidNotFound)
    ensures req.guid in g.vertices && !reg.canRead(req.guid) ==> r == Failure(UnauthorizedAccess)
    ensures req.guid in g.vertices && reg.canRead(req.guid) && reg.superTypes(env.typeName(req.guid)).None? ==>
      r == Failure(TypeNameNotFound)
    ensures r.Success? ==> Admitted(g, env, reg, req)
    ensures r == Success(ProcessRoot) ==> !req.hideProcess
    ensures Admitted(g, env, reg, req) ==>
      var types := reg.superTypes(env.typeName(req.guid)).value;
      && (DATA_SET_SUPER_TYPE in types ==> r == Success(DatasetRoot))
      && (DATA_SET_SUPER_TYPE !in types && PROCESS_SUPER_TYPE !in types ==> r == Failure(InvalidLineageEntityType))
      && (DATA_SET_SUPER_TYPE !in types && PROCESS_SUPER_TYPE in types && req.hideProcess ==>
            r == Failure(InvalidLineageEntityTypeHideProcess))
      && (DATA_SET_SUPER_TYPE !in types && PROCESS_SUPER_TYPE in types && !req.hideProcess ==> r == Success(ProcessRoot))
  {
    if req.guid !in g.vertices then Failure(InstanceGuidNotFound)
    else
      :- Need(reg.canRead(req.guid), UnauthorizedAccess);
      match reg.superTypes(env.typeName(req.guid))
      case None => Failure(TypeNameNotFound)
      case Some(types) =>
        if DATA_SET_SUPER_TYPE in types then Success(DatasetRoot)
        else if PROCESS_SUPER_TYPE !in types then Failure(InvalidLineageEntityType)
        else if req.hideProcess then Failure(InvalidLineageEntityTypeHideProcess)
        else Success(ProcessRoot)
  }

  // ---------------------------------------------------------------------
  // getLineageInfoV2

  /** The depth the walk starts with: the caller's, except that 0 ("all")
      becomes -1, which decrementing never brings back to 0. */
  function TraversalDepth(depth: int): (r: int)
    ensures r != 0
    ensures depth != 0 ==> r == depth
    ensures depth == 0 ==> r < 0
  {
    if depth == 0 then -1 else depth
  }

  /** The recording context: hide-process as requested, and the start
      dataset set only for a dataset root. */
  function RootContext(req: LineageRequest, kind: RootKind): (ctx: LineageContext)
    ensures ctx.hideProcess == req.hideProcess
    ensures ctx.startDatasetVertex.Some? <==> kind == DatasetRoot
  {
    LineageContext(req.hideProcess, if kind == DatasetRoot then Some(req.guid) else None)
  }

  predicate Upstream(direction: LineageDirection) {
    direction == INPUT || direction == BOTH
  }

  predicate Downstream(direction: LineageDirection) {
    direction == OUTPUT || direction == BOTH
  }

  /** A dataset root: an upstream walk, then a downstream one, each with its
      own visited set, both recording into the same result. */
  function DatasetLineage(g: Graph, env: LineageEnv, ctx: LineageContext, root: VertexId, direction: LineageDirection,
                          depth: int, info: LineageInfo): (r: LineageInfo)
    requires WellFormed(g) && root in g.vertices
    ensures info.relations <= r.relations && info.guidEntityMap.Keys <= r.guidEntityMap.Keys
    ensures r.baseEntityGuid == info.baseEntityGuid && r.lineageDirection == info.lineageDirection
    ensures r.lineageDepth == info.lineageDepth
  {
    var up := if Upstream(direction) then TraverseFrom(g, env, ctx, root, true, depth, info).info else info;
    if Downstream(direction) then TraverseFrom(g, env, ctx, root, false, depth, up).info else up
  }

  /** The free first hop from a process root: every edge is offered to
      `addEdgeToResult`, and the dataset it reaches is walked with one less
      depth whether or not the edge was recorded. */
  function ProcessRootHop(g: Graph, env: LineageEnv, ctx: LineageContext, edges: seq<Edge>, isInput: bool,
                          depth: int, info: LineageInfo): (r: Result<LineageInfo>)
    requires WellFormed(g) && IsInt32(depth)
    requires forall e :: e in edges ==> e in g.edges
    ensures r.Success? ==> info.relations <= r.value.relations && info.guidEntityMap.Keys <= r.value.guidEntityMap.Keys
    ensures r.Success? ==> r.value.baseEntityGuid == info.baseEntityGuid && r.value.lineageDirection == info.lineageDirection
    ensures r.Success? ==> r.value.lineageDepth == info.lineageDepth
    ensures r.Success? ==> forall e :: e in edges && Recordable(env, e) ==>
      exists rel :: rel in r.value.relations && rel.relationshipId == e.relationshipGuid
    decreases |edges|
  {
    if |edges| == 0 then Success(info)
    else
      var e := edges[0];
      var info1 :- AddEdgeToResult(env, e, info);
      EdgeEndpointsInGraph(g, e);
      var w := TraverseFrom(g, env, ctx, e.inV, isInput, AddInt32(depth, -1), info1);
      var r := ProcessRootHop(g, env, ctx, edges[1..], isInput, depth, w.info);
      assert r.Success? && Recordable(env, e) ==>
        exists rel :: rel in r.value.relations && rel.relationshipId == e.relationshipGuid by {
        if r.Success? && Recordable(env, e) {
          if info1 == info {
            var rel :| rel in info.relations && rel.relationshipId == e.relationshipGuid;
            assert rel in r.value.relations;
          } else {
            assert RelationOfEdge(e) in r.value.relations;
          }
        }
      }
      r
  }

  /** A process root: the first hop over its `__Process.inputs` edges
      upstream, then over its `__Process.outputs` edges downstream. */
  function ProcessLineage(g: Graph, env: LineageEnv, ctx: LineageContext, root: VertexId, direction: LineageDirection,
                          depth: int, info: LineageInfo): (r: Result<LineageInfo>)
    requires WellFormed(g) && IsInt32(depth)
    ensures r.Success? ==> info.relations <= r.value.relations
    ensures r.Success? ==> r.value.baseEntityGuid == info.baseEntityGuid && r.value.lineageDirection == info.lineageDirection
    ensures r.Success? ==> r.value.lineageDepth == info.lineageDepth
  {
    var up :- if Upstream(direction) then ProcessRootHop(g, env, ctx, OutEdges(g, root, ProcessInputs), true, depth, info)
              else Success(info);
    if Downstream(direction) then ProcessRootHop(g, env, ctx, OutEdges(g, root, ProcessOutputs), false, depth, up)
    else Success(up)
  }

  /** `getLineageInfoV2`: the result carries the caller's depth; the walk
      starts with `TraversalDepth` of it. */
  function LineageInfoV2(g: Graph, env: LineageEnv, req: LineageRequest, kind: RootKind): (r: Result<LineageInfo>)
    requires WellFormed(g) && req.guid in g.vertices && IsInt32(req.depth)
    ensures r.Success? ==> r.value.baseEntityGuid == req.guid && r.value.lineageDirection == req.direction
    ensures r.Success? ==> r.value.lineageDepth == req.depth
    ensures kind == DatasetRoot ==> r.Success?
  {
    var info := LineageInfo(req.guid, map[], {}, req.direction, req.depth);
    var ctx := RootContext(req, kind);
    if kind == DatasetRoot then Success(DatasetLineage(g, env, ctx, req.guid, req.direction, TraversalDepth(req.depth), info))
    else ProcessLineage(g, env, ctx, req.guid, req.direction, TraversalDepth(req.depth), info)
  }

  // ---------------------------------------------------------------------
  // getLineageInfoV1: the relations are read off the edges a Gremlin query
  // returns; running the query is a parameter of the model

  datatype GremlinQuery = FULL_LINEAGE_DATASET | FULL_LINEAGE_PROCESS | PARTIAL_LINEAGE_DATASET | PARTIAL_LINEAGE_PROCESS

  /** The script bindings; a label is absent (null) for BOTH. */
  datatype Bindings = Bindings(
    guid: string,
    incomingEdgeLabel: Option<string>,
    outgoingEdgeLabel: Option<string>,
    dataSetDepth: int,
    processDepth: int)

  datatype LineageQuery = LineageQuery(query: GremlinQuery, bindings: Bindings)

  /** `getLineageQuery`: the edge labels are the ones the graph walk follows
      in the same direction, `processDepth` is `depth - 1` in 32-bit
      arithmetic, and a depth below 1 selects the full-lineage script. */
  function GetLineageQuery(guid: string, direction: LineageDirection, depth: int, isDataSet: bool): (q: LineageQuery)
    requires IsInt32(depth)
    ensures q.query.FULL_LINEAGE_DATASET? || q.query.FULL_LINEAGE_PROCESS? <==> depth < 1
    ensures q.query.FULL_LINEAGE_DATASET? || q.query.PARTIAL_LINEAGE_DATASET? <==> isDataSet
    ensures q.bindings.guid == guid && q.bindings.dataSetDepth == depth
    ensures depth != INT_MIN ==> q.bindings.processDepth == depth - 1
    ensures depth == INT_MIN ==> q.bindings.processDepth == INT_MAX
    ensures direction == INPUT ==>
      q.bindings.incomingEdgeLabel == Some(IncomingLabel(true).Name()) && q.bindings.outgoingEdgeLabel == Some(OutgoingLabel(true).Name())
    ensures direction == OUTPUT ==>
      q.bindings.incomingEdgeLabel == Some(IncomingLabel(false).Name()) && q.bindings.outgoingEdgeLabel == Some(OutgoingLabel(false).Name())
    ensures direction == BOTH ==> q.bindings.incomingEdgeLabel.None? && q.bindings.outgoingEdgeLabel.None?
  {
    var incomingFrom: Option<string> :=
      if direction == INPUT then Some(ProcessOutputs.Name()) else if direction == OUTPUT then Some(ProcessInputs.Name()) else None;
    var outgoingTo: Option<string> :=
      if direction == INPUT then Some(ProcessInputs.Name()) else if direction == OUTPUT then Some(ProcessOutputs.Name()) else None;
    var bindings := Bindings(guid, incomingFrom, outgoingTo, depth, AddInt32(depth, -1));
    if depth < 1 then LineageQuery(if isDataSet then FULL_LINEAGE_DATASET else FULL_LINEAGE_PROCESS, bindings)
    else LineageQuery(if isDataSet then PARTIAL_LINEAGE_DATASET else PARTIAL_LINEAGE_PROCESS, bindings)
  }

  /** The relations `processEdge` makes of a list of edges, as a set. */
  function RelationsOf(env: LineageEnv, edges: seq<Edge>): set<LineageRelation> {
    if |edges| == 0 then {}
    else (if Recordable(env, edges[0]) then {RelationOfEdge(edges[0])} else {}) + RelationsOf(env, edges[1..])
  }

  /** `RelationsOf` holds exactly the relations of the recordable edges. */
  lemma {:induction false} RelationsOfMembers(env: LineageEnv, edges: seq<Edge>, rel: LineageRelation)
    ensures rel in RelationsOf(env, edges) <==> exists e :: e in edges && Recordable(env, e) && rel == RelationOfEdge(e)
    decreases |edges|
  {
    if |edges| > 0 {
      RelationsOfMembers(env, edges[1..], rel);
      if rel in RelationsOf(env, edges[1..]) {
        var e :| e in edges[1..] && Recordable(env, e) && rel == RelationOfEdge(e);
        assert e in edges;
      }
      if exists e :: e in edges && Recordable(env, e) && rel == RelationOfEdge(e) {
        var e :| e in edges && Recordable(env, e) && rel == RelationOfEdge(e);
        if e != edges[0] {
          assert e in edges[1..];
        }
      }
    }
  }

  /** The loop of `getLineageInfo` over the returned edges. */
  function RecordEdges(env: LineageEnv, edges: seq<Edge>, info: LineageInfo): (r: LineageInfo)
    ensures r.relations == info.relations + RelationsOf(env, edges)
    ensures info.guidEntityMap.Keys <= r.guidEntityMap.Keys
    ensures NoDangling(info) ==> NoDangling(r)
    ensures Projected(env, info) ==> Projected(env, r)
    ensures r.baseEntityGuid == info.baseEntityGuid && r.lineageDirection == info.lineageDirection
    ensures r.lineageDepth == info.lineageDepth
    decreases |edges|
  {
    if |edges| == 0 then info
    else
      var info1 := ProcessEdge(env, edges[0], info);
      ProcessEdgeKeepsShape(env, edges[0], info);
      RecordEdges(env, edges[1..], info1)
  }

  lemma ProcessEdgeKeepsShape(env: LineageEnv, edge: Edge, info: LineageInfo)
    ensures NoDangling(info) ==> NoDangling(ProcessEdge(env, edge, info))
    ensures Projected(env, info) ==> Projected(env, ProcessEdge(env, edge, info))
  {
    if Recordable(env, edge) && Projected(env, info) {
      MaterializeProjected(env, info.guidEntityMap, edge.inV);
      MaterializeProjected(env, Materialize(env, info.guidEntityMap, edge.inV), edge.outV);
    }
  }

  /** `getLineageInfo` for one direction: run the query, record its edges. */
  function GetLineageInfo(env: LineageEnv, run: LineageQuery -> Result<seq<Edge>>, guid: string, direction: LineageDirection,
                          depth: int, isDataSet: bool): (r: Result<LineageInfo>)
    requires IsInt32(depth)
    ensures var ran := run(GetLineageQuery(guid, direction, depth, isDataSet));
      && (r.Success? <==> ran.Success?)
      && (r.Failure? ==> r.error == ran.error)
      && (r.Success? ==> r.value.relations == RelationsOf(env, ran.value) && NoDangling(r.value) && Projected(env, r.value))
    ensures r.Success? ==> r.value.baseEntityGuid == guid && r.value.lineageDirection == direction && r.value.lineageDepth == depth
  {
    var edges :- run(GetLineageQuery(guid, direction, depth, isDataSet));
    Success(RecordEdges(env, edges, LineageInfo(guid, map[], {}, direction, depth)))
  }

  /** `getBothLineageInfoV1`: the INPUT result with the OUTPUT relations
      and entities added, tagged BOTH. */
  function GetBothLineageInfoV1(env: LineageEnv, run: LineageQuery -> Result<seq<Edge>>, guid: string, depth: int,
                                isDataSet: bool): (r: Result<LineageInfo>)
    requires IsInt32(depth)
    ensures var input := GetLineageInfo(env, run, guid, INPUT, depth, isDataSet);
      var output := GetLineageInfo(env, run, guid, OUTPUT, depth, isDataSet);
      && (r.Success? <==> input.Success? && output.Success?)
      && (r.Success? ==>
            && r.value.relations == input.value.relations + output.value.relations
            && r.value.guidEntityMap.Keys == input.value.guidEntityMap.Keys + output.value.guidEntityMap.Keys
            && NoDangling(r.value) && Projected(env, r.value))
    ensures r.Success? ==> r.value.baseEntityGuid == guid && r.value.lineageDirection == BOTH && r.value.lineageDepth == depth
  {
    var input :- GetLineageInfo(env, run, guid, INPUT, depth, isDataSet);
    var output :- GetLineageInfo(env, run, guid, OUTPUT, depth, isDataSet);
    Success(input.(relations := input.relations + output.relations,
                   guidEntityMap := input.guidEntityMap + output.guidEntityMap,
                   lineageDirection := BOTH))
  }

  /** `getLineageInfoV1`: one query per direction, two for BOTH. */
  function LineageInfoV1(env: LineageEnv, run: LineageQuery -> Result<seq<Edge>>, req: LineageRequest, kind: RootKind): (r: Result<LineageInfo>)
    requires IsInt32(req.depth)
    ensures r.Success? ==> r.value.baseEntityGuid == req.guid && r.value.lineageDirection == req.direction
    ensures r.Success? ==> r.value.lineageDepth == req.depth && NoDangling(r.value) && Projected(env, r.value)
  {
    match req.direction
    case INPUT => GetLineageInfo(env, run, req.guid, INPUT, req.depth, kind == DatasetRoot)
    case OUTPUT => GetLineageInfo(env, run, req.guid, OUTPUT, req.depth, kind == DatasetRoot)
    case BOTH => GetBothLineageInfoV1(env, run, req.guid, req.depth, kind == DatasetRoot)
  }

  /** `getAtlasLineageInfo(AtlasLineageRequest)`: the root checks, then the
      query-based or the graph-walk lineage as configured. */
  function GetAtlasLineageInfo(g: Graph, env: LineageEnv, reg: Registry, useGremlin: bool,
                               run: LineageQuery -> Result<seq<Edge>>, req: LineageRequest): (r: Result<LineageInfo>)
    requires WellFormed(g) && IsInt32(req.depth)
    ensures ClassifyRoot(g, env, reg, req).Failure? ==> r == Failure(ClassifyRoot(g, env, reg, req).error)
    ensures r.Success? ==> r.value.baseEntityGuid == req.guid && r.value.lineageDirection == req.direction
    ensures r.Success? ==> r.value.lineageDepth == req.depth
  {
    var kind :- ClassifyRoot(g, env, reg, req);
    if useGremlin then LineageInfoV1(env, run, req, kind) else LineageInfoV2(g, env, req, kind)
  }

  // ---------------------------------------------------------------------
  // Properties of the graph-walk lineage

  /** In expanded mode over a graph whose edges all carry their guid, the
      first hop from a process root never fails and keeps the result
      invariant. */
  lemma {:induction false} ProcessRootHopSound(g: Graph, env: LineageEnv, ctx: LineageContext, edges: seq<Edge>, isInput: bool,
                                               depth: int, info: LineageInfo)
    requires WellFormed(g) && GuidsPresent(g) && IsInt32(depth) && !ctx.hideProcess
    requires forall e :: e in edges ==> e in g.edges
    requires Inv(g, env, ctx, info)
    ensures var r := ProcessRootHop(g, env, ctx, edges, isInput, depth, info); r.Success? && Inv(g, env, ctx, r.value)
    decreases |edges|
  {
    if |edges| > 0 {
      var e := edges[0];
      AddEdgeToResultKeepsInv(g, env, ctx, e, info);
      var info1 := AddEdgeToResult(env, e, info).value;
      EdgeEndpointsInGraph(g, e);
      TraverseFromSound(g, env, ctx, e.inV, isInput, AddInt32(depth, -1), info1);
      var w := TraverseFrom(g, env, ctx, e.inV, isInput, AddInt32(depth, -1), info1);
      ProcessRootHopSound(g, env, ctx, edges[1..], isInput, depth, w.info);
    }
  }

  lemma EmptyInfoInv(g: Graph, env: LineageEnv, ctx: LineageContext, info: LineageInfo)
    requires info.relations == {} && info.guidEntityMap == map[]
    ensures Inv(g, env, ctx, info)
  {
  }

  /** `getLineageInfoV2` succeeds for every dataset root, and for every
      expanded-mode process root of a graph whose edges carry their guid;
      its result keeps the invariant of the recording mode: no dangling
      endpoints, projected headers, relations backed by graph edges, and in
      hide-process mode only visible dataset endpoints. */
  lemma LineageInfoV2Sound(g: Graph, env: LineageEnv, req: LineageRequest, kind: RootKind)
    requires WellFormed(g) && req.guid in g.vertices && IsInt32(req.depth)
    requires kind == ProcessRoot ==> !req.hideProcess && GuidsPresent(g)
    ensures var r := LineageInfoV2(g, env, req, kind); r.Success? && Inv(g, env, RootContext(req, kind), r.value)
  {
    var info := LineageInfo(req.guid, map[], {}, req.direction, req.depth);
    var ctx := RootContext(req, kind);
    var depth := TraversalDepth(req.depth);
    EmptyInfoInv(g, env, ctx, info);
    if kind == DatasetRoot {
      var up := if Upstream(req.direction) then TraverseFrom(g, env, ctx, req.guid, true, depth, info).info else info;
      TraverseFromSound(g, env, ctx, req.guid, true, depth, info);
      TraverseFromSound(g, env, ctx, req.guid, false, depth, up);
    } else {
      ProcessRootHopSound(g, env, ctx, OutEdges(g, req.guid, ProcessInputs), true, depth, info);
      var up := if Upstream(req.direction) then ProcessRootHop(g, env, ctx, OutEdges(g, req.guid, ProcessInputs), true, depth, info).value
                else info;
      ProcessRootHopSound(g, env, ctx, OutEdges(g, req.guid, ProcessOutputs), false, depth, up);
    }
  }

  /** Without the guid property a process root can fail: its first input
      edge is recorded as a relation without an id, and `lineageContainsEdge`
      then throws on the second edge. */
  lemma MissingGuidFailsProcessRoot()
    ensures var e1 := Edge(ProcessInputs, "p", "d1", None);
      var e2 := Edge(ProcessInputs, "p", "d2", None);
      var g := Graph({"p", "d1", "d2"}, [e1, e2]);
      var env := LineageEnv(v => if v == "p" then PROCESS_SUPER_TYPE else DATA_SET_SUPER_TYPE,
                            t => t == PROCESS_SUPER_TYPE, _ => true, v => EntityHeader(v, "", map[]));
      && WellFormed(g) && !GuidsPresent(g)
      && LineageInfoV2(g, env, LineageRequest("p", 1, INPUT, false), ProcessRoot) == Failure(NullPointer)
  {
    var e1 := Edge(ProcessInputs, "p", "d1", None);
    var e2 := Edge(ProcessInputs, "p", "d2", None);
    var g := Graph({"p", "d1", "d2"}, [e1, e2]);
    var env := LineageEnv(v => if v == "p" then PROCESS_SUPER_TYPE else DATA_SET_SUPER_TYPE,
                          t => t == PROCESS_SUPER_TYPE, _ => true, v => EntityHeader(v, "", map[]));
    var req := LineageRequest("p", 1, INPUT, false);
    var ctx := RootContext(req, ProcessRoot);
    var info := LineageInfo("p", map[], {}, INPUT, 1);
    assert OutEdgesOf([e2], "p", ProcessInputs) == [e2];
    assert OutEdges(g, "p", ProcessInputs) == [e1, e2];
    assert TraversalDepth(1) == 1 && AddInt32(1, -1) == 0;
    assert Recordable(env, e1);
    var info1 := ProcessEdge(env, e1, info);
    assert AddEdgeToResult(env, e1, info) == Success(info1);
    assert RelationOfEdge(e1) in info1.relations;
    assert TraverseFrom(g, env, ctx, "d1", true, 0, info1).info == info1;
    assert AddEdgeToResult(env, e2, info1) == Failure(NullPointer);
    assert ProcessRootHop(g, env, ctx, [e1, e2], true, 1, info) == Failure(NullPointer);
  }

  /** Whatever the checks admit, the graph-walk path answers (for a process
      root, when the graph's edges carry their guid), and its answer keeps
      the invariant; in particular a hide-process walk never starts from a
      process root, where `lineageContainsEdge` would meet a compressed
      relation. */
  lemma GetAtlasLineageInfoV2Sound(g: Graph, env: LineageEnv, reg: Registry, run: LineageQuery -> Result<seq<Edge>>, req: LineageRequest)
    requires WellFormed(g) && IsInt32(req.depth)
    requires ClassifyRoot(g, env, reg, req).Success?
    requires ClassifyRoot(g, env, reg, req).value == ProcessRoot ==> GuidsPresent(g)
    ensures var r := GetAtlasLineageInfo(g, env, reg, false, run, req);
      && r.Success?
      && Inv(g, env, RootContext(req, ClassifyRoot(g, env, reg, req).value), r.value)
  {
    var kind := ClassifyRoot(g, env, reg, req).value;
    LineageInfoV2Sound(g, env, req, kind);
  }

  /** Two maps of projected headers are determined by their keys. */
  lemma ProjectedMapsUnion(env: LineageEnv, a: map<string, EntityHeader>, b: map<string, EntityHeader>, c: map<string, EntityHeader>)
    requires a.Keys == b.Keys + c.Keys
    requires forall k :: k in a ==> a[k] == env.project(k)
    requires forall k :: k in b ==> b[k] == env.project(k)
    requires forall k :: k in c ==> c[k] == env.project(k)
    ensures a == b + c
  {
    var m := b + c;
    assert a.Keys == m.Keys;
    forall k | k in m
      ensures a[k] == m[k]
    {
    }
  }

  /** The walk results under the three directions, from the same root. */
  lemma DatasetWalksAddUp(g: Graph, env: LineageEnv, ctx: LineageContext, root: VertexId, depth: int,
                          infoB: LineageInfo, infoI: LineageInfo, infoO: LineageInfo)
    requires WellFormed(g) && root in g.vertices
    requires infoB.relations == {} && infoB.guidEntityMap == map[]
    requires infoI.relations == {} && infoI.guidEntityMap == map[]
    requires infoO.relations == {} && infoO.guidEntityMap == map[]
    ensures var up := TraverseFrom(g, env, ctx, root, true, depth, infoB).info;
      var both := TraverseFrom(g, env, ctx, root, false, depth, up).info;
      var input := TraverseFrom(g, env, ctx, root, true, depth, infoI).info;
      var output := TraverseFrom(g, env, ctx, root, false, depth, infoO).info;
      && both.relations == input.relations + output.relations
      && both.guidEntityMap.Keys == input.guidEntityMap.Keys + output.guidEntityMap.Keys
  {
    var up := TraverseFrom(g, env, ctx, root, true, depth, infoB).info;
    TraverseFromAddsAsBlank(g, env, ctx, root, true, depth, infoB);
    TraverseFromAddsAsBlank(g, env, ctx, root, true, depth, infoI);
    TraverseFromAddsAsBlank(g, env, ctx, root, false, depth, up);
    TraverseFromAddsAsBlank(g, env, ctx, root, false, depth, infoO);
  }

  lemma WalkProjected(g: Graph, env: LineageEnv, ctx: LineageContext, root: VertexId, isInput: bool, depth: int, info: LineageInfo)
    requires WellFormed(g) && root in g.vertices && Inv(g, env, ctx, info)
    ensures var r := TraverseFrom(g, env, ctx, root, isInput, depth, info).info; Inv(g, env, ctx, r) && Projected(env, r)
  {
    TraverseFromSound(g, env, ctx, root, isInput, depth, info);
  }

  /** For a dataset root, BOTH records exactly the union of what INPUT and
      OUTPUT record: the two walks do not see each other's results. */
  lemma DatasetBothIsUnion(g: Graph, env: LineageEnv, req: LineageRequest)
    requires WellFormed(g) && req.guid in g.vertices && IsInt32(req.depth) && req.direction == BOTH
    ensures var both := LineageInfoV2(g, env, req, DatasetRoot).value;
      var input := LineageInfoV2(g, env, req.(direction := INPUT), DatasetRoot).value;
      var output := LineageInfoV2(g, env, req.(direction := OUTPUT), DatasetRoot).value;
      && both.relations == input.relations + output.relations
      && both.guidEntityMap == input.guidEntityMap + output.guidEntityMap
  {
    var ctx := RootContext(req, DatasetRoot);
    assert RootContext(req.(direction := INPUT), DatasetRoot) == ctx;
    assert RootContext(req.(direction := OUTPUT), DatasetRoot) == ctx;
    var depth := TraversalDepth(req.depth);
    var root := req.guid;
    var infoB := LineageInfo(root, map[], {}, BOTH, req.depth);
    var infoI := LineageInfo(root, map[], {}, INPUT, req.depth);
    var infoO := LineageInfo(root, map[], {}, OUTPUT, req.depth);
    DatasetWalksAddUp(g, env, ctx, root, depth, infoB, infoI, infoO);
    var up := TraverseFrom(g, env, ctx, root, true, depth, infoB).info;
    EmptyInfoInv(g, env, ctx, infoB);
    EmptyInfoInv(g, env, ctx, infoI);
    EmptyInfoInv(g, env, ctx, infoO);
    WalkProjected(g, env, ctx, root, true, depth, infoB);
    WalkProjected(g, env, ctx, root, false, depth, up);
    WalkProjected(g, env, ctx, root, true, depth, infoI);
    WalkProjected(g, env, ctx, root, false, depth, infoO);
    var both := TraverseFrom(g, env, ctx, root, false, depth, up).info;
    var input := TraverseFrom(g, env, ctx, root, true, depth, infoI).info;
    var output := TraverseFrom(g, env, ctx, root, false, depth, infoO).info;
    ProjectedMapsUnion(env, both.guidEntityMap, input.guidEntityMap, output.guidEntityMap);
    DatasetRootLineage(g, env, req);
    DatasetRootLineage(g, env, req.(direction := INPUT));
    DatasetRootLineage(g, env, req.(direction := OUTPUT));
    assert DatasetLineage(g, env, ctx, root, BOTH, depth, infoB) == both;
    assert DatasetLineage(g, env, ctx, root, INPUT, depth, infoI) == input;
    assert DatasetLineage(g, env, ctx, root, OUTPUT, depth, infoO) == output;
  }

  /** A dataset root's answer is the dataset walk from an empty result. */
  lemma DatasetRootLineage(g: Graph, env: LineageEnv, req: LineageRequest)
    requires WellFormed(g) && req.guid in g.vertices && IsInt32(req.depth)
    ensures LineageInfoV2(g, env, req, DatasetRoot)
         == Success(DatasetLineage(g, env, RootContext(req, DatasetRoot), req.guid, req.direction, TraversalDepth(req.depth),
                                   LineageInfo(req.guid, map[], {}, req.direction, req.depth)))
  {
  }

  /** With depth 1 a process root shows only its own edges: each adjacent
      dataset is walked with depth 0, which records nothing. */
  lemma {:induction false} ProcessRootHopDepthOne(g: Graph, env: LineageEnv, ctx: LineageContext, edges: seq<Edge>, isInput: bool,
                                                  info: LineageInfo)
    requires WellFormed(g)
    requires forall e :: e in edges ==> e in g.edges
    ensures var r := ProcessRootHop(g, env, ctx, edges, isInput, 1, info);
      r.Success? ==> forall rel :: rel in r.value.relations ==> rel in info.relations || exists e :: e in edges && rel == RelationOfEdge(e)
    decreases |edges|
  {
    if |edges| > 0 {
      var e := edges[0];
      var added := AddEdgeToResult(env, e, info);
      if added.Success? {
        var info1 := added.value;
        assert AddInt32(1, -1) == 0;
        EdgeEndpointsInGraph(g, e);
        assert TraverseFrom(g, env, ctx, e.inV, isInput, 0, info1).info == info1;
        ProcessRootHopDepthOne(g, env, ctx, edges[1..], isInput, info1);
        var r := ProcessRootHop(g, env, ctx, edges, isInput, 1, info);
        if r.Success? {
          forall rel | rel in r.value.relations
            ensures rel in info.relations || exists e' :: e' in edges && rel == RelationOfEdge(e')
          {
            if rel !in info.relations {
              if rel in info1.relations {
                assert rel == RelationOfEdge(e);
              } else {
                var e' :| e' in edges[1..] && rel == RelationOfEdge(e');
                assert e' in edges;
              }
            }
          }
        }
      }
    }
  }

  lemma ProcessLineageDepthOne(g: Graph, env: LineageEnv, req: LineageRequest)
    requires WellFormed(g) && req.guid in g.vertices && req.depth == 1
    ensures var r := LineageInfoV2(g, env, req, ProcessRoot);
      r.Success? ==> forall rel :: rel in r.value.relations ==> exists e :: e in g.edges && e.outV == req.guid && rel == RelationOfEdge(e)
  {
    var ctx := RootContext(req, ProcessRoot);
    var info := LineageInfo(req.guid, map[], {}, req.direction, req.depth);
    var ins := OutEdges(g, req.guid, ProcessInputs);
    var outs := OutEdges(g, req.guid, ProcessOutputs);
    assert TraversalDepth(req.depth) == 1;
    ProcessRootHopDepthOne(g, env, ctx, ins, true, info);
    var up := if Upstream(req.direction) then ProcessRootHop(g, env, ctx, ins, true, 1, info) else Success(info);
    if up.Success? {
      ProcessRootHopDepthOne(g, env, ctx, outs, false, up.value);
    }
  }
}
