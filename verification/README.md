# Atlas metastore lineage and preprocessors, in Dafny

This project models the lineage service of the Atlas metastore together with a
set of smaller components from the same repository. It states and proves
properties of that model.

**Lineage (`EntityLineageService`).**
- The root entity is checked first: it must exist, the caller must be allowed
  to read it, its type must be registered, and it must be a dataset or a process.
- The graph-walk lineage is a depth-limited walk from dataset to dataset
  through processes. A visited set stops it from looping.
- Lineage can be recorded in two modes:
  - expanded mode records every `__Process.inputs` / `__Process.outputs` edge;
  - compressed ("hide process") mode records one dataset-to-dataset relation
    that carries the process guid.
- The query-based lineage records the edges that a Gremlin script returns.

The lineage is split over four modules:

- `LineageGraph` is the graph: a vertex set and an ordered edge list. It also
  defines hop-paths for stating reachability.
- `LineageAssembler` is the recording step (`processEdge`, `processEdges`,
  `processVirtualEdge`, `addEdgeToResult`, `lineageContainsEdge`) plus the
  invariant every recording step keeps.
- `LineageTraversal` is `traverseEdges`. It is written as three mutually
  recursive functions that thread the visited set. Termination rests on the
  set of unvisited vertices, not on the depth.
- `EntityLineageService` holds the entry point, the process-root first hop,
  and the query-based path.

**The other components**, one module each:

- `AuthzCacheOnDemandRefresher`: which mutations make the authorizer reload its
  policies or its roles.
- `ContractPreProcessor`: naming, status sync and versioning of data contracts.
- `AccessControlUtil`: alias names, policy predicates, Ranger paging and
  matching, and access-control guards.
- `ESAliasStore`: the Elasticsearch alias filters of personas and purposes.
- `SearchContextCache`: the async-search id cache over a remote and a local map.
- `TaskExecutor`: the task consumer, as a trace of the registry calls it makes.
- `TermPreProcessor`: glossary term create and update, and the meanings-text
  rewrite.
- `DataProductPreProcessor`: moving a data product between domains, and the
  duplicate-name check.
- `AbstractResourcePreProcessor`: which entity a readme or link change is
  authorised against.
- `ReadmePreProcessor`: readme naming, restore and update.
- `DataMeshAttrMigration`: the port-guid property migration.
- `AtlasAbstractDefStoreV1`: type name validation and the vertex a delete
  removes.
- `PersonaContext`: the flags of a persona-policy mutation.

**Shared modules.**
- `Wrappers` has `Option` (a Java reference that may be null), `Result` and
  `Outcome` (a value or the exception that replaces it), and the error codes.
- `Text` has the `java.lang.String` and `Integer` operations the code relies
  on, with Java's edge cases:
  - `split` drops trailing empty segments;
  - `replace`;
  - `lastIndexOf`;
  - `Integer.parseInt` / `toString`;
  - 32-bit `int` addition.

**Parameters of the model.** Collaborators the code calls but does not
implement are parameters:
- the entity retriever's header projection, the `evaluate` visibility test,
  `isProcessEntity`, the type registry and the authorizer;
- Gremlin execution, index search, the JSON parser, the entity comparator
  and the Ranger service.

Constants.java is not part of this model. The type names, attribute names and
other literals it defines use Atlas's usual values:
- `"DataSet"`, `"Process"`, `"Persona"`, `"Purpose"`, `"AuthPolicy"`;
- `"__traitNames"`, `"DataDomain"`, `"DataProduct"`;
- `"PersonaMetadataPolicy"` and `"PersonaGlossaryPolicy"`.

## Model

| member | source | states |
|---|---|---|
| EntityLineageService.ClassifyRoot | repository/src/main/java/org/apache/atlas/discovery/EntityLineageService.java:111-138 | The root checks run in source order: header lookup (guid not found), ENTITY_READ authorization, registered type (TYPE_NAME_NOT_FOUND), then dataset before process. A type that is both dataset and process is a dataset. A process root with hide-process is refused with the hide-process error, and a type that is neither is refused with INVALID_LINEAGE_ENTITY_TYPE. |
| EntityLineageService.TraversalDepth | repository/src/main/java/org/apache/atlas/discovery/EntityLineageService.java:285-289 | Depth 0 ("all levels") becomes a negative budget, which decrementing never brings back to 0. Any other depth is kept. |
| EntityLineageService.RootContext | repository/src/main/java/org/apache/atlas/discovery/EntityLineageService.java:291-293 | Only a dataset root sets the start dataset vertex. Hide-process is passed through. |
| EntityLineageService.DatasetLineage | repository/src/main/java/org/apache/atlas/discovery/EntityLineageService.java:291-301 | A dataset root walks upstream and then downstream, as the direction selects. The result only grows, and its header fields are unchanged. |
| EntityLineageService.ProcessRootHop | repository/src/main/java/org/apache/atlas/discovery/EntityLineageService.java:306-330 | Every OUT edge of the process root is offered to `addEdgeToResult`. On success, every recordable edge has a relation with its relationship id in the result. |
| EntityLineageService.ProcessLineage | repository/src/main/java/org/apache/atlas/discovery/EntityLineageService.java:302-331 | A process root does its first hop over the inputs edges upstream and over the outputs edges downstream. The result only grows. |
| EntityLineageService.LineageInfoV2 | repository/src/main/java/org/apache/atlas/discovery/EntityLineageService.java:280-334 | The result carries the root guid, the direction and the CALLER's depth (not the adjusted one). A dataset root always succeeds. |
| EntityLineageService.GetLineageQuery | repository/src/main/java/org/apache/atlas/discovery/EntityLineageService.java:574-602 | Edge-label bindings: INPUT is (outputs, inputs), OUTPUT is (inputs, outputs), BOTH is null. `dataSetDepth` is d and `processDepth` is d-1 in 32-bit arithmetic. The FULL script is chosen iff d < 1; the dataset variant iff the root is a dataset. |
| EntityLineageService.RelationsOfMembers | repository/src/main/java/org/apache/atlas/discovery/EntityLineageService.java:250-276 | A relation comes out of the returned edges iff it is the relation of some recordable edge. |
| EntityLineageService.RecordEdges | repository/src/main/java/org/apache/atlas/discovery/EntityLineageService.java:250-276 | Recording the returned edges adds exactly their relations. It keeps every endpoint in the entity map and every header projected. |
| EntityLineageService.GetLineageInfo | repository/src/main/java/org/apache/atlas/discovery/EntityLineageService.java:239-278 | The query result fails iff the query fails. Otherwise its relations are exactly those of the recordable returned edges, with no dangling endpoint and projected headers. |
| EntityLineageService.GetBothLineageInfoV1 | repository/src/main/java/org/apache/atlas/discovery/EntityLineageService.java:562-572 | BOTH is the union of the INPUT and OUTPUT relations and entity keys, tagged BOTH. It fails iff either query fails. |
| EntityLineageService.LineageInfoV1 | repository/src/main/java/org/apache/atlas/discovery/EntityLineageService.java:224-237 | One query per direction, and both for BOTH. The result has no dangling relation endpoints and projected headers. |
| EntityLineageService.GetAtlasLineageInfo | repository/src/main/java/org/apache/atlas/discovery/EntityLineageService.java:111-149 | A failed root check is the answer. Otherwise the result carries the request's guid, direction and depth. |
| EntityLineageService.ProcessRootHopSound | repository/src/main/java/org/apache/atlas/discovery/EntityLineageService.java:306-330 | In expanded mode, on a graph whose edges all carry a relationship guid, the first hop never fails and keeps the lineage invariant: every relation it meets has an id. |
| EntityLineageService.LineageInfoV2Sound | repository/src/main/java/org/apache/atlas/discovery/EntityLineageService.java:280-334 | Every admitted root gets an answer that satisfies the invariant; a process root needs expanded mode and edges that all carry a relationship guid. Relations are backed by graph edges (expanded) or by process paths (compressed). There are no dangling ids, headers are projected, and compressed endpoints are visible or the start dataset. |
| EntityLineageService.GetAtlasLineageInfoV2Sound | repository/src/main/java/org/apache/atlas/discovery/EntityLineageService.java:111-149 | Whatever the root checks admit, the graph-walk path answers, provided that for a process root every edge carries a relationship guid. Its answer satisfies the invariant. |
| EntityLineageService.MissingGuidFailsProcessRoot | repository/src/main/java/org/apache/atlas/discovery/EntityLineageService.java:391-407 | A process root with two inputs edges that lack a relationship guid: the first is recorded with a null id, and `lineageContainsEdge` on the second dereferences that null id, so the lineage fails with a null pointer. |
| EntityLineageService.DatasetBothIsUnion | repository/src/main/java/org/apache/atlas/discovery/EntityLineageService.java:295-301 | For a dataset root, BOTH records exactly the union of what INPUT and OUTPUT record, because each walk has its own visited set. |
| EntityLineageService.ProcessLineageDepthOne | repository/src/main/java/org/apache/atlas/discovery/EntityLineageService.java:306-330 | With depth 1, a process root's lineage holds only the relations of its own edges. |
| LineageGraph.InEdgesOf | repository/src/main/java/org/apache/atlas/discovery/EntityLineageService.java:347 | The IN edges with a label are exactly the edges ending at the vertex with that label, in store order. |
| LineageGraph.OutEdgesOf | repository/src/main/java/org/apache/atlas/discovery/EntityLineageService.java:352 | The OUT edges with a label are exactly the edges leaving the vertex with that label. |
| LineageGraph.ReachStep | repository/src/main/java/org/apache/atlas/discovery/EntityLineageService.java:347-366 | One dataset-process-dataset hop in the walk's direction extends an n-hop path to n+1 hops. |
| LineageAssembler.Materialize | repository/src/main/java/org/apache/atlas/discovery/EntityLineageService.java:540-548 | The `containsKey` guard: the vertex becomes a key, and an existing header is never replaced. |
| LineageAssembler.ProcessEdge | repository/src/main/java/org/apache/atlas/discovery/EntityLineageService.java:528-556 | An edge is recorded only if an endpoint that is not a process passes `evaluate`. Recording adds its relation (dataset to process for inputs, process to dataset for outputs) and both endpoints as keys. |
| LineageAssembler.LineageContainsEdge | repository/src/main/java/org/apache/atlas/discovery/EntityLineageService.java:391-407 | The edge is found iff some relation carries its relationship guid. It fails with a null dereference iff some relation has no id. |
| LineageAssembler.AddEdgeToResult | repository/src/main/java/org/apache/atlas/discovery/EntityLineageService.java:375-379 | An edge whose relationship guid is recorded already changes nothing. Otherwise the edge is processed. The result only grows. |
| LineageAssembler.ProcessEdges | repository/src/main/java/org/apache/atlas/discovery/EntityLineageService.java:477-526 | The pair is skipped iff it fails the visibility rule (start dataset with a visible right side, or both sides visible). A recorded pair adds left, process and right as keys, plus the two edge relations with their ids. |
| LineageAssembler.ProcessVirtualEdge | repository/src/main/java/org/apache/atlas/discovery/EntityLineageService.java:441-475 | Uses the same visibility rule. A recorded pair adds one upstream-to-downstream relation with no relationship id and the process guid. The process is never a key. |
| LineageAssembler.ProcessEdgesKeepsInv | repository/src/main/java/org/apache/atlas/discovery/EntityLineageService.java:477-526 | Expanded recording keeps the invariant: no dangling ids, projected headers, and relations backed by edges. |
| LineageAssembler.ProcessVirtualEdgeKeepsInv | repository/src/main/java/org/apache/atlas/discovery/EntityLineageService.java:441-475 | Compressed recording keeps the invariant: each relation is backed by a process that reads its source and writes its target, its endpoints are visible or the start dataset, and only dataset-side vertices are keys. |
| LineageAssembler.ProcessEdgeKeepsInv | repository/src/main/java/org/apache/atlas/discovery/EntityLineageService.java:528-556 | `processEdge` keeps the expanded invariant. |
| LineageAssembler.ExpandedRelationsHaveIds | repository/src/main/java/org/apache/atlas/discovery/EntityLineageService.java:391-407 | In expanded mode, on a graph whose edges all carry a relationship guid, every relation recorded has an id, so `lineageContainsEdge` never meets a null id. |
| LineageAssembler.AddEdgeToResultKeepsInv | repository/src/main/java/org/apache/atlas/discovery/EntityLineageService.java:375-379 | In expanded mode, with every edge carrying a relationship guid, `addEdgeToResult` succeeds and keeps the invariant. |
| LineageAssembler.AddEdgeDedupIsRedundant | repository/src/main/java/org/apache/atlas/discovery/EntityLineageService.java:375-379 | When every edge carries a relationship guid and the guids identify edges, the dedup guard changes nothing: the result equals plain `processEdge`. |
| LineageTraversal.RecordPair | repository/src/main/java/org/apache/atlas/discovery/EntityLineageService.java:358-362 | The hide-process switch. The pair is skipped iff it fails the visibility rule, whichever mode records it. |
| LineageTraversal.Traverse | repository/src/main/java/org/apache/atlas/discovery/EntityLineageService.java:341-373 | Depth 0 changes nothing. Otherwise the dataset is marked visited before its edges are walked. The walk only grows the result and the visited set, and stays within the graph. |
| LineageTraversal.VisitPair | repository/src/main/java/org/apache/atlas/discovery/EntityLineageService.java:355-367 | The walk recurses into the far dataset only if the pair was not skipped and the dataset is not visited, with depth minus 1. |
| LineageTraversal.TraverseFrom | repository/src/main/java/org/apache/atlas/discovery/EntityLineageService.java:336-339 | Each top-level walk starts with an empty visited set. |
| LineageTraversal.TraverseFromSound | repository/src/main/java/org/apache/atlas/discovery/EntityLineageService.java:341-373 | The walk keeps the invariant. It expands each dataset at most once, marks exactly the expanded datasets visited, and expands a dataset only at exactly d0-depth hops from the root with a non-zero remaining depth. |
| LineageTraversal.TraverseFromWithinDepth | repository/src/main/java/org/apache/atlas/discovery/EntityLineageService.java:341-373 | With a positive depth d, every visited dataset lies fewer than d hops from the root. |
| LineageTraversal.TraverseFromAddsAsBlank | repository/src/main/java/org/apache/atlas/discovery/EntityLineageService.java:341-373 | A walk adds to a non-empty result exactly what it adds to an empty one, and visits the same datasets: control flow never reads the result. |
| AuthzCacheOnDemandRefresher.CreatedTrigger | repository/src/main/java/org/apache/atlas/refresher/AuthzCacheOnDemandRefresher.java:132-156 | A created connection or collection sets both flags, and a persona sets roles. A persona-category metadata/data policy sets policies. A purpose-category policy, or any policy with sub-category "metadata", sets both. |
| AuthzCacheOnDemandRefresher.UpdatedTrigger | repository/src/main/java/org/apache/atlas/refresher/AuthzCacheOnDemandRefresher.java:158-194 | Only an updated header with a non-empty differential entity triggers anything. Connection, collection and persona set roles iff the changed attributes meet that type's set. Purpose sets policies iff they meet PURPOSE_ATTRS. A policy always sets policies. |
| AuthzCacheOnDemandRefresher.DeletedTrigger | repository/src/main/java/org/apache/atlas/refresher/AuthzCacheOnDemandRefresher.java:196-220 | A deleted connection, collection, persona or purpose sets both flags. A persona policy with sub-category metadata/data, or a purpose policy with metadata, sets policies. |
| AuthzCacheOnDemandRefresher.AccumulateIsAny | repository/src/main/java/org/apache/atlas/refresher/AuthzCacheOnDemandRefresher.java:129-220 | A flag ends set iff some header triggers it on its own. |
| AuthzCacheOnDemandRefresher.AccumulateOrderFree | repository/src/main/java/org/apache/atlas/refresher/AuthzCacheOnDemandRefresher.java:129-220 | The flags do not depend on the order of the headers. |
| AuthzCacheOnDemandRefresher.RefreshCalls | repository/src/main/java/org/apache/atlas/refresher/AuthzCacheOnDemandRefresher.java:90-112 | Import, policy bootstrapping or a disabled on-demand refresh start nothing. Otherwise both refreshers are called once, with the same flags, iff some flag is set. |
| AuthzCacheOnDemandRefresher.RefreshFlagsIsAny | repository/src/main/java/org/apache/atlas/refresher/AuthzCacheOnDemandRefresher.java:222-225 | A refresh happens iff some created, updated or deleted header triggers a flag. |
| ContractPreProcessor.ContractQualifiedName | repository/src/main/java/org/apache/atlas/repository/store/graph/v2/preprocessor/contract/ContractPreProcessor.java:101-107 | A name not ending in "/contract" is refused with BAD_REQUEST. Otherwise the name becomes dataset + "/" + type + "/contract". |
| ContractPreProcessor.ContractNameOfDataset | repository/src/main/java/org/apache/atlas/repository/store/graph/v2/preprocessor/contract/ContractPreProcessor.java:102-107 | For any dataset name d, the payload name d + "/contract" yields d + "/" + type + "/contract". |
| ContractPreProcessor.StatusSync | repository/src/main/java/org/apache/atlas/repository/store/graph/v2/preprocessor/contract/ContractPreProcessor.java:213-237 | Equal certificate and status are left alone. Otherwise VERIFIED on either side wins for both, else both become DRAFT. After the sync they always agree, and VERIFIED is never downgraded. |
| ContractPreProcessor.StatusSyncIdempotent | repository/src/main/java/org/apache/atlas/repository/store/graph/v2/preprocessor/contract/ContractPreProcessor.java:213-237 | Syncing a synced pair changes nothing. |
| ContractPreProcessor.IsEqualContract | repository/src/main/java/org/apache/atlas/repository/store/graph/v2/preprocessor/contract/ContractPreProcessor.java:171-185 | A parse failure gives JSON_ERROR and a non-object gives a class cast. Otherwise the result is the equality of the two objects without their top-level "status". |
| ContractPreProcessor.StatusIsIgnored | repository/src/main/java/org/apache/atlas/repository/store/graph/v2/preprocessor/contract/ContractPreProcessor.java:176-180 | Two contracts that differ only in "status" compare equal. |
| ContractPreProcessor.ProcessUpdateContract | repository/src/main/java/org/apache/atlas/repository/store/graph/v2/preprocessor/contract/ContractPreProcessor.java:76-86 | An update passes iff its contract equals the stored one (ignoring status). A differing one gives OPERATION_NOT_SUPPORTED. |
| ContractPreProcessor.DiffAttributes | repository/src/main/java/org/apache/atlas/repository/store/graph/v2/preprocessor/contract/ContractPreProcessor.java:156-169 | Without a difference the list is empty. Otherwise it is the differing names, in order, except qualifiedName. |
| ContractPreProcessor.VersionOf | repository/src/main/java/org/apache/atlas/repository/store/graph/v2/preprocessor/contract/ContractPreProcessor.java:122 | The version is the integer parsed from the text after the last "/V". Unparsable text gives a number-format failure. |
| ContractPreProcessor.VersionRoundTrip | repository/src/main/java/org/apache/atlas/repository/store/graph/v2/preprocessor/contract/ContractPreProcessor.java:122-145 | Reading back the version of contractName + "/V" + n gives n for every 32-bit n. |
| ContractPreProcessor.ChooseVersion | repository/src/main/java/org/apache/atlas/repository/store/graph/v2/preprocessor/contract/ContractPreProcessor.java:117-143 | With no current version the result is V1. With no differing attributes no version is made. An equal contract reuses the current number. Otherwise the number is current + 1 (32-bit) and the previous version is linked. |
| ContractPreProcessor.ProcessCreateContract | repository/src/main/java/org/apache/atlas/repository/store/graph/v2/preprocessor/contract/ContractPreProcessor.java:87-154 | The steps run in order: name check, deserialise, associated asset (looked up by dataset name and contract type), authorization, status sync, versioning. The created name is contractName + "/V" + version. The asset guid is set. The certified-asset link is set iff the certificate is VERIFIED. The entity's asset guid is the one the associated-asset lookup returned for the dataset name and the contract's type. For an existing contract, its version, previous version and reused guid are exactly what the version choice gives for the stored contract. The request ends with the contract removed iff a contract exists and the attribute diff is empty. |
| ContractPreProcessor.CreatedVersionReadable | repository/src/main/java/org/apache/atlas/repository/store/graph/v2/preprocessor/contract/ContractPreProcessor.java:122-145 | The name a created contract gets parses back to its version attribute. |
| AccessControlUtil.ESAliasName | repository/src/main/java/org/apache/atlas/accesscontrol/AccessControlUtil.java:74-80 | The last '/'-segment of the qualified name, under Java split semantics. A null name, or one that splits into nothing, fails. |
| AccessControlUtil.ESAliasNameOfPath | repository/src/main/java/org/apache/atlas/accesscontrol/AccessControlUtil.java:74-80 | For any prefix and any '/'-free non-empty id, the alias of prefix + "/" + id is id. |
| AccessControlUtil.ObjectToEntityList | repository/src/main/java/org/apache/atlas/accesscontrol/AccessControlUtil.java:160-171 | A null list gives the empty list. Otherwise the result holds exactly the ACTIVE referred entities; an id with no referred entity is a null dereference. |
| AccessControlUtil.ActiveReferredAppend | repository/src/main/java/org/apache/atlas/accesscontrol/AccessControlUtil.java:163-168 | The list for ids a + b is the list for a followed by the list for b, so input order is kept. |
| AccessControlUtil.MetadataPolicies | repository/src/main/java/org/apache/atlas/accesscontrol/AccessControlUtil.java:125-129 | Fails iff the policy list does. Otherwise it holds exactly the ACTIVE referred policies whose `accessControlPolicyType` is "metadata". |
| AccessControlUtil.DataPolicies | repository/src/main/java/org/apache/atlas/accesscontrol/AccessControlUtil.java:131-135 | Fails iff the policy list does. Otherwise it holds exactly the ACTIVE referred policies whose `accessControlPolicyType` is "data". |
| AccessControlUtil.PolicyListsSplit | repository/src/main/java/org/apache/atlas/accesscontrol/AccessControlUtil.java:125-143 | The metadata and data policy lists are disjoint and together no longer than the ACTIVE policies. Every ACTIVE policy of either type is in one of them. |
| AccessControlUtil.DataMaskByOptionOnly | repository/src/main/java/org/apache/atlas/accesscontrol/AccessControlUtil.java:145-150 | A policy is a mask policy iff its `dataMaskingOption` is present and non-empty. The policy type does not matter. |
| AccessControlUtil.PagesMembers | repository/src/main/java/org/apache/atlas/accesscontrol/AccessControlUtil.java:225-235 | An element is fetched iff it is on one of the pages read. |
| AccessControlUtil.FetchAllPages | repository/src/main/java/org/apache/atlas/accesscontrol/AccessControlUtil.java:225-287 | Pages are read at 0, 25, 50, …, up to and including the first page shorter than 25. The result is their concatenation in order. |
| AccessControlUtil.FirstMatch | repository/src/main/java/org/apache/atlas/accesscontrol/AccessControlUtil.java:237-252 | The first policy with an equal signature, policy type and service type, or none. A non-numeric policy type fails once a signature matches. |
| AccessControlUtil.FirstMatchIsFirst | repository/src/main/java/org/apache/atlas/accesscontrol/AccessControlUtil.java:237-252 | The policy found matches, and no earlier policy does. |
| AccessControlUtil.FetchRangerPolicyByResources | repository/src/main/java/org/apache/atlas/accesscontrol/AccessControlUtil.java:201-253 | Fetch all pages, then take the first exact match. |
| AccessControlUtil.EnsureNonAccessControlEntityType | repository/src/main/java/org/apache/atlas/accesscontrol/AccessControlUtil.java:299-308 | Fails iff some type is Persona, Purpose or AuthPolicy. |
| AccessControlUtil.EnsureNonAccessControlRelType | repository/src/main/java/org/apache/atlas/accesscontrol/AccessControlUtil.java:310-317 | Fails iff the type is the access-control relation type. |
| AccessControlUtil.EntityTypeGuardSplits | repository/src/main/java/org/apache/atlas/accesscontrol/AccessControlUtil.java:299-308 | Guarding a + b passes iff guarding a and guarding b both pass. |
| ESAliasStore.AssetClauses | repository/src/main/java/org/apache/atlas/ESAliasStore.java:257-261 | Each asset gives exactly three clauses: term qualifiedName = asset, wildcard asset + "/*", and wildcard "*@" + asset. |
| ESAliasStore.MetadataPolicyClauses | repository/src/main/java/org/apache/atlas/ESAliasStore.java:145-161 | The asset clauses, plus a connection term iff no asset equals the connection's qualified name. |
| ESAliasStore.GlossaryPolicyClauses | repository/src/main/java/org/apache/atlas/ESAliasStore.java:165-178 | Three clauses per asset: the asset clauses, in asset order. Every clause comes from some asset. A connection term is present iff the connection name is itself an asset; unlike a metadata policy, none is added for the connection. |
| ESAliasStore.AssetsClausesMembers | repository/src/main/java/org/apache/atlas/ESAliasStore.java:257-261 | A clause is among the assets' clauses iff it is a clause of one of the assets. |
| ESAliasStore.PurposePolicyClauses | repository/src/main/java/org/apache/atlas/ESAliasStore.java:263-266 | Two "terms" clauses over the purpose tags: trait names and propagated trait names. |
| ESAliasStore.GatherMembers | repository/src/main/java/org/apache/atlas/ESAliasStore.java:141-161 | A clause is gathered iff it comes from a counted policy of the right allow/deny side. A policy counts iff it has entity-read and is not the deleted one. |
| ESAliasStore.GatherSkipsDeleted | repository/src/main/java/org/apache/atlas/ESAliasStore.java:233-239 | The policy being deleted contributes nothing. |
| ESAliasStore.GatherNonEmpty | repository/src/main/java/org/apache/atlas/ESAliasStore.java:141-161 | The gathered list is non-empty iff some counted policy of that allow/deny side produces a clause. |
| ESAliasStore.PurposeGatherLength | repository/src/main/java/org/apache/atlas/ESAliasStore.java:207-215 | Each counted purpose policy adds exactly two clauses. |
| ESAliasStore.MakeBool | repository/src/main/java/org/apache/atlas/ESAliasStore.java:180-191 | "should" is present iff the allow list is non-empty, and "must_not" iff the deny list is non-empty. |
| ESAliasStore.PersonaFilter | repository/src/main/java/org/apache/atlas/ESAliasStore.java:129-192 | A "should" list is present iff some counted allowing policy contributes a clause: any metadata policy, or a glossary policy with assets. The same holds for "must_not" and the denying policies. |
| ESAliasStore.PersonaFilterMembers | repository/src/main/java/org/apache/atlas/ESAliasStore.java:129-192 | A clause is in the persona's allow list iff an allowing counted metadata or glossary policy produces it. |
| ESAliasStore.PurposeFilter | repository/src/main/java/org/apache/atlas/ESAliasStore.java:194-231 | "should" is present iff some counted policy allows, and "must_not" iff some counted policy denies. Each list holds two clauses per counted policy of its side, all among the purpose's tag clauses. |
| ESAliasStore.PurposeFilterMembers | repository/src/main/java/org/apache/atlas/ESAliasStore.java:194-231 | A clause is allowed (denied) iff it is one of the purpose's two tag clauses and some counted allow (deny) policy exists. |
| ESAliasStore.CreateAlias | repository/src/main/java/org/apache/atlas/ESAliasStore.java:74-83 | createAlias adds the alias named by `getESAliasName`, with no filter. |
| ESAliasStore.UpdatePersonaAlias | repository/src/main/java/org/apache/atlas/ESAliasStore.java:85-96 | updateAlias adds the same alias with the computed filter. |
| ESAliasStore.UpdatePurposeAlias | repository/src/main/java/org/apache/atlas/ESAliasStore.java:110-121 | Same for a purpose. |
| ESAliasStore.CreateAndUpdateAgree | repository/src/main/java/org/apache/atlas/ESAliasStore.java:74-96 | Create and update target the same alias on the same index; only the filter differs. |
| SearchContextCache.Put | graphdb/janus/src/main/java/org/apache/atlas/repository/graphdb/janus/SearchContextCache.java:30-39 | Stores sequence + "/" + id under the key in both maps. A throwing remote store is reported and leaves both maps unchanged. Other keys are untouched, and the local map stays a copy of remote entries. |
| SearchContextCache.Remove | graphdb/janus/src/main/java/org/apache/atlas/repository/graphdb/janus/SearchContextCache.java:80-89 | The key is gone from the local map in every case. It is gone from the remote map iff the remote store does not throw, and a throw is reported. Nothing else changes, and the local map stays a copy of remote entries. |
| SearchContextCache.Get | graphdb/janus/src/main/java/org/apache/atlas/repository/graphdb/janus/SearchContextCache.java:41-53 | The local value if present, else the remote one. A remote failure gives null. |
| SearchContextCache.GetIsRemote | graphdb/janus/src/main/java/org/apache/atlas/repository/graphdb/janus/SearchContextCache.java:41-53 | While the maps are coherent, a lookup is the remote value whatever the local map forgot. |
| SearchContextCache.AsyncSearchId | graphdb/janus/src/main/java/org/apache/atlas/repository/graphdb/janus/SearchContextCache.java:55-78 | A missing value or sequence gives null, and so does a value that does not split into two parts. Otherwise: a larger sequence gives the id, a smaller one gives "invalid_sequence", an equal one gives null. A non-numeric stored sequence fails. |
| SearchContextCache.GetESAsyncSearchId | graphdb/janus/src/main/java/org/apache/atlas/repository/graphdb/janus/SearchContextCache.java:55-78 | A key in neither map, or a failing remote store with no local entry, gives null. On a coherent cache whose remote store answers, the answer is the decision on the remote entry, whatever the local cache holds. The only failure is a number format one. |
| SearchContextCache.FailedWritesKeepRemote | graphdb/janus/src/main/java/org/apache/atlas/repository/graphdb/janus/SearchContextCache.java:30-89 | On a coherent cache, a remove whose remote half throws, or a put that throws, leaves every later lookup of the key answering as before. The stale remote entry still decides the lookup. |
| SearchContextCache.PutThenLookup | graphdb/janus/src/main/java/org/apache/atlas/repository/graphdb/janus/SearchContextCache.java:30-78 | After put(k, s, id) with a non-empty '/'-free id, a lookup with q > s gives id, q < s gives "invalid_sequence", and q = s gives null. This holds even if the local map forgot the key. |
| SearchContextCache.EmptyIdIsLost | graphdb/janus/src/main/java/org/apache/atlas/repository/graphdb/janus/SearchContextCache.java:64-67 | An empty id is stored as "s/", which splits into one part, so it always reads back as null. |
| TaskExecutor.PerformTask | repository/src/main/java/org/apache/atlas/tasks/TaskExecutor.java:165-181 | No factory for the type means no status change. Otherwise the calls made are a prefix of inProgress, run, complete and successPrint: all four iff nothing throws, and complete only if no earlier call throws. |
| TaskExecutor.Run | repository/src/main/java/org/apache/atlas/tasks/TaskExecutor.java:102-161 | A null task only counts down. The latch is counted down iff commit does not throw, and then exactly once and last. Commit happens iff there is a task and it does not throw. statistics.error happens iff the try block throws and updateStatus does not, and updateStatus is called iff statistics.error is. At attemptCount ≥ 3 the run is increment, then commit and countDown unless commit throws. |
| TaskExecutor.StatusAndVertexOnlyLogged | repository/src/main/java/org/apache/atlas/tasks/TaskExecutor.java:112-119 | A missing vertex or a COMPLETE status does not change the run. |
| TaskExecutor.CompleteFollowsProgress | repository/src/main/java/org/apache/atlas/tasks/TaskExecutor.java:165-181 | complete is reached only after inProgress and run. |
| TaskExecutor.FailureIsRecorded | repository/src/main/java/org/apache/atlas/tasks/TaskExecutor.java:135-159 | A task that throws after the attempt was counted makes its completed calls, then updateStatus and statistics.error unless updateStatus throws, then commit and countDown unless commit throws. complete is reached iff the throw comes after it. |
| TaskExecutor.CommitFailureSkipsCountDown | repository/src/main/java/org/apache/atlas/tasks/TaskExecutor.java:152-159 | When commit throws in the finally block, the run never counts the latch down. |
| TaskExecutor.SuccessfulRun | repository/src/main/java/org/apache/atlas/tasks/TaskExecutor.java:102-161 | A run without failure and with a factory is: increment, inProgress, run, complete, success, commit, countDown. |
| TermPreProcessor.SetAnchor | repository/src/main/java/org/apache/atlas/repository/store/graph/v2/preprocessor/glossary/TermPreProcessor.java:221-242 | An anchor already held is kept. Otherwise it is resolved by guid, else by unique qualifiedName, else left unset. A missing anchor reference is a null dereference. |
| TermPreProcessor.AnchorResolvedOnce | repository/src/main/java/org/apache/atlas/repository/store/graph/v2/preprocessor/glossary/TermPreProcessor.java:223 | Resolving again keeps the first anchor. |
| TermPreProcessor.ProcessCreateTerm | repository/src/main/java/org/apache/atlas/repository/store/graph/v2/preprocessor/glossary/TermPreProcessor.java:108-208 | An empty or invalid name gives INVALID_DISPLAY_NAME, checked before existence. An existing name gives GLOSSARY_TERM_ALREADY_EXISTS. The name becomes uuid + "@" + the glossary's qualified name, then creation is authorised. |
| TermPreProcessor.ProcessUpdateTerm | repository/src/main/java/org/apache/atlas/repository/store/graph/v2/preprocessor/glossary/TermPreProcessor.java:127-158 | Failed checks are the answer. Once they pass, the update fails iff some entity read by the meanings rewrite has a null or empty meanings list. Otherwise the term keeps its stored qualified name, and each entity read gets one write, in order, with its meanings text under the new name. |
| TermPreProcessor.UpdateChecks | repository/src/main/java/org/apache/atlas/repository/store/graph/v2/preprocessor/glossary/TermPreProcessor.java:127-146 | Existence is checked only for a renamed term, and before name validation. A changed anchor guid gives ANCHOR_UPDATION_NOT_SUPPORTED iff the earlier checks pass. On success the name is valid and the stored qualified name is kept. Success holds iff a renamed term has an anchor and no clash, the name is valid, and a stored anchor guid is matched by the request's anchor. |
| TermPreProcessor.UnchangedNameSkipsExistence | repository/src/main/java/org/apache/atlas/repository/store/graph/v2/preprocessor/glossary/TermPreProcessor.java:133-135 | With the name unchanged, the existence oracle cannot affect the outcome. |
| TermPreProcessor.ProcessAttributes | repository/src/main/java/org/apache/atlas/repository/store/graph/v2/preprocessor/glossary/TermPreProcessor.java:87-106 | The anchor is set first, and its failure is the answer. CREATE gives the create name and no writes. UPDATE succeeds iff `processUpdateTerm` does, with the stored qualified name and its writes. Other operations only set the anchor. |
| TermPreProcessor.PrefixedIsJoin | repository/src/main/java/org/apache/atlas/repository/store/graph/v2/preprocessor/glossary/TermPreProcessor.java:181-194 | Appending "," + text for each meaning and dropping the first character is the comma-join of the texts. |
| TermPreProcessor.MeaningsTextBy | repository/src/main/java/org/apache/atlas/repository/store/graph/v2/preprocessor/glossary/TermPreProcessor.java:180-195 | Fails iff the list is null (a null dereference) or empty (`deleteCharAt(0)`). Otherwise the result is the comma-join of the texts, and the guid comparison decides which meanings show the new name. |
| TermPreProcessor.RenameLostAsWritten | repository/src/main/java/org/apache/atlas/repository/store/graph/v2/preprocessor/glossary/TermPreProcessor.java:187 | With guids compared by identity, a meaning whose guid has the same characters as the term's but is another object keeps its old display text. |
| TermPreProcessor.MeaningsText | repository/src/main/java/org/apache/atlas/repository/store/graph/v2/preprocessor/glossary/TermPreProcessor.java:180-195 | The corrected text: the comma-join in meaning order, with the new name exactly where the term guid equals by value. |
| TermPreProcessor.RenameShown | repository/src/main/java/org/apache/atlas/repository/store/graph/v2/preprocessor/glossary/TermPreProcessor.java:183-194 | Every meaning of the renamed term shows the new name, and every other meaning its own text. |
| TermPreProcessor.Writes | repository/src/main/java/org/apache/atlas/repository/store/graph/v2/preprocessor/glossary/TermPreProcessor.java:180-196 | One write per entity, in entity order, each for that entity's guid. A successful list had no null or empty meanings list, and a failed one had at least one. |
| TermPreProcessor.WritesMeaning | repository/src/main/java/org/apache/atlas/repository/store/graph/v2/preprocessor/glossary/TermPreProcessor.java:180-196 | The writes of a list of entities fail iff some entity's meanings list is null or empty. Otherwise each entity gets its own meanings text, in order. |
| TermPreProcessor.UpdateMeaningsNames | repository/src/main/java/org/apache/atlas/repository/store/graph/v2/preprocessor/glossary/TermPreProcessor.java:166-203 | Pages are read at from = 0, offset, 2·offset, …, and reading stops at a null list or after a page shorter than offset. The result is the whole rewrite: the writes of every page up to the one that stops, or the failure of the first bad entity. |
| TermPreProcessor.StopPage | repository/src/main/java/org/apache/atlas/repository/store/graph/v2/preprocessor/glossary/TermPreProcessor.java:176-200 | The page after which the loop stops: every earlier page is non-null and full, and this one is not. |
| TermPreProcessor.RewriteMeaning | repository/src/main/java/org/apache/atlas/repository/store/graph/v2/preprocessor/glossary/TermPreProcessor.java:166-203 | The rewrite fails iff some entity on the pages read has a null or empty meanings list. Otherwise every entity read gets one write with its own meanings text. |
| DataProductPreProcessor.SetParent | repository/src/main/java/org/apache/atlas/repository/store/graph/v2/preprocessor/datamesh/DataProductPreProcessor.java:118-141 | A parent already held is kept. Otherwise it is resolved by guid, else by unique qualifiedName, else left unset. |
| DataProductPreProcessor.ParentSetOnce | repository/src/main/java/org/apache/atlas/repository/store/graph/v2/preprocessor/datamesh/DataProductPreProcessor.java:120 | Resolving again keeps the first parent. |
| DataProductPreProcessor.NameTaken | repository/src/main/java/org/apache/atlas/repository/store/graph/v2/preprocessor/datamesh/DataProductPreProcessor.java:167-184 | BAD_REQUEST iff some returned header's name equals the product name exactly. |
| DataProductPreProcessor.ProductExistsAsWritten | repository/src/main/java/org/apache/atlas/repository/store/graph/v2/preprocessor/datamesh/DataProductPreProcessor.java:143-184 | The code as written searches DataDomain entities by name: with a parent, in the parent domain; without one, among entities with no parent domain. It fails with BAD_REQUEST iff that search returns a header whose name equals the product name. |
| DataProductPreProcessor.ProductExists | repository/src/main/java/org/apache/atlas/repository/store/graph/v2/preprocessor/datamesh/DataProductPreProcessor.java:143-184 | The corrected check, over DataProduct entities with the same scoping: BAD_REQUEST iff that search returns a header with exactly the product name. |
| DataProductPreProcessor.ProductExistsIffDuplicate | repository/src/main/java/org/apache/atlas/repository/store/graph/v2/preprocessor/datamesh/DataProductPreProcessor.java:143-184 | Over an index, the corrected check fails iff an ACTIVE data product with that name exists in the scope. |
| DataProductPreProcessor.DuplicateProductPassesAsWritten | repository/src/main/java/org/apache/atlas/repository/store/graph/v2/preprocessor/datamesh/DataProductPreProcessor.java:149 | A concrete index holding product "Sales" in a domain: the code as written lets a second "Sales" through, while the corrected check refuses it. |
| DataProductPreProcessor.ProcessUpdateDomain | repository/src/main/java/org/apache/atlas/repository/store/graph/v2/preprocessor/datamesh/DataProductPreProcessor.java:59-116 | A move is authorised, checked for duplicates in the target, and renamed by replacing every occurrence of the source domain's name with the target's. Parent and super domain names are set. Without a move, duplicates are checked only on rename and the stored name is kept. A successful move or rename passed the duplicate check. Conversely, once both domains are known and the move is authorised (or the name changed in place), a failing check is the answer. |
| DataProductPreProcessor.MovedKeepsSuffix | repository/src/main/java/org/apache/atlas/repository/store/graph/v2/preprocessor/datamesh/DataProductPreProcessor.java:105 | A product named sourceDomain + suffix (no further occurrence of the source name) is renamed to targetDomain + suffix. |
| DataProductPreProcessor.ProcessAttributes | repository/src/main/java/org/apache/atlas/repository/store/graph/v2/preprocessor/datamesh/DataProductPreProcessor.java:38-57 | The parent is set first. UPDATE agrees with `processUpdateDomain` under the duplicate check the variant selects: the domain search as written, or the corrected product search. Other operations only set the parent. |
| DataProductPreProcessor.UpdateRefusesTakenName | repository/src/main/java/org/apache/atlas/repository/store/graph/v2/preprocessor/datamesh/DataProductPreProcessor.java:59-116 | Over an index, with the corrected check, an authorised move or in-place rename fails iff an ACTIVE DataProduct with that name is in the target domain, and then with BAD_REQUEST. |
| DataProductPreProcessor.DuplicateMoveAcceptedAsWritten | repository/src/main/java/org/apache/atlas/repository/store/graph/v2/preprocessor/datamesh/DataProductPreProcessor.java:149 | With the check as written, moving a second product named "Sales" into a domain that already has one succeeds. |
| AbstractResourcePreProcessor.FirstActive | repository/src/main/java/org/apache/atlas/repository/store/graph/v2/preprocessor/resource/AbstractResourcePreProcessor.java:70-81 | The first ACTIVE vertex on an IN edge with the label, or none iff no linked vertex is ACTIVE. |
| AbstractResourcePreProcessor.AssetToAuthorize | repository/src/main/java/org/apache/atlas/repository/store/graph/v2/preprocessor/resource/AbstractResourcePreProcessor.java:62-158 | The payload asset if present, else the first ACTIVE linked asset, else none. |
| AbstractResourcePreProcessor.AuthorizeResourceUpdate | repository/src/main/java/org/apache/atlas/repository/store/graph/v2/preprocessor/resource/AbstractResourcePreProcessor.java:56-110 | With an asset, the update passes iff ENTITY_UPDATE on the asset is granted; without one, iff it is granted on the resource. The resource check is always made last. |
| AbstractResourcePreProcessor.AuthorizeResourceDelete | repository/src/main/java/org/apache/atlas/repository/store/graph/v2/preprocessor/resource/AbstractResourcePreProcessor.java:112-147 | With a stored asset, the delete passes iff UPDATE on the asset is granted, and the resource's DELETE check is only logged. Without one, it passes iff DELETE on the resource is granted. |
| AbstractResourcePreProcessor.InactiveLinksSkipped | repository/src/main/java/org/apache/atlas/repository/store/graph/v2/preprocessor/resource/AbstractResourcePreProcessor.java:70-81 | Inactive linked assets before the first ACTIVE one never decide an update. |
| ReadmePreProcessor.ReadmeName | repository/src/main/java/org/apache/atlas/repository/store/graph/v2/preprocessor/readme/ReadmePreProcessor.java:108-114 | The name is asset guid + "/readme". The guid is looked up by unique attributes only when the asset's guid is empty. The name fails iff that lookup is made and fails, with the lookup's error. A null guid from a successful lookup prints as "null". |
| ReadmePreProcessor.ReadmeNameRoundTrip | repository/src/main/java/org/apache/atlas/repository/store/graph/v2/preprocessor/readme/ReadmePreProcessor.java:108-114 | The asset guid is read back from a readme name, whatever the lookup would have done. |
| ReadmePreProcessor.DistinctAssetsDistinctReadmes | repository/src/main/java/org/apache/atlas/repository/store/graph/v2/preprocessor/readme/ReadmePreProcessor.java:108-114 | Assets with different guids never share a readme name. |
| ReadmePreProcessor.ProcessCreateReadme | repository/src/main/java/org/apache/atlas/repository/store/graph/v2/preprocessor/readme/ReadmePreProcessor.java:67-96 | No asset gives README_FAILED. A failing guid lookup fails the create with its error. The name is the asset's readme name. An existing readme is adopted (its guid) and restored iff its state is DELETED. A stored readme without a state is a null dereference. |
| ReadmePreProcessor.ProcessUpdateReadme | repository/src/main/java/org/apache/atlas/repository/store/graph/v2/preprocessor/readme/ReadmePreProcessor.java:98-106 | An update keeps the stored qualified name. A missing vertex is a null dereference. |
| ReadmePreProcessor.ProcessAttributes | repository/src/main/java/org/apache/atlas/repository/store/graph/v2/preprocessor/readme/ReadmePreProcessor.java:47-65 | CREATE and UPDATE dispatch to their handlers; any other operation gives BAD_REQUEST. |
| DataMeshAttrMigration.AssetGuids | repository/src/main/java/org/apache/atlas/repository/store/graph/v2/DataMeshAttrMigrationService.java:74-81 | The guid of each element, preserving order and length. A null list fails. |
| DataMeshAttrMigration.AddInternalAttr | repository/src/main/java/org/apache/atlas/repository/store/graph/v2/DataMeshAttrMigrationService.java:83-87 | Every current guid is added after the stored ones, in order. An empty list adds nothing. |
| DataMeshAttrMigration.MigratePort | repository/src/main/java/org/apache/atlas/repository/store/graph/v2/DataMeshAttrMigrationService.java:53-61 | A port property is rewritten iff it differs from the relationship guids as a multiset. |
| DataMeshAttrMigration.MigrateAttr | repository/src/main/java/org/apache/atlas/repository/store/graph/v2/DataMeshAttrMigrationService.java:43-62 | Both relationship lists are read first, and a null one fails. Output and input properties are then migrated each on its own. |
| DataMeshAttrMigration.MigrateProduct | repository/src/main/java/org/apache/atlas/repository/store/graph/v2/DataMeshAttrMigrationService.java:32-72 | Lookup, migration and commit run in that order. The first failure is rethrown and stops the rest. |
| DataMeshAttrMigration.MigrationFromEmptyConverges | repository/src/main/java/org/apache/atlas/repository/store/graph/v2/DataMeshAttrMigrationService.java:43-62 | Unpopulated properties end up as exactly the relationship guids, and migrating again changes nothing. |
| DataMeshAttrMigration.StaleGuidsKept | repository/src/main/java/org/apache/atlas/repository/store/graph/v2/DataMeshAttrMigrationService.java:83-87 | Stored guids are never removed. A stale guid keeps the property different from the relationship after migration. |
| AtlasAbstractDefStoreV1.IsValidName | repository/src/main/java/org/apache/atlas/repository/store/graph/v1/AtlasAbstractDefStoreV1.java:45-81 | A scan that is true iff the whole name is in the language of `[a-zA-Z][a-zA-Z0-9_ ]*`, so the empty name is invalid. A null name fails. |
| AtlasAbstractDefStoreV1.NameExtension | repository/src/main/java/org/apache/atlas/repository/store/graph/v1/AtlasAbstractDefStoreV1.java:45 | A valid name stays valid when extended by an allowed character. Any other character makes every extension invalid. |
| AtlasAbstractDefStoreV1.AllowReservedKeywords | repository/src/main/java/org/apache/atlas/repository/store/graph/v1/AtlasAbstractDefStoreV1.java:61-74 | Keywords are allowed by default. A configuration that fails to load gives INTERNAL_ERROR. |
| AtlasAbstractDefStoreV1.ValidateType | repository/src/main/java/org/apache/atlas/repository/store/graph/v1/AtlasAbstractDefStoreV1.java:55-75 | An invalid name gives TYPE_NAME_INVALID_FORMAT before the configuration is read. With keywords disallowed, a struct-like typedef fails with ATTRIBUTE_NAME_INVALID iff some attribute name is a keyword. |
| AtlasAbstractDefStoreV1.VertexToDelete | repository/src/main/java/org/apache/atlas/repository/store/graph/v1/AtlasAbstractDefStoreV1.java:89-106 | The pre-delete result if given, else the store's own lookup. |
| PersonaContext.NewContext | repository/src/main/java/org/apache/atlas/persona/PersonaContext.java:50-66 | updateIsAllow, isMetadataPolicy and isGlossaryPolicy start false, and the excess-policy list starts empty. |
| PersonaContext.SetAllowPolicyUpdate | repository/src/main/java/org/apache/atlas/persona/PersonaContext.java:193-197 | A no-op without an existing policy. Otherwise updateIsAllow = (existing isAllow ≠ new isAllow), and nothing else changes. |
| PersonaContext.SetPolicyType | repository/src/main/java/org/apache/atlas/persona/PersonaContext.java:215-224 | Sets only the flag matching the policy type name. It never clears a flag, and does nothing without a policy or for another type. |
| PersonaContext.AddExcessExistingRangerPolicy | repository/src/main/java/org/apache/atlas/persona/PersonaContext.java:177-179 | Appends the policy, and leaves earlier entries and every other field unchanged. |
| PersonaContext.AddAllAppends | repository/src/main/java/org/apache/atlas/persona/PersonaContext.java:177-179 | Adding policies one by one lists them after the earlier ones, in the order added. |
| PersonaContext.FreshContextOneType | repository/src/main/java/org/apache/atlas/persona/PersonaContext.java:215-224 | A fresh context never ends up with both type flags set. |
| PersonaContext.UpdateIsAllowIffFlipped | repository/src/main/java/org/apache/atlas/persona/PersonaContext.java:193-197 | An update is marked as flipping the allow flag iff the stored and new flags differ. |

## Left out

- AccessControlUtil.MetadataPolicies, AccessControlUtil.DataPolicies, AccessControlUtil.PolicyListsSplit: AccessControlUtil.java:128 and :134 filter with `AtlasPersonaUtil.isMetadataPolicy` and `isDataPolicy`, which are not part of this model. They are taken to be the `accessControlPolicyType` tests of AccessControlUtil.java:137-143 (`IsMetadataPolicy`, `IsDataPolicy`). The disjointness in PolicyListsSplit rests on that reading.

- Gremlin execution and the unpacking of its result shapes (EntityLineageService.java:239-278, 426-439): the query runner is a parameter that returns the edge list.
- The Hive schema helpers (EntityLineageService.java:156-222): retriever and type-conversion wiring outside lineage.
- Header projection, `evaluate`, `isProcessEntity` and the type registry: uninterpreted parameters. `isProcessEntity` uses `getTypeAndAllSubTypes`, and the model does not guess at it.
- LineageAssembler.LineageContainsEdge: fails whenever some relation has no id. The Java loop fails only if it meets such a relation before a match, which depends on HashSet order; the model over-approximates that order-dependent case.
- The graph walk is a depth-first search with one visited set, so a dataset first reached on a long path is not expanded again from a shorter one. Vertices within the depth bound may therefore be missed. The model proves only the upper bound (TraverseFromWithinDepth) and the at-most-once expansion.
- Threads and timing: the AsyncCacheRefresher thread start, the TaskExecutor executor service, the watcher thread and the latch creation. The SearchContextCache local map's 30-second expiry and size-200 eviction are modelled as a `Forget` that may drop any local entry.
- The in-place `retainAll` on the differential entity's key set (AuthzCacheOnDemandRefresher.java:166-184) is modelled as a set intersection.
- `DataContract` (de)serialisation, `AtlasEntityComparator` diffing, `purgeByIds`, `updateExistingVersion`'s context updates, and `datasetAttributeSync`: JSON and store internals, passed in as oracles or left out.
- ContractPreProcessor.StatusSync: line 231 stores the enum object `STATUS.DRAFT`, not its name, as certificateStatus. The model writes the name "DRAFT".
- Ranger resource-signature construction and `fetchRangerPoliciesByLabel`'s request building are left out. Its paging is the same `FetchAllPages`.
- `validateUniquenessByName` and the other plain attribute getters of AccessControlUtil are left out.
- Elasticsearch request building and the graph calls that fetch connection entities are left out. The connection qualified name is part of the policy.
- Performance metric recorders, logging and the access-log side of `verifyAccess`.
- Term and product authorization details: `isAuthorized` and `verifyAccess` are boolean oracles. `isNameInvalid` and `termExists` are oracles too.
- The `bound` parameters of the paging loops: the model requires that some page stops the loop. The Java loops would run forever against an index that never returns a short page.
- TermPreProcessor.UpdateMeaningsNames: requires `offset > 0`. The source always passes a positive constant, and a zero offset would re-read the first page forever.
- TermPreProcessor.ProcessUpdateTerm: requires a positive page size and an index whose paging stops, like `UpdateMeaningsNames`. The writes are returned, not applied one by one: on a failure the model keeps only the error, not the writes made before it.
- TermPreProcessor.MeaningsTextBy: the code's `==` on guid strings is object identity, which the model cannot observe. The comparison is a parameter; `ByValue` is the corrected one, and an identity oracle gives the code as written.
- DataProductPreProcessor.ProcessUpdateDomain: a null product name fails with a null dereference before the duplicate search. The Java code passes the null name to the search and fails only when it calls `equals` on a returned header.
- LineageGraph: a vertex is identified by its guid. The vertex id, `getId`, `getIdFromVertex` and `GraphHelper.getGuid` are one string in the model.
- EntityLineageService.ProcessRootHopSound: assumes every edge carries a relationship guid. Without one, the edge is recorded with a null id, and the next `lineageContainsEdge` throws (MissingGuidFailsProcessRoot).
- EntityLineageService.LineageInfoV2Sound: for a process root, assumes every edge carries a relationship guid, for the same reason.
- EntityLineageService.GetAtlasLineageInfoV2Sound: for a process root, assumes every edge carries a relationship guid, for the same reason.
- LineageAssembler.ExpandedRelationsHaveIds: assumes every edge carries a relationship guid. An edge without one yields a relation with a null id.
- LineageAssembler.AddEdgeToResultKeepsInv: assumes every edge carries a relationship guid, for the same reason.
- TaskExecutor.Run: `statistics.increment(1)` (TaskExecutor.java:125), `TASK_LOG.log(task)` (TaskExecutor.java:156), `RequestContext.clearCache` and the perf log in the finally block are left out. They have no effect the model tracks, and a throw from them would also skip what follows.
- Text.ParseInt: accepts ASCII digits only. Java `Integer.parseInt` also accepts other Unicode decimal digits, so ContractPreProcessor.VersionOf and SearchContextCache.AsyncSearchId parse fewer strings than the code does.
- DataMeshAttrMigration.AssetGuids: relationship elements are taken to be `AtlasRelatedObjectId` values with non-null guids. The class cast and null-guid paths are not modelled.
- DataMeshAttrMigration.AddInternalAttr: the multi-valued property is taken to have list cardinality, so values are appended. A set-cardinality property would merge duplicates.
- ReadmePreProcessor: `context.updateEntityReferences`, `recordEntityUpdate` and the restore handler's graph work are left out. Restoring is reported as a flag.
- AtlasAbstractDefStoreV1: `deleteTypeVertex`, `preDeleteByName` and `preDeleteByGuid` are store operations. The lookup is a parameter.
- PersonaContext: the plain getters and setters of the other flags carry no behaviour.
- SearchParams, LineageOnDemandRequest, TaskService, IndexAliasStore, the Keycloak and Elasticsearch clients are data holders, interfaces or I/O.

## Findings

| source | as written | input that shows it | evidently intended | confidence | as-written member | corrected member |
|---|---|---|---|---|---|---|
| repository/src/main/java/org/apache/atlas/repository/store/graph/v2/preprocessor/glossary/TermPreProcessor.java:187 | `termGUID == guid` compares two guid strings by reference. If the vertex's guid and the meaning header's guid are distinct objects, they never compare equal. Whether the graph ever hands back distinct objects is not settled by the code shown. | An entity with one meaning of the renamed term, both guids "term-guid", where the two strings are different objects. The rewritten meanings text is the OLD display text. | Compare by value (`equals`), so the new term name replaces the old one. | not executed; medium | TermPreProcessor.RenameLostAsWritten | TermPreProcessor.RenameShown |
| repository/src/main/java/org/apache/atlas/repository/store/graph/v2/preprocessor/datamesh/DataProductPreProcessor.java:149 | `productExists` searches entities of type `DATA_DOMAIN_ENTITY_TYPE`. | An index holding ACTIVE DataProduct "Sales" in domain "default/domain/d1". Moving another product named "Sales" into that domain passes the check. | Search `DATA_PRODUCT_ENTITY_TYPE`, so a duplicate product name in the target domain is refused with BAD_REQUEST. | not executed; medium | DataProductPreProcessor.DuplicateProductPassesAsWritten | DataProductPreProcessor.ProductExistsIffDuplicate |
