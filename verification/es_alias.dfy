/** ESAliasStore: the Elasticsearch alias of a persona or purpose and the
    filter that restricts it. A persona's filter allows or denies the assets
    of its metadata and glossary policies; a purpose's filter allows or
    denies its tags. The filter is `{"bool": {"should": allow, "must_not":
    deny}}`, with each list present only when it is non-empty. */
module ESAliasStore {
  import opened Wrappers
  import AccessControlUtil

  const QUALIFIED_NAME := "qualifiedName"
  const TRAIT_NAMES_PROPERTY_KEY := "__traitNames"
  const PROPAGATED_TRAIT_NAMES_PROPERTY_KEY := "__propagatedTraitNames"
  /** `INDEX_PREFIX + VERTEX_INDEX`: the index every alias points at. */
  const VERTEX_INDEX_NAME := "janusgraph_vertex_index"

  /** One query clause of the filter. */
  datatype Clause =
    | Term(field: string, value: string)
    | Wildcard(field: string, pattern: string)
    | Terms(field: string, values: seq<string>)

  /** The `bool` object: each list is present iff it has clauses. */
  datatype BoolFilter = BoolFilter(should: Option<seq<Clause>>, mustNot: Option<seq<Clause>>)

  /** An access-control policy as the filter builder reads it: its actions,
      assets, allow flag, and the qualified name of its connection (read
      through the entity retriever). */
  datatype Policy = Policy(
    guid: string,
    actions: seq<string>,
    assets: seq<string>,
    isAllow: bool,
    connectionQualifiedName: string)

  /** A persona or purpose context: the policies, and the guid of the
      policy being deleted when the context is a policy delete. */
  datatype PersonaContext = PersonaContext(
    qualifiedName: Option<string>,
    metadataPolicies: seq<Policy>,
    glossaryPolicies: seq<Policy>,
    deletedPolicy: Option<string>)

  datatype PurposeContext = PurposeContext(
    qualifiedName: Option<string>,
    metadataPolicies: seq<Policy>,
    tags: seq<string>,
    deletedPolicy: Option<string>)

  /** An alias action sent to Elasticsearch: always ADD on the vertex index. */
  datatype AliasAction = AddAlias(index: string, alias: string, filter: Option<BoolFilter>)

  // ---------------------------------------------------------------------
  // Clauses

  /** `isDeletedPolicy`. */
  predicate IsDeletedPolicy(deletedPolicy: Option<string>, p: Policy) {
    deletedPolicy == Some(p.guid)
  }

  /** A policy takes part in a filter iff it grants entity-read and is not
      the policy being deleted. */
  predicate Counted(deletedPolicy: Option<string>, p: Policy) {
    AccessControlUtil.ACCESS_ENTITY_READ in p.actions && !IsDeletedPolicy(deletedPolicy, p)
  }

  /** `addPersonaFilterClauses`: the asset itself, everything under it, and
      everything anchored to it. */
  function AssetClauses(asset: string): (r: seq<Clause>)
    ensures |r| == 3
    ensures forall c :: c in r ==> c.field == QUALIFIED_NAME
  {
    [Term(QUALIFIED_NAME, asset), Wildcard(QUALIFIED_NAME, asset + "/*"), Wildcard(QUALIFIED_NAME, "*@" + asset)]
  }

  /** The asset clauses of every asset, in asset order. */
  function AssetsClauses(assets: seq<string>): (r: seq<Clause>)
    ensures |r| == 3 * |assets|
    ensures forall i :: 0 <= i < |assets| ==> r[3 * i..3 * i + 3] == AssetClauses(assets[i])
  {
    if |assets| == 0 then []
    else
      var rest := AssetsClauses(assets[1..]);
      var r := AssetClauses(assets[0]) + rest;
      assert forall i :: 1 <= i < |assets| ==> r[3 * i..3 * i + 3] == rest[3 * (i - 1)..3 * (i - 1) + 3];
      r
  }

  /** A persona metadata policy's clauses: its assets', then the connection
      term unless one of the assets is the connection itself. */
  function MetadataPolicyClauses(p: Policy): (r: seq<Clause>)
    ensures |r| >= 3 * |p.assets| && r[..3 * |p.assets|] == AssetsClauses(p.assets)
    ensures |r| == 3 * |p.assets| + 1 <==> p.connectionQualifiedName !in p.assets
    ensures |r| == 3 * |p.assets| <==> p.connectionQualifiedName in p.assets
    ensures p.connectionQualifiedName !in p.assets ==> r[|r| - 1] == Term(QUALIFIED_NAME, p.connectionQualifiedName)
  {
    var assetClauses := AssetsClauses(p.assets);
    if p.connectionQualifiedName in p.assets then assetClauses
    else assetClauses + [Term(QUALIFIED_NAME, p.connectionQualifiedName)]
  }

  /** A clause comes from an asset list iff it is one of some asset's
      three clauses. */
  lemma {:induction false} AssetsClausesMembers(assets: seq<string>, c: Clause)
    ensures c in AssetsClauses(assets) <==> exists a :: a in assets && c in AssetClauses(a)
  {
    if |assets| > 0 {
      AssetsClausesMembers(assets[1..], c);
      assert AssetsClauses(assets) == AssetClauses(assets[0]) + AssetsClauses(assets[1..]);
      if exists a :: a in assets && c in AssetClauses(a) {
        var a :| a in assets && c in AssetClauses(a);
        if a != assets[0] {
          assert a in assets[1..];
        }
      }
    }
  }

  /** A persona glossary policy's clauses: only its assets', so unlike a
      metadata policy it never adds a term for its connection unless the
      connection is one of its assets. */
  function GlossaryPolicyClauses(p: Policy): (r: seq<Clause>)
    ensures |r| == 3 * |p.assets|
    ensures forall i :: 0 <= i < |p.assets| ==> r[3 * i..3 * i + 3] == AssetClauses(p.assets[i])
    ensures forall c :: c in r ==> exists a :: a in p.assets && c in AssetClauses(a)
    ensures Term(QUALIFIED_NAME, p.connectionQualifiedName) in r <==> p.connectionQualifiedName in p.assets
  {
    var r := AssetsClauses(p.assets);
    assert forall c :: c in r ==> exists a :: a in p.assets && c in AssetClauses(a) by {
      forall c | c in r
        ensures exists a :: a in p.assets && c in AssetClauses(a)
      {
        AssetsClausesMembers(p.assets, c);
      }
    }
    AssetsClausesMembers(p.assets, Term(QUALIFIED_NAME, p.connectionQualifiedName));
    r
  }

  /** `addPurposeMetadataFilterClauses`: the tags as trait names and as
      propagated trait names. */
  function PurposePolicyClauses(tags: seq<string>): (r: seq<Clause>)
    ensures |r| == 2
    ensures forall c :: c in r ==> c.Terms? && c.values == tags
  {
    [Terms(TRAIT_NAMES_PROPERTY_KEY, tags), Terms(PROPAGATED_TRAIT_NAMES_PROPERTY_KEY, tags)]
  }

  /** Which clauses a kind of policy contributes. */
  datatype PolicyKind = PersonaMetadata | PersonaGlossary | PurposeMetadata(tags: seq<string>)

  function ClausesOf(kind: PolicyKind, p: Policy): seq<Clause> {
    match kind
    case PersonaMetadata => MetadataPolicyClauses(p)
    case PersonaGlossary => GlossaryPolicyClauses(p)
    case PurposeMetadata(tags) => PurposePolicyClauses(tags)
  }

  /** The clauses the counted policies whose allow flag is `allow` add to one
      list, in policy order. */
  function Gather(kind: PolicyKind, policies: seq<Policy>, deletedPolicy: Option<string>, allow: bool): (r: seq<Clause>)
    ensures (forall i :: 0 <= i < |policies| ==> !Counted(deletedPolicy, policies[i]) || policies[i].isAllow != allow) ==> r == []
  {
    if |policies| == 0 then []
    else
      var p := policies[0];
      (if Counted(deletedPolicy, p) && p.isAllow == allow then ClausesOf(kind, p) else [])
        + Gather(kind, policies[1..], deletedPolicy, allow)
  }

  /** A clause is in a list iff a counted policy of that allow flag
      contributes it. */
  lemma {:induction false} GatherMembers(kind: PolicyKind, policies: seq<Policy>, deletedPolicy: Option<string>, allow: bool, c: Clause)
    ensures c in Gather(kind, policies, deletedPolicy, allow)
        <==> (exists i :: 0 <= i < |policies| && Counted(deletedPolicy, policies[i]) && policies[i].isAllow == allow
                          && c in ClausesOf(kind, policies[i]))
  {
    if |policies| > 0 {
      GatherMembers(kind, policies[1..], deletedPolicy, allow, c);
      if c in Gather(kind, policies[1..], deletedPolicy, allow) {
        var i :| 0 <= i < |policies[1..]| && Counted(deletedPolicy, policies[1..][i]) && policies[1..][i].isAllow == allow
                 && c in ClausesOf(kind, policies[1..][i]);
        assert policies[i + 1] == policies[1..][i];
      }
      if exists i :: 0 <= i < |policies| && Counted(deletedPolicy, policies[i]) && policies[i].isAllow == allow && c in ClausesOf(kind, policies[i]) {
        var i :| 0 <= i < |policies| && Counted(deletedPolicy, policies[i]) && policies[i].isAllow == allow && c in ClausesOf(kind, policies[i]);
        if i > 0 {
          assert policies[1..][i - 1] == policies[i];
        }
      }
    }
  }

  /** The policy being deleted contributes nothing: the filter is that of
      the remaining policies. */
  lemma {:induction false} GatherSkipsDeleted(kind: PolicyKind, before: seq<Policy>, p: Policy, after: seq<Policy>, allow: bool)
    ensures Gather(kind, before + [p] + after, Some(p.guid), allow)
         == Gather(kind, before + after, Some(p.guid), allow)
    decreases |before|
  {
    if |before| == 0 {
      assert before + [p] + after == [p] + after;
      assert ([p] + after)[1..] == after;
      assert before + after == after;
    } else {
      assert (before + [p] + after)[1..] == before[1..] + [p] + after;
      assert (before + after)[1..] == before[1..] + after;
      assert (before + [p] + after)[0] == (before + after)[0];
      GatherSkipsDeleted(kind, before[1..], p, after, allow);
    }
  }

  /** A list is non-empty iff some counted policy of that flag contributes
      at least one clause. */
  lemma {:induction false} GatherNonEmpty(kind: PolicyKind, policies: seq<Policy>, deletedPolicy: Option<string>, allow: bool)
    ensures Gather(kind, policies, deletedPolicy, allow) != []
        <==> exists i :: 0 <= i < |policies| && Counted(deletedPolicy, policies[i]) && policies[i].isAllow == allow
                          && ClausesOf(kind, policies[i]) != []
  {
    if |policies| > 0 {
      var tail := policies[1..];
      GatherNonEmpty(kind, tail, deletedPolicy, allow);
      if exists i :: 0 <= i < |tail| && Counted(deletedPolicy, tail[i]) && tail[i].isAllow == allow && ClausesOf(kind, tail[i]) != [] {
        var i :| 0 <= i < |tail| && Counted(deletedPolicy, tail[i]) && tail[i].isAllow == allow && ClausesOf(kind, tail[i]) != [];
        assert policies[i + 1] == tail[i];
      }
      if exists i :: 1 <= i < |policies| && Counted(deletedPolicy, policies[i]) && policies[i].isAllow == allow
                     && ClausesOf(kind, policies[i]) != [] {
        var i :| 1 <= i < |policies| && Counted(deletedPolicy, policies[i]) && policies[i].isAllow == allow
                 && ClausesOf(kind, policies[i]) != [];
        assert tail[i - 1] == policies[i];
      }
    }
  }

  /** A purpose list gets two clauses per counted policy of that flag. */
  lemma {:induction false} PurposeGatherLength(tags: seq<string>, policies: seq<Policy>, deletedPolicy: Option<string>, allow: bool)
    ensures |Gather(PurposeMetadata(tags), policies, deletedPolicy, allow)| == 2 * CountOf(policies, deletedPolicy, allow)
  {
    if |policies| > 0 {
      PurposeGatherLength(tags, policies[1..], deletedPolicy, allow);
    }
  }

  /** The number of counted policies with that allow flag. */
  function CountOf(policies: seq<Policy>, deletedPolicy: Option<string>, allow: bool): nat {
    if |policies| == 0 then 0
    else
      var here := if Counted(deletedPolicy, policies[0]) && policies[0].isAllow == allow then 1 else 0;
      here + CountOf(policies[1..], deletedPolicy, allow)
  }

  // ---------------------------------------------------------------------
  // Filters

  /** The `bool` object over the two lists. */
  function MakeBool(allow: seq<Clause>, deny: seq<Clause>): (r: BoolFilter)
    ensures r.should.Some? <==> allow != []
    ensures r.mustNot.Some? <==> deny != []
    ensures r.should.Some? ==> r.should.value == allow
    ensures r.mustNot.Some? ==> r.mustNot.value == deny
  {
    BoolFilter(if allow != [] then Some(allow) else None, if deny != [] then Some(deny) else None)
  }

  /** `getFilter(PersonaContext)`: metadata policies first, then glossary
      policies, each appending to the list their allow flag selects. A list
      is present iff some counted policy of its flag is a metadata policy
      (which always adds a clause) or a glossary policy with assets. */
  function PersonaFilter(ctx: PersonaContext): (r: BoolFilter)
    ensures r.should.Some? <==> PersonaContributes(ctx, true)
    ensures r.mustNot.Some? <==> PersonaContributes(ctx, false)
  {
    PersonaListPresence(ctx, true);
    PersonaListPresence(ctx, false);
    MakeBool(
      Gather(PersonaMetadata, ctx.metadataPolicies, ctx.deletedPolicy, true)
        + Gather(PersonaGlossary, ctx.glossaryPolicies, ctx.deletedPolicy, true),
      Gather(PersonaMetadata, ctx.metadataPolicies, ctx.deletedPolicy, false)
        + Gather(PersonaGlossary, ctx.glossaryPolicies, ctx.deletedPolicy, false))
  }

  /** Some counted policy with that allow flag contributes to a persona
      filter: any metadata policy, or a glossary policy with assets. */
  predicate PersonaContributes(ctx: PersonaContext, allow: bool) {
    || (exists i :: 0 <= i < |ctx.metadataPolicies| && Counted(ctx.deletedPolicy, ctx.metadataPolicies[i])
                    && ctx.metadataPolicies[i].isAllow == allow)
    || (exists i :: 0 <= i < |ctx.glossaryPolicies| && Counted(ctx.deletedPolicy, ctx.glossaryPolicies[i])
                    && ctx.glossaryPolicies[i].isAllow == allow && ctx.glossaryPolicies[i].assets != [])
  }

  lemma PersonaListPresence(ctx: PersonaContext, allow: bool)
    ensures Gather(PersonaMetadata, ctx.metadataPolicies, ctx.deletedPolicy, allow)
              + Gather(PersonaGlossary, ctx.glossaryPolicies, ctx.deletedPolicy, allow) != []
        <==> PersonaContributes(ctx, allow)
  {
    GatherNonEmpty(PersonaMetadata, ctx.metadataPolicies, ctx.deletedPolicy, allow);
    GatherNonEmpty(PersonaGlossary, ctx.glossaryPolicies, ctx.deletedPolicy, allow);
    forall i | 0 <= i < |ctx.metadataPolicies|
      ensures ClausesOf(PersonaMetadata, ctx.metadataPolicies[i]) != []
    {
      var p := ctx.metadataPolicies[i];
      if p.connectionQualifiedName in p.assets {
        assert |p.assets| > 0;
      }
    }
  }

  /** `getFilter(PurposeContext)`: every counted policy adds its two tag
      clauses to the list its allow flag selects. */
  function PurposeFilter(ctx: PurposeContext): (r: BoolFilter)
    ensures r.should.Some? <==> exists i :: 0 <= i < |ctx.metadataPolicies|
                                  && Counted(ctx.deletedPolicy, ctx.metadataPolicies[i]) && ctx.metadataPolicies[i].isAllow
    ensures r.mustNot.Some? <==> exists i :: 0 <= i < |ctx.metadataPolicies|
                                   && Counted(ctx.deletedPolicy, ctx.metadataPolicies[i]) && !ctx.metadataPolicies[i].isAllow
    ensures r.should.Some? ==> |r.should.value| == 2 * CountOf(ctx.metadataPolicies, ctx.deletedPolicy, true)
                               && forall c :: c in r.should.value ==> c in PurposePolicyClauses(ctx.tags)
    ensures r.mustNot.Some? ==> |r.mustNot.value| == 2 * CountOf(ctx.metadataPolicies, ctx.deletedPolicy, false)
                                && forall c :: c in r.mustNot.value ==> c in PurposePolicyClauses(ctx.tags)
  {
    PurposeListShape(ctx.tags, ctx.metadataPolicies, ctx.deletedPolicy, true);
    PurposeListShape(ctx.tags, ctx.metadataPolicies, ctx.deletedPolicy, false);
    MakeBool(Gather(PurposeMetadata(ctx.tags), ctx.metadataPolicies, ctx.deletedPolicy, true),
             Gather(PurposeMetadata(ctx.tags), ctx.metadataPolicies, ctx.deletedPolicy, false))
  }

  lemma PurposeListShape(tags: seq<string>, policies: seq<Policy>, deletedPolicy: Option<string>, allow: bool)
    ensures var r := Gather(PurposeMetadata(tags), policies, deletedPolicy, allow);
      && |r| == 2 * CountOf(policies, deletedPolicy, allow)
      && (forall c :: c in r ==> c in PurposePolicyClauses(tags))
      && (r != [] <==> exists i :: 0 <= i < |policies| && Counted(deletedPolicy, policies[i]) && policies[i].isAllow == allow)
  {
    var r := Gather(PurposeMetadata(tags), policies, deletedPolicy, allow);
    PurposeGatherLength(tags, policies, deletedPolicy, allow);
    GatherNonEmpty(PurposeMetadata(tags), policies, deletedPolicy, allow);
    forall c | c in r
      ensures c in PurposePolicyClauses(tags)
    {
      GatherMembers(PurposeMetadata(tags), policies, deletedPolicy, allow, c);
    }
  }

  /** A purpose filter allows (denies) a clause iff it is one of the two
      tag clauses and some counted allow (deny) policy exists. */
  lemma PurposeFilterMembers(ctx: PurposeContext, c: Clause)
    ensures var f := PurposeFilter(ctx);
      && (f.should.Some? && c in f.should.value <==>
            c in PurposePolicyClauses(ctx.tags)
            && exists i :: 0 <= i < |ctx.metadataPolicies| && Counted(ctx.deletedPolicy, ctx.metadataPolicies[i])
                           && ctx.metadataPolicies[i].isAllow)
      && (f.mustNot.Some? && c in f.mustNot.value <==>
            c in PurposePolicyClauses(ctx.tags)
            && exists i :: 0 <= i < |ctx.metadataPolicies| && Counted(ctx.deletedPolicy, ctx.metadataPolicies[i])
                           && !ctx.metadataPolicies[i].isAllow)
  {
    GatherMembers(PurposeMetadata(ctx.tags), ctx.metadataPolicies, ctx.deletedPolicy, true, c);
    GatherMembers(PurposeMetadata(ctx.tags), ctx.metadataPolicies, ctx.deletedPolicy, false, c);
  }

  /** A persona filter allows (denies) exactly the clauses of its counted
      allow (deny) policies; it has a "should" list iff some counted allow
      policy contributes a clause. */
  lemma PersonaFilterMembers(ctx: PersonaContext, c: Clause)
    ensures var f := PersonaFilter(ctx);
      && (f.should.Some? && c in f.should.value <==> (
            || (exists i :: 0 <= i < |ctx.metadataPolicies| && Counted(ctx.deletedPolicy, ctx.metadataPolicies[i])
                            && ctx.metadataPolicies[i].isAllow && c in MetadataPolicyClauses(ctx.metadataPolicies[i]))
            || (exists i :: 0 <= i < |ctx.glossaryPolicies| && Counted(ctx.deletedPolicy, ctx.glossaryPolicies[i])
                            && ctx.glossaryPolicies[i].isAllow && c in AssetsClauses(ctx.glossaryPolicies[i].assets))))
      && (f.mustNot.Some? && c in f.mustNot.value <==> (
            || (exists i :: 0 <= i < |ctx.metadataPolicies| && Counted(ctx.deletedPolicy, ctx.metadataPolicies[i])
                            && !ctx.metadataPolicies[i].isAllow && c in MetadataPolicyClauses(ctx.metadataPolicies[i]))
            || (exists i :: 0 <= i < |ctx.glossaryPolicies| && Counted(ctx.deletedPolicy, ctx.glossaryPolicies[i])
                            && !ctx.glossaryPolicies[i].isAllow && c in AssetsClauses(ctx.glossaryPolicies[i].assets))))
  {
    GatherMembers(PersonaMetadata, ctx.metadataPolicies, ctx.deletedPolicy, true, c);
    GatherMembers(PersonaGlossary, ctx.glossaryPolicies, ctx.deletedPolicy, true, c);
    GatherMembers(PersonaMetadata, ctx.metadataPolicies, ctx.deletedPolicy, false, c);
    GatherMembers(PersonaGlossary, ctx.glossaryPolicies, ctx.deletedPolicy, false, c);
  }

  // ---------------------------------------------------------------------
  // Alias requests

  /** `createAlias`: ADD of the alias with no filter. */
  function CreateAlias(qualifiedName: Option<string>): (r: Result<AliasAction>)
    ensures r.Success? <==> AccessControlUtil.ESAliasName(qualifiedName).Success?
    ensures r.Success? ==> (r.value.index == VERTEX_INDEX_NAME && r.value.filter.None?
                            && r.value.alias == AccessControlUtil.ESAliasName(qualifiedName).value)
  {
    var alias :- AccessControlUtil.ESAliasName(qualifiedName);
    Success(AddAlias(VERTEX_INDEX_NAME, alias, None))
  }

  /** `updateAlias(PersonaContext)`: ADD of the alias with the filter. */
  function UpdatePersonaAlias(ctx: PersonaContext): (r: Result<AliasAction>)
    ensures r.Success? <==> AccessControlUtil.ESAliasName(ctx.qualifiedName).Success?
    ensures r.Success? ==> (r.value.filter == Some(PersonaFilter(ctx))
                            && r.value.alias == AccessControlUtil.ESAliasName(ctx.qualifiedName).value)
  {
    var alias :- AccessControlUtil.ESAliasName(ctx.qualifiedName);
    Success(AddAlias(VERTEX_INDEX_NAME, alias, Some(PersonaFilter(ctx))))
  }

  /** `updateAlias(PurposeContext)`. */
  function UpdatePurposeAlias(ctx: PurposeContext): (r: Result<AliasAction>)
    ensures r.Success? <==> AccessControlUtil.ESAliasName(ctx.qualifiedName).Success?
    ensures r.Success? ==> (r.value.filter == Some(PurposeFilter(ctx))
                            && r.value.alias == AccessControlUtil.ESAliasName(ctx.qualifiedName).value)
  {
    var alias :- AccessControlUtil.ESAliasName(ctx.qualifiedName);
    Success(AddAlias(VERTEX_INDEX_NAME, alias, Some(PurposeFilter(ctx))))
  }

  /** Create and update address the same alias on the same index. */
  lemma CreateAndUpdateAgree(ctx: PersonaContext)
    ensures var c := CreateAlias(ctx.qualifiedName);
            var u := UpdatePersonaAlias(ctx);
      c.Success? <==> u.Success?
    ensures var c := CreateAlias(ctx.qualifiedName);
            var u := UpdatePersonaAlias(ctx);
      c.Success? ==> c.value.alias == u.value.alias && c.value.index == u.value.index
  {
  }
}
