/** ReadmePreProcessor: a readme is named after the asset it documents,
    `<asset guid>/readme`. Creating a readme for an asset that already has
    one (possibly soft-deleted) reuses and, if needed, restores the stored
    entity; an update keeps the stored name. */
module ReadmePreProcessor {
  import opened Wrappers
  import opened Text
  import opened EntityMutations

  const README_SUFFIX := "/readme"
  const DELETED := "DELETED"

  /** The readme's `asset` relationship attribute. */
  datatype AssetRef = AssetRef(guid: Option<string>)

  /** A stored readme vertex: its guid, state and qualified name properties. */
  datatype Vertex = Vertex(guid: string, state: Option<string>, qualifiedName: Option<string>)

  /** The readme as it leaves the preprocessor. `restored` says whether a
      soft-deleted stored readme was brought back. */
  datatype Readme = Readme(qualifiedName: Option<string>, guid: string, restored: bool)

  /** `createQualifiedName`: an asset given only by unique attributes has its
      guid looked up first (`lookedUp`, the outcome of the graph lookup by
      unique attributes); that lookup may fail, and a null guid it returns
      prints as "null". An asset with a guid never needs the lookup. */
  function ReadmeName(asset: AssetRef, lookedUp: Result<Option<string>>): (r: Result<string>)
    ensures NonEmpty(asset.guid) ==> r == Success(asset.guid.value + README_SUFFIX)
    ensures r.Failure? <==> !NonEmpty(asset.guid) && lookedUp.Failure?
    ensures r.Failure? ==> r.error == lookedUp.error
    ensures !NonEmpty(asset.guid) && lookedUp.Success? ==> r == Success(NullableText(lookedUp.value) + README_SUFFIX)
  {
    var guid :- if NonEmpty(asset.guid) then Success(asset.guid) else lookedUp;
    Success(NullableText(guid) + README_SUFFIX)
  }

  /** The asset guid a readme name was made from. */
  function AssetGuidOf(qualifiedName: string): (r: Option<string>)
    ensures r.Some? <==> EndsWith(qualifiedName, README_SUFFIX)
    ensures r.Some? ==> r.value + README_SUFFIX == qualifiedName
  {
    if EndsWith(qualifiedName, README_SUFFIX) then Some(qualifiedName[..|qualifiedName| - |README_SUFFIX|]) else None
  }

  /** The name always gives back the asset guid it was made from, so two
      assets with different guids never share a readme. */
  lemma ReadmeNameRoundTrip(asset: AssetRef, lookedUp: Result<Option<string>>)
    requires NonEmpty(asset.guid)
    ensures ReadmeName(asset, lookedUp).Success?
    ensures AssetGuidOf(ReadmeName(asset, lookedUp).value) == asset.guid
  {
    var n := ReadmeName(asset, lookedUp).value;
    assert n[..|n| - |README_SUFFIX|] == asset.guid.value;
    assert n[|n| - |README_SUFFIX|..] == README_SUFFIX;
  }

  lemma DistinctAssetsDistinctReadmes(a: AssetRef, la: Result<Option<string>>, b: AssetRef, lb: Result<Option<string>>)
    requires NonEmpty(a.guid) && NonEmpty(b.guid) && a.guid != b.guid
    ensures ReadmeName(a, la) != ReadmeName(b, lb)
  {
    ReadmeNameRoundTrip(a, la);
    ReadmeNameRoundTrip(b, lb);
  }

  /** `processCreateReadme`. `existing` is the stored readme found under the
      new name, if any. A failing guid lookup fails the create before the
      stored readme is looked for. Reading the state of a vertex without
      one fails as the Java `equals` on null would. */
  function ProcessCreateReadme(asset: Option<AssetRef>, lookedUp: Result<Option<string>>, guid: string, existing: Option<Vertex>): (r: Result<Readme>)
    ensures asset.None? ==> r == Failure(ReadmeFailed)
    ensures asset.Some? && ReadmeName(asset.value, lookedUp).Failure? ==> r == Failure(lookedUp.error)
    ensures asset.Some? && ReadmeName(asset.value, lookedUp).Success? && existing.None? ==>
      r == Success(Readme(Some(ReadmeName(asset.value, lookedUp).value), guid, false))
    ensures asset.Some? && ReadmeName(asset.value, lookedUp).Success? && existing.Some? && existing.value.state.None? ==>
      r == Failure(NullPointer)
    ensures r.Success? ==> asset.Some? && ReadmeName(asset.value, lookedUp).Success?
                           && r.value.qualifiedName == Some(ReadmeName(asset.value, lookedUp).value)
    ensures r.Success? && existing.Some? ==> (r.value.guid == existing.value.guid
                                             && (r.value.restored <==> existing.value.state == Some(DELETED)))
  {
    match asset
    case None => Failure(ReadmeFailed)
    case Some(a) =>
      var qualifiedName :- ReadmeName(a, lookedUp);
      match existing
      case None => Success(Readme(Some(qualifiedName), guid, false))
      case Some(v) =>
        if v.state.None? then Failure(NullPointer)
        else Success(Readme(Some(qualifiedName), v.guid, v.state.value == DELETED))
  }

  /** `processUpdateReadme`: the stored qualified name replaces whatever
      the payload carried; a guid with no vertex in the context fails. */
  function ProcessUpdateReadme(guid: string, stored: Option<Vertex>): (r: Result<Readme>)
    ensures r.Failure? <==> stored.None?
    ensures r.Failure? ==> r.error == NullPointer
    ensures r.Success? ==> r.value.qualifiedName == stored.value.qualifiedName && r.value.guid == guid && !r.value.restored
  {
    match stored
    case None => Failure(NullPointer)
    case Some(v) => Success(Readme(v.qualifiedName, guid, false))
  }

  /** `processAttributes`: only CREATE and UPDATE are accepted. */
  function ProcessAttributes(operation: EntityOperation, asset: Option<AssetRef>, lookedUp: Result<Option<string>>, guid: string,
                             existing: Option<Vertex>, stored: Option<Vertex>): (r: Result<Readme>)
    ensures operation == CREATE ==> r == ProcessCreateReadme(asset, lookedUp, guid, existing)
    ensures operation == UPDATE ==> r == ProcessUpdateReadme(guid, stored)
    ensures operation != CREATE && operation != UPDATE ==> r == Failure(BadRequest)
  {
    match operation
    case CREATE => ProcessCreateReadme(asset, lookedUp, guid, existing)
    case UPDATE => ProcessUpdateReadme(guid, stored)
    case _ => Failure(BadRequest)
  }

  /** Creating a readme and then updating it keeps the name it was created
      with: the update reads back what creation stored. */
  lemma CreateThenUpdateKeepsName(asset: AssetRef, lookedUp: Result<Option<string>>, guid: string, state: string)
    requires NonEmpty(asset.guid) || lookedUp.Success?
    ensures var created := ProcessCreateReadme(Some(asset), lookedUp, guid, None);
      && created.Success?
      && var updated := ProcessUpdateReadme(created.value.guid, Some(Vertex(created.value.guid, Some(state), created.value.qualifiedName)));
      && updated.Success? && updated.value.qualifiedName == created.value.qualifiedName
      && updated.value.guid == created.value.guid
  {
  }
}
