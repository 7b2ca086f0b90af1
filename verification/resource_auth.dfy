/** AbstractResourcePreProcessor: which entity a change to a resource (a
    readme or a link) is authorised against. A resource attached to an asset
    is authorised through the asset; the resource's own check is then only
    logged. A free-standing resource needs the right on itself. The
    authorizer is an oracle. */
module AbstractResourcePreProcessor {
  import opened Wrappers

  datatype Privilege = ENTITY_UPDATE | ENTITY_DELETE

  /** What an access request names: an asset by guid, or the resource. */
  datatype Subject = AssetSubject(guid: string) | ResourceSubject

  /** One `verifyAccess` call and whether it was granted. */
  datatype Check = Check(privilege: Privilege, subject: Subject, granted: bool)

  type Authorizer = (Privilege, Subject) -> bool

  /** A vertex on an IN edge of the resource with the asset label. */
  datatype Linked = Linked(guid: string, active: bool)

  /** The first ACTIVE linked vertex, in edge order. */
  function FirstActive(linked: seq<Linked>): (r: Option<string>)
    ensures r.None? <==> forall i :: 0 <= i < |linked| ==> !linked[i].active
    ensures r.Some? ==> exists i :: 0 <= i < |linked| && linked[i].active && linked[i].guid == r.value
                                    && forall j :: 0 <= j < i ==> !linked[j].active
  {
    if |linked| == 0 then None
    else if linked[0].active then Some(linked[0].guid)
    else
      var r := FirstActive(linked[1..]);
      assert forall j :: 1 <= j < |linked| ==> linked[j] == linked[1..][j - 1];
      if r.Some? then
        var i :| 0 <= i < |linked[1..]| && linked[1..][i].active && linked[1..][i].guid == r.value
                 && forall j :: 0 <= j < i ==> !linked[1..][j].active;
        assert linked[i + 1] == linked[1..][i];
        r
      else r
  }

  /** The asset an update is authorised against: the one in the payload,
      else the first ACTIVE one linked in the store, else none. */
  function AssetToAuthorize(payloadAsset: Option<string>, linked: seq<Linked>): (r: Option<string>)
    ensures payloadAsset.Some? ==> r == payloadAsset
    ensures payloadAsset.None? ==> r == FirstActive(linked)
  {
    if payloadAsset.Some? then payloadAsset else FirstActive(linked)
  }

  /** `authorizeResourceUpdate`: the checks made, or the refusal. */
  function AuthorizeResourceUpdate(allowed: Authorizer, payloadAsset: Option<string>, linked: seq<Linked>): (r: Result<seq<Check>>)
    ensures var asset := AssetToAuthorize(payloadAsset, linked);
      && (asset.Some? ==> (r.Success? <==> allowed(ENTITY_UPDATE, AssetSubject(asset.value))))
      && (asset.None? ==> (r.Success? <==> allowed(ENTITY_UPDATE, ResourceSubject)))
    ensures r.Failure? ==> r.error == UnauthorizedAccess
    ensures r.Success? ==> (|r.value| > 0 && r.value[|r.value| - 1].subject == ResourceSubject
                            && r.value[|r.value| - 1].privilege == ENTITY_UPDATE)
  {
    match AssetToAuthorize(payloadAsset, linked)
    case Some(asset) =>
      :- Need(allowed(ENTITY_UPDATE, AssetSubject(asset)), UnauthorizedAccess);
      Success([Check(ENTITY_UPDATE, AssetSubject(asset), true),
               Check(ENTITY_UPDATE, ResourceSubject, allowed(ENTITY_UPDATE, ResourceSubject))])
    case None =>
      :- Need(allowed(ENTITY_UPDATE, ResourceSubject), UnauthorizedAccess);
      Success([Check(ENTITY_UPDATE, ResourceSubject, true)])
  }

  /** `authorizeResourceDelete`: the asset comes from the stored resource's
      relation only; it needs UPDATE on the asset, else DELETE on itself. */
  function AuthorizeResourceDelete(allowed: Authorizer, storedAsset: Option<string>): (r: Result<seq<Check>>)
    ensures storedAsset.Some? ==> (r.Success? <==> allowed(ENTITY_UPDATE, AssetSubject(storedAsset.value)))
    ensures storedAsset.None? ==> (r.Success? <==> allowed(ENTITY_DELETE, ResourceSubject))
    ensures r.Failure? ==> r.error == UnauthorizedAccess
    ensures r.Success? ==> |r.value| > 0 && r.value[|r.value| - 1] == Check(ENTITY_DELETE, ResourceSubject, allowed(ENTITY_DELETE, ResourceSubject))
  {
    match storedAsset
    case Some(asset) =>
      :- Need(allowed(ENTITY_UPDATE, AssetSubject(asset)), UnauthorizedAccess);
      Success([Check(ENTITY_UPDATE, AssetSubject(asset), true),
               Check(ENTITY_DELETE, ResourceSubject, allowed(ENTITY_DELETE, ResourceSubject))])
    case None =>
      :- Need(allowed(ENTITY_DELETE, ResourceSubject), UnauthorizedAccess);
      Success([Check(ENTITY_DELETE, ResourceSubject, true)])
  }

  /** With an asset, the resource's own right never decides an update or a
      delete: two authorizers that agree on the asset give the same
      outcome. */
  lemma ResourceRightOnlyLogged(a1: Authorizer, a2: Authorizer, asset: string, linked: seq<Linked>)
    requires a1(ENTITY_UPDATE, AssetSubject(asset)) == a2(ENTITY_UPDATE, AssetSubject(asset))
    ensures AuthorizeResourceUpdate(a1, Some(asset), linked).Success? == AuthorizeResourceUpdate(a2, Some(asset), linked).Success?
    ensures AuthorizeResourceDelete(a1, Some(asset)).Success? == AuthorizeResourceDelete(a2, Some(asset)).Success?
  {
  }

  /** An update without a payload asset is authorised against the first
      ACTIVE linked asset, skipping inactive ones before it. */
  lemma InactiveLinksSkipped(allowed: Authorizer, inactive: seq<Linked>, asset: string, rest: seq<Linked>)
    requires forall i :: 0 <= i < |inactive| ==> !inactive[i].active
    ensures AuthorizeResourceUpdate(allowed, None, inactive + [Linked(asset, true)] + rest).Success?
        <==> allowed(ENTITY_UPDATE, AssetSubject(asset))
  {
    var linked := inactive + [Linked(asset, true)] + rest;
    var r := FirstActive(linked);
    assert linked[|inactive|].active;
    var i :| 0 <= i < |linked| && linked[i].active && linked[i].guid == r.value
             && forall j :: 0 <= j < i ==> !linked[j].active;
    forall j | 0 <= j < |inactive|
      ensures linked[j] == inactive[j]
    {
    }
  }
}
