/** AuthzCacheOnDemandRefresher: whether an entity mutation makes the
    authorizer reload its policies, its roles, or both. */
module AuthzCacheOnDemandRefresher {

  const CONNECTION_ENTITY_TYPE := "Connection"
  const COLLECTION_ENTITY_TYPE := "Collection"
  const PERSONA_ENTITY_TYPE := "Persona"
  const PURPOSE_ENTITY_TYPE := "Purpose"
  const POLICY_ENTITY_TYPE := "AuthPolicy"

  const ATTR_POLICY_CATEGORY := "policyCategory"
  const ATTR_POLICY_SUB_CATEGORY := "policySubCategory"
  const POLICY_CATEGORY_PERSONA := "persona"
  const POLICY_CATEGORY_PURPOSE := "purpose"
  const POLICY_SUB_CATEGORY_METADATA := "metadata"
  const POLICY_SUB_CATEGORY_DATA := "data"

  const ATTR_ADMIN_USERS := "adminUsers"
  const ATTR_ADMIN_GROUPS := "adminGroups"
  const ATTR_ADMIN_ROLES := "adminRoles"
  const ATTR_VIEWER_USERS := "viewerUsers"
  const ATTR_VIEWER_GROUPS := "viewerGroups"
  const ATTR_ACCESS_CONTROL_ENABLED := "isAccessControlEnabled"
  const ATTR_POLICY_USERS := "policyUsers"
  const ATTR_POLICY_GROUPS := "policyGroups"
  const ATTR_PURPOSE_CLASSIFICATIONS := "purposeClassifications"

  const CONNECTION_ATTRS: set<string> := {ATTR_ADMIN_USERS, ATTR_ADMIN_GROUPS, ATTR_ADMIN_ROLES}
  const COLLECTION_ATTRS: set<string> := {ATTR_ADMIN_USERS, ATTR_ADMIN_GROUPS, ATTR_ADMIN_ROLES, ATTR_VIEWER_USERS, ATTR_VIEWER_GROUPS}
  const PERSONA_ATTRS: set<string> := {ATTR_ACCESS_CONTROL_ENABLED, ATTR_POLICY_USERS, ATTR_POLICY_GROUPS}
  const PURPOSE_ATTRS: set<string> := {ATTR_ACCESS_CONTROL_ENABLED, ATTR_PURPOSE_CLASSIFICATIONS}

  /** An `AtlasEntityHeader` as far as the refresher reads it; an attribute
      that is absent reads as null. */
  datatype Header = Header(guid: string, typeName: string, attributes: map<string, string>)

  /** `EntityMutationResponse`: the created, updated and deleted headers. */
  datatype MutationResponse = MutationResponse(created: seq<Header>, updated: seq<Header>, deleted: seq<Header>)

  /** The two refresh flags. */
  datatype Flags = Flags(policies: bool, roles: bool) {
    function Or(other: Flags): Flags {
      Flags(policies || other.policies, roles || other.roles)
    }

    predicate Any() {
      policies || roles
    }
  }

  const NoFlags := Flags(false, false)

  /** `"literal".equals(attribute)`: false when the attribute is null. */
  predicate AttrIs(h: Header, name: string, value: string) {
    name in h.attributes && h.attributes[name] == value
  }

  /** What one created header triggers on its own. */
  function CreatedTrigger(h: Header): (f: Flags)
    ensures f.roles <==>
      || h.typeName in {CONNECTION_ENTITY_TYPE, COLLECTION_ENTITY_TYPE, PERSONA_ENTITY_TYPE}
      || (h.typeName == POLICY_ENTITY_TYPE
          && (AttrIs(h, ATTR_POLICY_CATEGORY, POLICY_CATEGORY_PURPOSE) || AttrIs(h, ATTR_POLICY_SUB_CATEGORY, "metadata")))
    ensures f.policies <==>
      || h.typeName in {CONNECTION_ENTITY_TYPE, COLLECTION_ENTITY_TYPE}
      || (h.typeName == POLICY_ENTITY_TYPE
          && (AttrIs(h, ATTR_POLICY_CATEGORY, POLICY_CATEGORY_PURPOSE) || AttrIs(h, ATTR_POLICY_SUB_CATEGORY, "metadata")
              || (AttrIs(h, ATTR_POLICY_CATEGORY, POLICY_CATEGORY_PERSONA) && AttrIs(h, ATTR_POLICY_SUB_CATEGORY, POLICY_SUB_CATEGORY_DATA))))
  {
    if h.typeName == CONNECTION_ENTITY_TYPE || h.typeName == COLLECTION_ENTITY_TYPE then Flags(true, true)
    else if h.typeName == PERSONA_ENTITY_TYPE then Flags(false, true)
    else if h.typeName == POLICY_ENTITY_TYPE then
      var persona := AttrIs(h, ATTR_POLICY_CATEGORY, POLICY_CATEGORY_PERSONA)
        && (AttrIs(h, ATTR_POLICY_SUB_CATEGORY, POLICY_SUB_CATEGORY_METADATA) || AttrIs(h, ATTR_POLICY_SUB_CATEGORY, POLICY_SUB_CATEGORY_DATA));
      var purposeOrMetadata := AttrIs(h, ATTR_POLICY_CATEGORY, POLICY_CATEGORY_PURPOSE) || AttrIs(h, ATTR_POLICY_SUB_CATEGORY, "metadata");
      Flags(persona || purposeOrMetadata, purposeOrMetadata)
    else NoFlags
  }

  /** What one updated header triggers, given the attribute names its
      differential entity carries (absent when there is no such entity). */
  function UpdatedTrigger(h: Header, diff: map<string, set<string>>): (f: Flags)
    ensures f.Any() ==> h.guid in diff && diff[h.guid] != {}
    ensures f.roles <==> (h.guid in diff &&
      ((h.typeName == CONNECTION_ENTITY_TYPE && diff[h.guid] * CONNECTION_ATTRS != {})
       || (h.typeName == COLLECTION_ENTITY_TYPE && diff[h.guid] * COLLECTION_ATTRS != {})
       || (h.typeName == PERSONA_ENTITY_TYPE && diff[h.guid] * PERSONA_ATTRS != {})))
    ensures f.policies <==> (h.guid in diff && diff[h.guid] != {} &&
      ((h.typeName == PURPOSE_ENTITY_TYPE && diff[h.guid] * PURPOSE_ATTRS != {}) || h.typeName == POLICY_ENTITY_TYPE))
  {
    if h.guid !in diff || diff[h.guid] == {} then NoFlags
    else
      var updatedAttrs := diff[h.guid];
      if h.typeName == CONNECTION_ENTITY_TYPE then Flags(false, updatedAttrs * CONNECTION_ATTRS != {})
      else if h.typeName == COLLECTION_ENTITY_TYPE then Flags(false, updatedAttrs * COLLECTION_ATTRS != {})
      else if h.typeName == PERSONA_ENTITY_TYPE then Flags(false, updatedAttrs * PERSONA_ATTRS != {})
      else if h.typeName == PURPOSE_ENTITY_TYPE then Flags(updatedAttrs * PURPOSE_ATTRS != {}, false)
      else if h.typeName == POLICY_ENTITY_TYPE then Flags(true, false)
      else NoFlags
  }

  /** What one deleted header triggers on its own. */
  function DeletedTrigger(h: Header): (f: Flags)
    ensures f.roles <==> h.typeName in {CONNECTION_ENTITY_TYPE, COLLECTION_ENTITY_TYPE, PERSONA_ENTITY_TYPE, PURPOSE_ENTITY_TYPE}
    ensures f.policies <==>
      || f.roles
      || (h.typeName == POLICY_ENTITY_TYPE && AttrIs(h, ATTR_POLICY_SUB_CATEGORY, "metadata")
          && (AttrIs(h, ATTR_POLICY_CATEGORY, POLICY_CATEGORY_PERSONA) || AttrIs(h, ATTR_POLICY_CATEGORY, POLICY_CATEGORY_PURPOSE)))
      || (h.typeName == POLICY_ENTITY_TYPE && AttrIs(h, ATTR_POLICY_SUB_CATEGORY, "data") && AttrIs(h, ATTR_POLICY_CATEGORY, POLICY_CATEGORY_PERSONA))
  {
    if h.typeName == CONNECTION_ENTITY_TYPE || h.typeName == COLLECTION_ENTITY_TYPE
       || h.typeName == PERSONA_ENTITY_TYPE || h.typeName == PURPOSE_ENTITY_TYPE then Flags(true, true)
    else if h.typeName == POLICY_ENTITY_TYPE then
      var persona := AttrIs(h, ATTR_POLICY_CATEGORY, POLICY_CATEGORY_PERSONA)
        && (AttrIs(h, ATTR_POLICY_SUB_CATEGORY, "metadata") || AttrIs(h, ATTR_POLICY_SUB_CATEGORY, "data"));
      var purpose := AttrIs(h, ATTR_POLICY_CATEGORY, POLICY_CATEGORY_PURPOSE) && AttrIs(h, ATTR_POLICY_SUB_CATEGORY, "metadata");
      Flags(persona || purpose, false)
    else NoFlags
  }

  /** The three header lists tagged with their kind. */
  datatype Change = Created(h: Header) | Updated(u: Header) | Deleted(d: Header)

  function Trigger(c: Change, diff: map<string, set<string>>): Flags {
    match c
    case Created(h) => CreatedTrigger(h)
    case Updated(h) => UpdatedTrigger(h, diff)
    case Deleted(h) => DeletedTrigger(h)
  }

  /** The loops of `AsyncCacheRefresher.run`: each header may set a flag,
      none clears one. */
  function Accumulate(changes: seq<Change>, diff: map<string, set<string>>, f: Flags): (r: Flags)
    ensures f.policies ==> r.policies
    ensures f.roles ==> r.roles
    decreases |changes|
  {
    if |changes| == 0 then f
    else Accumulate(changes[1..], diff, f.Or(Trigger(changes[0], diff)))
  }

  /** A flag ends up set iff it started set or some header triggers it on
      its own; so the flags do not depend on the order of the headers. */
  lemma {:induction false} AccumulateIsAny(changes: seq<Change>, diff: map<string, set<string>>, f: Flags)
    ensures var r := Accumulate(changes, diff, f);
      && (r.policies <==> f.policies || exists c :: c in changes && Trigger(c, diff).policies)
      && (r.roles <==> f.roles || exists c :: c in changes && Trigger(c, diff).roles)
    decreases |changes|
  {
    if |changes| > 0 {
      var f1 := f.Or(Trigger(changes[0], diff));
      AccumulateIsAny(changes[1..], diff, f1);
      assert forall c :: c in changes <==> c == changes[0] || c in changes[1..];
    }
  }

  lemma AccumulateOrderFree(a: seq<Change>, b: seq<Change>, diff: map<string, set<string>>)
    requires multiset(a) == multiset(b)
    ensures Accumulate(a, diff, NoFlags) == Accumulate(b, diff, NoFlags)
  {
    AccumulateIsAny(a, diff, NoFlags);
    AccumulateIsAny(b, diff, NoFlags);
    assert forall c :: c in a <==> c in multiset(a);
    assert forall c :: c in b <==> c in multiset(b);
  }

  /** The headers in the order the three loops visit them. */
  function Changes(resp: MutationResponse): (r: seq<Change>)
    ensures forall c :: c in r <==>
      || (c.Created? && c.h in resp.created)
      || (c.Updated? && c.u in resp.updated)
      || (c.Deleted? && c.d in resp.deleted)
  {
    var created := seq(|resp.created|, i requires 0 <= i < |resp.created| => Created(resp.created[i]));
    var updated := seq(|resp.updated|, i requires 0 <= i < |resp.updated| => Updated(resp.updated[i]));
    var deleted := seq(|resp.deleted|, i requires 0 <= i < |resp.deleted| => Deleted(resp.deleted[i]));
    assert forall h :: h in resp.created ==> Created(h) in created by {
      forall h | h in resp.created ensures Created(h) in created {
        var i :| 0 <= i < |resp.created| && resp.created[i] == h;
        assert created[i] == Created(h);
      }
    }
    assert forall h :: h in resp.updated ==> Updated(h) in updated by {
      forall h | h in resp.updated ensures Updated(h) in updated {
        var i :| 0 <= i < |resp.updated| && resp.updated[i] == h;
        assert updated[i] == Updated(h);
      }
    }
    assert forall h :: h in resp.deleted ==> Deleted(h) in deleted by {
      forall h | h in resp.deleted ensures Deleted(h) in deleted {
        var i :| 0 <= i < |resp.deleted| && resp.deleted[i] == h;
        assert deleted[i] == Deleted(h);
      }
    }
    created + updated + deleted
  }

  /** `AsyncCacheRefresher.run`'s flags: created, then updated, then deleted. */
  function RefreshFlags(resp: MutationResponse, diff: map<string, set<string>>): Flags {
    Accumulate(Changes(resp), diff, NoFlags)
  }

  /** A call of `refreshCache(refreshPolicies, refreshRoles, false)` on one
      of the two refreshers. */
  datatype RefreshCall = RefreshCall(policies: bool, roles: bool, groups: bool)

  /** `refreshCacheIfNeeded` followed by the background run: the calls made
      on the local authorizer cache and on the host refresher, in order. */
  function RefreshCalls(resp: MutationResponse, diff: map<string, set<string>>, isImport: bool, bootstrapping: bool,
                        enabled: bool): (calls: seq<RefreshCall>)
    ensures isImport || bootstrapping || !enabled ==> calls == []
    ensures calls != [] <==> !isImport && !bootstrapping && enabled && RefreshFlags(resp, diff).Any()
    ensures calls != [] ==>
      && |calls| == 2 && calls[0] == calls[1] && !calls[0].groups
      && calls[0].policies == RefreshFlags(resp, diff).policies && calls[0].roles == RefreshFlags(resp, diff).roles
  {
    if isImport || bootstrapping then []
    else if !enabled then []
    else
      var f := RefreshFlags(resp, diff);
      if f.Any() then [RefreshCall(f.policies, f.roles, false), RefreshCall(f.policies, f.roles, false)] else []
  }

  /** A flag is raised iff some created, updated or deleted header raises
      it on its own, whatever the order of the headers in each list. */
  lemma RefreshFlagsIsAny(resp: MutationResponse, diff: map<string, set<string>>)
    ensures var f := RefreshFlags(resp, diff);
      && (f.policies <==>
            || (exists h :: h in resp.created && CreatedTrigger(h).policies)
            || (exists h :: h in resp.updated && UpdatedTrigger(h, diff).policies)
            || (exists h :: h in resp.deleted && DeletedTrigger(h).policies))
      && (f.roles <==>
            || (exists h :: h in resp.created && CreatedTrigger(h).roles)
            || (exists h :: h in resp.updated && UpdatedTrigger(h, diff).roles)
            || (exists h :: h in resp.deleted && DeletedTrigger(h).roles))
  {
    PoliciesFlagIsAny(resp, diff);
    RolesFlagIsAny(resp, diff);
  }

  lemma PoliciesFlagIsAny(resp: MutationResponse, diff: map<string, set<string>>)
    ensures RefreshFlags(resp, diff).policies <==>
      || (exists h :: h in resp.created && CreatedTrigger(h).policies)
      || (exists h :: h in resp.updated && UpdatedTrigger(h, diff).policies)
      || (exists h :: h in resp.deleted && DeletedTrigger(h).policies)
  {
    var cs := Changes(resp);
    AccumulateIsAny(cs, diff, NoFlags);
    if exists c :: c in cs && Trigger(c, diff).policies {
      var c :| c in cs && Trigger(c, diff).policies;
    }
    if exists h :: h in resp.created && CreatedTrigger(h).policies {
      var h :| h in resp.created && CreatedTrigger(h).policies;
      assert Created(h) in cs;
    }
    if exists h :: h in resp.updated && UpdatedTrigger(h, diff).policies {
      var h :| h in resp.updated && UpdatedTrigger(h, diff).policies;
      assert Updated(h) in cs;
    }
    if exists h :: h in resp.deleted && DeletedTrigger(h).policies {
      var h :| h in resp.deleted && DeletedTrigger(h).policies;
      assert Deleted(h) in cs;
    }
  }

  lemma RolesFlagIsAny(resp: MutationResponse, diff: map<string, set<string>>)
    ensures RefreshFlags(resp, diff).roles <==>
      || (exists h :: h in resp.created && CreatedTrigger(h).roles)
      || (exists h :: h in resp.updated && UpdatedTrigger(h, diff).roles)
      || (exists h :: h in resp.deleted && DeletedTrigger(h).roles)
  {
    var cs := Changes(resp);
    AccumulateIsAny(cs, diff, NoFlags);
    if exists c :: c in cs && Trigger(c, diff).roles {
      var c :| c in cs && Trigger(c, diff).roles;
    }
    if exists h :: h in resp.created && CreatedTrigger(h).roles {
      var h :| h in resp.created && CreatedTrigger(h).roles;
      assert Created(h) in cs;
    }
    if exists h :: h in resp.updated && UpdatedTrigger(h, diff).roles {
      var h :| h in resp.updated && UpdatedTrigger(h, diff).roles;
      assert Updated(h) in cs;
    }
    if exists h :: h in resp.deleted && DeletedTrigger(h).roles {
      var h :| h in resp.deleted && DeletedTrigger(h).roles;
      assert Deleted(h) in cs;
    }
  }
}
