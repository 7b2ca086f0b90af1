/** AccessControlUtil: the alias name of a persona or purpose, the policy
    type tests, the ACTIVE-entity list behind a relationship attribute, the
    paging Ranger fetchers, and the guards that keep access-control types
    out of ordinary mutations. The Ranger service is a page oracle. */
module AccessControlUtil {
  import opened Wrappers
  import opened Text

  const ACCESS_ENTITY_READ := "entity-read"
  const POLICY_TYPE_METADATA := "metadata"
  const POLICY_TYPE_DATA := "data"
  /** Ranger page size of both fetchers. */
  const PAGE_SIZE := 25

  /** The entity types and the relationship type that ordinary entity and
      relationship mutations may not touch. */
  const ACCESS_CONTROL_ENTITY_TYPES: set<string> := {"Persona", "Purpose", "AuthPolicy"}
  const ACCESS_CONTROL_RELATION_TYPE := "access_control_policies"

  // ---------------------------------------------------------------------
  // Alias name

  /** `getESAliasName`: the last segment of the qualified name split on '/'
      (Java `split`: trailing empty segments dropped). A missing name is a
      null dereference; a name made only of '/' leaves no segment. */
  function ESAliasName(qualifiedName: Option<string>): (r: Result<string>)
    ensures qualifiedName.None? ==> r == Failure(NullPointer)
    ensures qualifiedName.Some? && '/' !in qualifiedName.value ==> r == Success(qualifiedName.value)
    ensures r.Success? ==> '/' !in r.value
    ensures r.Success? ==> qualifiedName.Some? && r.value in Split(qualifiedName.value, '/')
    ensures r.Failure? && qualifiedName.Some? ==> r.error == ArrayIndexOutOfBounds && Split(qualifiedName.value, '/') == []
  {
    match qualifiedName
    case None => Failure(NullPointer)
    case Some(qn) =>
      var parts := Split(qn, '/');
      if |parts| == 0 then Failure(ArrayIndexOutOfBounds) else Success(parts[|parts| - 1])
  }

  /** A persona named `"<tenant>/<id>"` (any prefix) gets the alias `<id>`. */
  lemma ESAliasNameOfPath(prefix: string, id: string)
    requires '/' !in id && id != ""
    ensures ESAliasName(Some(prefix + "/" + id)) == Success(id)
  {
    assert prefix + "/" + id == prefix + ['/'] + id;
    SplitLast(prefix, id, '/');
  }

  // ---------------------------------------------------------------------
  // Policies

  datatype EntityStatus = ACTIVE | DELETED | PURGED

  /** The attributes of a policy entity the helpers read. */
  datatype PolicyEntity = PolicyEntity(
    guid: string,
    status: EntityStatus,
    policyType: Option<string>,
    dataMaskingOption: Option<string>)

  /** `isMetadataPolicy`: the `accessControlPolicyType` attribute is
      "metadata". */
  predicate IsMetadataPolicy(p: PolicyEntity) {
    p.policyType == Some(POLICY_TYPE_METADATA)
  }

  /** `isDataPolicy`: the `accessControlPolicyType` attribute is "data". */
  predicate IsDataPolicy(p: PolicyEntity) {
    p.policyType == Some(POLICY_TYPE_DATA)
  }

  /** `isDataMaskPolicy`: the `dataMaskingOption` attribute is present and
      not empty; the policy type is not consulted. */
  predicate IsDataMaskPolicy(p: PolicyEntity) {
    NonEmpty(p.dataMaskingOption)
  }

  /** Whether a policy is a mask policy depends on its mask option alone:
      a metadata policy that carries a mask option is one, and a data
      policy without one is not. */
  lemma DataMaskByOptionOnly(p: PolicyEntity, policyType: Option<string>)
    ensures IsDataMaskPolicy(p.(policyType := policyType)) == IsDataMaskPolicy(p)
    ensures IsDataMaskPolicy(p) <==> p.dataMaskingOption.Some? && |p.dataMaskingOption.value| > 0
  {
  }

  /** The elements of `ps` that `keep` accepts, in order. */
  function Filter(ps: seq<PolicyEntity>, keep: PolicyEntity -> bool): (r: seq<PolicyEntity>)
    ensures |r| <= |ps|
    ensures forall e :: e in r <==> e in ps && keep(e)
  {
    if |ps| == 0 then []
    else (if keep(ps[0]) then [ps[0]] else []) + Filter(ps[1..], keep)
  }

  /** Two filters whose tests never both hold keep at most `|ps|` elements
      together. */
  lemma {:induction false} FilterDisjointLength(ps: seq<PolicyEntity>, f: PolicyEntity -> bool, g: PolicyEntity -> bool)
    requires forall e :: e in ps ==> !(f(e) && g(e))
    ensures |Filter(ps, f)| + |Filter(ps, g)| <= |ps|
  {
    if |ps| > 0 {
      assert forall e :: e in ps[1..] ==> e in ps;
      FilterDisjointLength(ps[1..], f, g);
    }
  }

  /** `objectToEntityList`: the referred entities behind the ids, ACTIVE ones
      only, in id order. A null id list gives the empty list; an id whose
      entity is not among the referred entities is a null dereference. */
  function ObjectToEntityList(referred: map<string, PolicyEntity>, ids: Option<seq<string>>): (r: Result<seq<PolicyEntity>>)
    ensures ids.None? ==> r == Success([])
    ensures r.Failure? <==> ids.Some? && exists id :: id in ids.value && id !in referred
    ensures r.Success? && ids.Some? ==> forall e :: e in r.value <==> e.status == ACTIVE && exists id :: id in ids.value && id in referred && referred[id] == e
  {
    match ids
    case None => Success([])
    case Some(list) => ActiveReferred(referred, list)
  }

  function ActiveReferred(referred: map<string, PolicyEntity>, ids: seq<string>): (r: Result<seq<PolicyEntity>>)
    ensures r.Failure? <==> exists id :: id in ids && id !in referred
    ensures r.Failure? ==> r.error == NullPointer
    ensures r.Success? ==> forall e :: e in r.value <==> e.status == ACTIVE && exists id :: id in ids && referred[id] == e
    ensures r.Success? ==> |r.value| <= |ids|
  {
    if |ids| == 0 then Success([])
    else if ids[0] !in referred then Failure(NullPointer)
    else
      var rest :- ActiveReferred(referred, ids[1..]);
      var e := referred[ids[0]];
      assert forall id :: id in ids <==> id == ids[0] || id in ids[1..];
      Success((if e.status == ACTIVE then [e] else []) + rest)
  }

  /** The list of the ids `a + b` is the list of `a` followed by that of `b`:
      input order is kept. */
  lemma {:induction false} ActiveReferredAppend(referred: map<string, PolicyEntity>, a: seq<string>, b: seq<string>)
    requires forall id :: id in a ==> id in referred
    requires forall id :: id in b ==> id in referred
    ensures ActiveReferred(referred, a + b).Success?
    ensures ActiveReferred(referred, a + b).value == ActiveReferred(referred, a).value + ActiveReferred(referred, b).value
    decreases |a|
  {
    if |a| == 0 {
      assert a + b == b;
    } else {
      assert (a + b)[1..] == a[1..] + b;
      assert (a + b)[0] == a[0];
      ActiveReferredAppend(referred, a[1..], b);
    }
  }

  /** `getMetadataPolicies`: the entity's ACTIVE policies that are metadata
      policies, in order. */
  function MetadataPolicies(referred: map<string, PolicyEntity>, ids: Option<seq<string>>): (r: Result<seq<PolicyEntity>>)
    ensures r.Failure? <==> ObjectToEntityList(referred, ids).Failure?
    ensures r.Success? ==> forall e :: e in r.value <==>
      e.status == ACTIVE && e.policyType == Some(POLICY_TYPE_METADATA) && e in ObjectToEntityList(referred, ids).value
  {
    var all :- ObjectToEntityList(referred, ids);
    Success(Filter(all, IsMetadataPolicy))
  }

  /** `getDataPolicies`: the entity's ACTIVE policies that are data
      policies, in order. */
  function DataPolicies(referred: map<string, PolicyEntity>, ids: Option<seq<string>>): (r: Result<seq<PolicyEntity>>)
    ensures r.Failure? <==> ObjectToEntityList(referred, ids).Failure?
    ensures r.Success? ==> forall e :: e in r.value <==>
      e.status == ACTIVE && e.policyType == Some(POLICY_TYPE_DATA) && e in ObjectToEntityList(referred, ids).value
  {
    var all :- ObjectToEntityList(referred, ids);
    Success(Filter(all, IsDataPolicy))
  }

  /** The metadata and data policies of an entity are disjoint, together
      no more than its ACTIVE policies, and every ACTIVE policy of either
      type is in one of them. */
  lemma PolicyListsSplit(referred: map<string, PolicyEntity>, ids: Option<seq<string>>)
    requires ObjectToEntityList(referred, ids).Success?
    ensures var all := ObjectToEntityList(referred, ids).value;
      var m := MetadataPolicies(referred, ids).value;
      var d := DataPolicies(referred, ids).value;
      && (forall e :: e in m ==> e !in d)
      && |m| + |d| <= |all|
      && (forall e :: e in all && (e.policyType == Some(POLICY_TYPE_METADATA) || e.policyType == Some(POLICY_TYPE_DATA)) ==>
            e in m || e in d)
  {
    FilterDisjointLength(ObjectToEntityList(referred, ids).value, IsMetadataPolicy, IsDataPolicy);
  }

  // ---------------------------------------------------------------------
  // Paging

  /** The Ranger service's answer for a start index. */
  type PageOracle<T> = int -> seq<T>

  /** `n` is the first page index whose page is not full. */
  ghost predicate FirstShortPage<T>(page: PageOracle<T>, n: nat) {
    |page(PAGE_SIZE * n)| != PAGE_SIZE && forall j: nat :: j < n ==> |page(PAGE_SIZE * j)| == PAGE_SIZE
  }

  /** The pages with index below `n`, concatenated in order. */
  function Pages<T>(page: PageOracle<T>, n: nat): seq<T> {
    if n == 0 then [] else Pages(page, n - 1) + page(PAGE_SIZE * (n - 1))
  }

  /** Every element of the concatenation comes from one of its pages. */
  lemma {:induction false} PagesMembers<T>(page: PageOracle<T>, n: nat, x: T)
    requires x in Pages(page, n)
    ensures exists j: nat :: j < n && x in page(PAGE_SIZE * j)
  {
    if n > 0 {
      if x in Pages(page, n - 1) {
        PagesMembers(page, n - 1, x);
      } else {
        assert x in page(PAGE_SIZE * (n - 1));
      }
    }
  }

  /** Full pages contribute exactly PAGE_SIZE items each. */
  lemma {:induction false} PagesLength<T>(page: PageOracle<T>, n: nat)
    requires forall j: nat :: j < n ==> |page(PAGE_SIZE * j)| == PAGE_SIZE
    ensures |Pages(page, n)| == PAGE_SIZE * n
  {
    if n > 0 {
      PagesLength(page, n - 1);
    }
  }

  /** The shared do-while of `fetchRangerPoliciesByLabel` and
      `fetchRangerPolicyByResources`: ask for pages at 0, 25, 50, … and stop
      after the first page that is not full. `bound` is any page index whose
      page is not full; it only bounds the loop. */
  method FetchAllPages<T>(page: PageOracle<T>, ghost bound: nat) returns (r: seq<T>, ghost n: nat)
    requires |page(PAGE_SIZE * bound)| != PAGE_SIZE
    ensures FirstShortPage(page, n) && n <= bound
    ensures r == Pages(page, n + 1)
    ensures |r| == PAGE_SIZE * n + |page(PAGE_SIZE * n)|
    ensures exists m: nat :: FirstShortPage(page, m) && r == Pages(page, m + 1)
  {
    r := [];
    var from := 0;
    var fetched;
    n := 0;
    while true
      invariant from == PAGE_SIZE * n && n <= bound
      invariant forall j: nat :: j < n ==> |page(PAGE_SIZE * j)| == PAGE_SIZE
      invariant r == Pages(page, n)
      decreases bound - n
    {
      var batch := page(from);
      fetched := |batch|;
      r := r + batch;
      from := from + PAGE_SIZE;
      if fetched != PAGE_SIZE {
        break;
      }
      n := n + 1;
    }
    PagesLength(page, n);
    assert FirstShortPage(page, n) && r == Pages(page, n + 1);
  }

  /** A Ranger policy as the matcher compares it. */
  datatype RangerPolicy = RangerPolicy(resourceSignature: string, policyType: Option<int>, serviceType: Option<string>)

  /** The exact-match scan of `fetchRangerPolicyByResources`: the first
      policy with the provisional signature, the requested policy type and
      service type. The requested type is parsed only once a signature
      matches, so a non-numeric type fails only then. */
  function FirstMatch(policies: seq<RangerPolicy>, signature: string, policyType: string, serviceType: string): (r: Result<Option<RangerPolicy>>)
    ensures (forall i :: 0 <= i < |policies| ==> policies[i].resourceSignature != signature) ==> r == Success(None)
    ensures r.Success? && r.value.Some? ==>
      && r.value.value in policies
      && r.value.value.resourceSignature == signature
      && r.value.value.policyType.Some? && Success(r.value.value.policyType.value) == ParseInt(policyType)
      && r.value.value.serviceType == Some(serviceType)
    ensures r.Failure? ==> r.error == NumberFormat && ParseInt(policyType).Failure?
    ensures ParseInt(policyType).Success? ==> r.Success?
  {
    if |policies| == 0 then Success(None)
    else
      var p := policies[0];
      if p.resourceSignature == signature then
        var wanted :- ParseInt(policyType);
        if p.policyType == Some(wanted) && p.serviceType == Some(serviceType) then Success(Some(p))
        else FirstMatch(policies[1..], signature, policyType, serviceType)
      else FirstMatch(policies[1..], signature, policyType, serviceType)
  }

  /** With a numeric policy type, the scan finds a policy iff one matches,
      and it finds the first. */
  lemma {:induction false} FirstMatchIsFirst(policies: seq<RangerPolicy>, signature: string, policyType: string, serviceType: string, t: int)
    requires ParseInt(policyType) == Success(t)
    ensures var r := FirstMatch(policies, signature, policyType, serviceType);
      && r.Success?
      && (r.value.None? <==> forall i :: 0 <= i < |policies| ==> !Matches(policies[i], signature, t, serviceType))
      && (r.value.Some? ==> exists i :: 0 <= i < |policies| && policies[i] == r.value.value && Matches(policies[i], signature, t, serviceType)
                                && forall j :: 0 <= j < i ==> !Matches(policies[j], signature, t, serviceType))
  {
    if |policies| > 0 {
      FirstMatchStep(policies, signature, policyType, serviceType, t);
      FirstMatchIsFirst(policies[1..], signature, policyType, serviceType, t);
      var r := FirstMatch(policies[1..], signature, policyType, serviceType);
      if !Matches(policies[0], signature, t, serviceType) && r.value.Some? {
        var i :| 0 <= i < |policies[1..]| && policies[1..][i] == r.value.value && Matches(policies[1..][i], signature, t, serviceType)
                 && forall j :: 0 <= j < i ==> !Matches(policies[1..][j], signature, t, serviceType);
        assert policies[i + 1] == r.value.value;
        forall j | 0 <= j < i + 1
          ensures !Matches(policies[j], signature, t, serviceType)
        {
          if j > 0 {
            assert policies[j] == policies[1..][j - 1];
          }
        }
      }
      if !Matches(policies[0], signature, t, serviceType) && r.value.None? {
        forall i | 0 <= i < |policies|
          ensures !Matches(policies[i], signature, t, serviceType)
        {
          if i > 0 {
            assert policies[i] == policies[1..][i - 1];
          }
        }
      }
    }
  }

  /** One step of the scan with a numeric policy type. */
  lemma FirstMatchStep(policies: seq<RangerPolicy>, signature: string, policyType: string, serviceType: string, t: int)
    requires ParseInt(policyType) == Success(t) && |policies| > 0
    ensures FirstMatch(policies, signature, policyType, serviceType)
         == if Matches(policies[0], signature, t, serviceType) then Success(Some(policies[0]))
            else FirstMatch(policies[1..], signature, policyType, serviceType)
  {
  }

  predicate Matches(p: RangerPolicy, signature: string, policyType: int, serviceType: string) {
    p.resourceSignature == signature && p.policyType == Some(policyType) && p.serviceType == Some(serviceType)
  }

  /** `fetchRangerPolicyByResources` after its paging loop. */
  method FetchRangerPolicyByResources(page: PageOracle<RangerPolicy>, ghost bound: nat, signature: string,
                                      policyType: string, serviceType: string) returns (r: Result<Option<RangerPolicy>>)
    requires |page(PAGE_SIZE * bound)| != PAGE_SIZE
    ensures exists n: nat :: FirstShortPage(page, n) && r == FirstMatch(Pages(page, n + 1), signature, policyType, serviceType)
  {
    var policies, n := FetchAllPages(page, bound);
    r := FirstMatch(policies, signature, policyType, serviceType);
  }

  // ---------------------------------------------------------------------
  // Guards

  /** `ensureNonAccessControlEntityType`. */
  function EnsureNonAccessControlEntityType(types: seq<string>): (r: Result<()>)
    ensures r.Failure? <==> exists i :: 0 <= i < |types| && types[i] in ACCESS_CONTROL_ENTITY_TYPES
    ensures r.Failure? ==> r.error == AccessControlMutationsNotAllowed
  {
    if exists i :: 0 <= i < |types| && types[i] in ACCESS_CONTROL_ENTITY_TYPES then Failure(AccessControlMutationsNotAllowed)
    else Success(())
  }

  /** `ensureNonAccessControlRelType`. */
  function EnsureNonAccessControlRelType(relType: Option<string>): (r: Result<()>)
    ensures r.Failure? <==> relType == Some(ACCESS_CONTROL_RELATION_TYPE)
    ensures r.Failure? ==> r.error == AccessControlMutationsNotAllowed
  {
    if relType == Some(ACCESS_CONTROL_RELATION_TYPE) then Failure(AccessControlMutationsNotAllowed) else Success(())
  }

  /** A batch passes the entity-type guard iff each of its parts does. */
  lemma EntityTypeGuardSplits(a: seq<string>, b: seq<string>)
    ensures EnsureNonAccessControlEntityType(a + b).Success?
        <==> (EnsureNonAccessControlEntityType(a).Success? && EnsureNonAccessControlEntityType(b).Success?)
  {
    if EnsureNonAccessControlEntityType(a).Failure? {
      var i :| 0 <= i < |a| && a[i] in ACCESS_CONTROL_ENTITY_TYPES;
      assert (a + b)[i] == a[i];
    }
    if EnsureNonAccessControlEntityType(b).Failure? {
      var i :| 0 <= i < |b| && b[i] in ACCESS_CONTROL_ENTITY_TYPES;
      assert (a + b)[|a| + i] == b[i];
    }
    if EnsureNonAccessControlEntityType(a + b).Failure? {
      var i :| 0 <= i < |a + b| && (a + b)[i] in ACCESS_CONTROL_ENTITY_TYPES;
      if i < |a| {
        assert a[i] == (a + b)[i];
      } else {
        assert b[i - |a|] == (a + b)[i];
      }
    }
  }
}
