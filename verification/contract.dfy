/** ContractPreProcessor: naming and versioning of data contracts, the
    status/certificate sync, and the JSON comparison that ignores the
    contract's status. JSON parsing, (de)serialisation of the contract, the
    entity comparator and the store are parameters. */
module ContractPreProcessor {
  import opened Wrappers
  import opened Text

  const CONTRACT_QUALIFIED_NAME_SUFFIX := "contract"
  const CONTRACT_ATTR_STATUS := "status"
  const QUALIFIED_NAME := "qualifiedName"

  /** `DataContract.STATUS`. */
  datatype Status = DRAFT | VERIFIED {
    function Name(): string {
      match this
      case DRAFT => "DRAFT"
      case VERIFIED => "VERIFIED"
    }
  }

  // ---------------------------------------------------------------------
  // Naming

  /** The contract's qualified name from the one in the payload: it must end
      in "/contract"; the dataset name is everything before its last '/'. */
  function ContractQualifiedName(payloadName: string, contractType: string): (r: Result<string>)
    ensures r.Failure? <==> !EndsWith(payloadName, "/" + CONTRACT_QUALIFIED_NAME_SUFFIX)
    ensures r.Failure? ==> r.error == BadRequest
    ensures r.Success? ==> EndsWith(r.value, "/" + contractType + "/" + CONTRACT_QUALIFIED_NAME_SUFFIX)
  {
    if !EndsWith(payloadName, "/" + CONTRACT_QUALIFIED_NAME_SUFFIX) then Failure(BadRequest) else
    Success(ContractName(DatasetName(payloadName), contractType))
  }

  /** `"<dataset>/<type>/contract"`. */
  function ContractName(datasetName: string, contractType: string): (r: string)
    ensures EndsWith(r, "/" + contractType + "/" + CONTRACT_QUALIFIED_NAME_SUFFIX)
  {
    var r := datasetName + "/" + contractType + "/" + CONTRACT_QUALIFIED_NAME_SUFFIX;
    assert r[|r| - |"/" + contractType + "/" + CONTRACT_QUALIFIED_NAME_SUFFIX|..] == "/" + contractType + "/" + CONTRACT_QUALIFIED_NAME_SUFFIX;
    r
  }

  /** The part of a "…/contract" name before its last '/'. */
  function DatasetName(payloadName: string): (r: string)
    requires EndsWith(payloadName, "/" + CONTRACT_QUALIFIED_NAME_SUFFIX)
    ensures |r| < |payloadName|
  {
    assert OccursAt(payloadName, "/", |payloadName| - 9);
    payloadName[..LastIndexOf(payloadName, "/")]
  }

  /** The dataset part of `"<dataset>/contract"` is the dataset name. */
  lemma DatasetNameOf(datasetName: string)
    ensures EndsWith(datasetName + "/contract", "/" + CONTRACT_QUALIFIED_NAME_SUFFIX)
    ensures DatasetName(datasetName + "/contract") == datasetName
  {
    var s := datasetName + "/contract";
    assert "/" + "contract" == "/contract";
    assert s == datasetName + "/" + "contract";
    assert "/"[1..] + "contract" == "contract";
    assert '/' !in "contract";
    LastIndexOfBeforeTail(datasetName, "/", "contract");
    assert s[|s| - 9..] == "/contract";
    assert s[..|datasetName|] == datasetName;
  }

  /** `"<dataset>/contract"` names the contract `"<dataset>/<type>/contract"`. */
  lemma ContractNameOfDataset(datasetName: string, contractType: string)
    ensures ContractQualifiedName(datasetName + "/contract", contractType)
         == Success(datasetName + "/" + contractType + "/contract")
  {
    DatasetNameOf(datasetName);
    assert ContractName(datasetName, contractType) == datasetName + "/" + contractType + "/contract";
  }

  // ---------------------------------------------------------------------
  // Status sync

  /** The certificate status attribute (absent is null) and the contract's
      status after `contractAttributeSync`. */
  datatype Synced = Synced(certificateStatus: Option<string>, status: Status)

  function StatusSync(certificateStatus: Option<string>, status: Status): (r: Synced)
    ensures certificateStatus == Some(status.Name()) ==> r == Synced(certificateStatus, status)
    ensures certificateStatus == Some("VERIFIED") || status == VERIFIED ==> r == Synced(Some("VERIFIED"), VERIFIED)
    ensures certificateStatus != Some("VERIFIED") && status != VERIFIED ==> r == Synced(Some("DRAFT"), DRAFT)
    ensures r.certificateStatus == Some(r.status.Name())
  {
    if certificateStatus == Some(status.Name()) then Synced(certificateStatus, status)
    else if certificateStatus == Some(VERIFIED.Name()) then Synced(certificateStatus, VERIFIED)
    else if status == VERIFIED then Synced(Some(VERIFIED.Name()), status)
    else Synced(Some(DRAFT.Name()), DRAFT)
  }

  /** Syncing an already synced pair changes nothing. */
  lemma StatusSyncIdempotent(certificateStatus: Option<string>, status: Status)
    ensures var s := StatusSync(certificateStatus, status);
      StatusSync(s.certificateStatus, s.status) == s
  {
  }

  // ---------------------------------------------------------------------
  // JSON comparison

  /** A parsed JSON tree, as far as the comparison needs it: objects with
      their fields, and every other node as an opaque value. */
  datatype Json = JObject(fields: map<string, Json>) | JValue(text: string)

  /** `isEqualContract`: parse both texts, drop the top-level "status" of
      each, compare the trees. A parse failure is JSON_ERROR; a text that is
      not a JSON object fails the `ObjectNode` cast. */
  function IsEqualContract(parse: string -> Option<Json>, first: string, second: string): (r: Result<bool>)
    ensures parse(first).None? || parse(second).None? ==> r == Failure(JsonError)
    ensures r.Success? ==> parse(first).Some? && parse(first).value.JObject? && parse(second).Some? && parse(second).value.JObject?
    ensures r.Success? ==>
      (r.value <==> parse(first).value.fields - {CONTRACT_ATTR_STATUS} == parse(second).value.fields - {CONTRACT_ATTR_STATUS})
  {
    match (parse(first), parse(second))
    case (None, _) => Failure(JsonError)
    case (_, None) => Failure(JsonError)
    case (Some(a), Some(b)) =>
      if !a.JObject? || !b.JObject? then Failure(ClassCast)
      else Success(a.fields - {CONTRACT_ATTR_STATUS} == b.fields - {CONTRACT_ATTR_STATUS})
  }

  /** Two contracts that differ only in their status compare equal. */
  lemma StatusIsIgnored(parse: string -> Option<Json>, first: string, second: string, a: map<string, Json>, s: Json)
    requires parse(first) == Some(JObject(a)) && parse(second) == Some(JObject(a[CONTRACT_ATTR_STATUS := s]))
    ensures IsEqualContract(parse, first, second) == Success(true)
  {
    assert a[CONTRACT_ATTR_STATUS := s] - {CONTRACT_ATTR_STATUS} == a - {CONTRACT_ATTR_STATUS};
  }

  /** `processUpdateContract`: an update may not change the contract text
      beyond its status. */
  function ProcessUpdateContract(parse: string -> Option<Json>, contract: string, storedContract: string): (r: Result<()>)
    ensures r.Success? <==> IsEqualContract(parse, contract, storedContract) == Success(true)
    ensures IsEqualContract(parse, contract, storedContract) == Success(false) ==> r == Failure(OperationNotSupported)
  {
    var same :- IsEqualContract(parse, contract, storedContract);
    if same then Success(()) else Failure(OperationNotSupported)
  }

  // ---------------------------------------------------------------------
  // Versioning

  /** `getDiffAttributes`: the differing attribute names, except
      qualifiedName, in the comparator's order. */
  function DiffAttributes(hasDifference: bool, diffNames: seq<string>): (r: seq<string>)
    ensures !hasDifference ==> r == []
    ensures hasDifference ==> forall a :: a in r <==> a in diffNames && a != QUALIFIED_NAME
    ensures |r| <= |diffNames|
  {
    if !hasDifference then [] else Without(diffNames, QUALIFIED_NAME)
  }

  function Without(names: seq<string>, drop: string): (r: seq<string>)
    ensures forall a :: a in r <==> a in names && a != drop
    ensures |r| <= |names|
  {
    if |names| == 0 then []
    else (if names[0] == drop then [] else [names[0]]) + Without(names[1..], drop)
  }

  /** The version a stored contract's qualified name carries: the text after
      its last "/V" (or after index 1 when there is none) as an `int`. */
  function VersionOf(qualifiedName: string): (r: Result<int>)
    ensures r.Success? ==> IsInt32(r.value)
  {
    var tail :- Substring(qualifiedName, LastIndexOf(qualifiedName, "/V") + 2);
    ParseInt(tail)
  }

  /** The versioned qualified name `"<contract>/V<n>"`. */
  function VersionedName(contractName: string, n: int): string {
    contractName + "/V" + IntToString(n)
  }

  /** Reading the version back from a versioned name gives the version. */
  lemma VersionRoundTrip(contractName: string, n: int)
    requires IsInt32(n)
    ensures VersionOf(VersionedName(contractName, n)) == Success(n)
  {
    var digits := IntToString(n);
    assert "/V"[1..] + digits == "V" + digits;
    LastIndexOfBeforeTail(contractName, "/V", digits);
    var s := VersionedName(contractName, n);
    assert s[|contractName| + 2..] == digits;
    ParseIntToString(n);
  }

  /** The version a create gets, decided from the current version (if any). */
  datatype VersionChoice =
    | Unchanged                                // nothing differs: the new vertex is removed
    | Version(number: int, previous: Option<string>, reuseGuid: Option<string>)

  /** The current (latest) stored version of the contract. */
  datatype CurrentVersion = CurrentVersion(guid: string, qualifiedName: string, contract: string)

  /** The choice's version is always an `int`. */
  function ChooseVersion(parse: string -> Option<Json>, contract: string, current: Option<CurrentVersion>,
                         diffAttributes: seq<string>): (r: Result<VersionChoice>)
    ensures current.None? ==> r == Success(Version(1, None, None))
    ensures r.Success? && r.value.Version? ==> IsInt32(r.value.number)
    ensures current.Some? && VersionOf(current.value.qualifiedName).Failure? ==> r.Failure?
    ensures current.Some? && VersionOf(current.value.qualifiedName).Success? && diffAttributes == [] ==> r == Success(Unchanged)
    ensures current.Some? && r.Success? && r.value.Version? ==>
      var n := VersionOf(current.value.qualifiedName).value;
      var same := IsEqualContract(parse, contract, current.value.contract);
      && same.Success?
      && (same.value ==> r.value == Version(n, None, Some(current.value.guid)))
      && (!same.value ==> r.value == Version(AddInt32(n, 1), Some(current.value.guid), None))
  {
    match current
    case None => Success(Version(1, None, None))
    case Some(cur) =>
      var n :- VersionOf(cur.qualifiedName);
      if diffAttributes == [] then Success(Unchanged)
      else
        var same :- IsEqualContract(parse, contract, cur.contract);
        if same then Success(Version(n, None, Some(cur.guid)))
        else Success(Version(AddInt32(n, 1), Some(cur.guid), None))
  }

  /** What `processCreateContract` reads and calls: the payload, the
      contract deserializer/serializer, the associated asset lookup (by
      dataset name and contract type), the
      authorizer, the current version and the comparator's difference. */
  datatype CreateInput = CreateInput(
    qualifiedName: string,
    contract: string,
    certificateStatus: Option<string>)

  /** A parsed contract: its type name and status. */
  datatype DataContract = DataContract(typeName: string, status: Status)

  /** The contract entity as `processCreateContract` leaves it. */
  datatype CreatedContract = CreatedContract(
    qualifiedName: string,
    version: int,
    contract: string,
    certificateStatus: Option<string>,
    assetGuid: string,
    previousVersion: Option<string>,
    reusedGuid: Option<string>,
    certified: bool)

  datatype CreateOutcome = Removed | Created(entity: CreatedContract)

  function ProcessCreateContract(
    input: CreateInput,
    deserialize: string -> Result<DataContract>,
    serialize: DataContract -> string,
    parse: string -> Option<Json>,
    associatedAsset: (string, string) -> Result<string>,
    authorized: bool,
    current: Option<CurrentVersion>,
    diffAttributes: seq<string>): (r: Result<CreateOutcome>)
    ensures !EndsWith(input.qualifiedName, "/contract") ==> r == Failure(BadRequest)
    ensures r.Success? ==> deserialize(input.contract).Success? && authorized
    ensures r.Success? && r.value.Created? ==>
      var e := r.value.entity;
      var c := deserialize(input.contract).value;
      var synced := StatusSync(input.certificateStatus, c.status);
      && ContractQualifiedName(input.qualifiedName, c.typeName).Success?
      && e.qualifiedName == VersionedName(ContractQualifiedName(input.qualifiedName, c.typeName).value, e.version)
      && e.contract == serialize(DataContract(c.typeName, synced.status))
      && associatedAsset(DatasetName(input.qualifiedName), c.typeName) == Success(e.assetGuid)
      && e.certificateStatus == synced.certificateStatus
      && (e.certified <==> synced.certificateStatus == Some("VERIFIED"))
      && (current.None? ==> e.version == 1 && e.previousVersion.None?)
      && IsInt32(e.version)
    ensures r.Success? && r.value.Created? ==>
      var e := r.value.entity;
      && ChooseVersion(parse, e.contract, current, diffAttributes) == Success(Version(e.version, e.previousVersion, e.reusedGuid))
    ensures r.Success? ==> (r.value.Removed? <==> current.Some? && diffAttributes == [])
  {
    if !EndsWith(input.qualifiedName, "/" + CONTRACT_QUALIFIED_NAME_SUFFIX) then Failure(BadRequest) else
    var c :- deserialize(input.contract);
    var datasetName := DatasetName(input.qualifiedName);
    var qualifiedName := ContractName(datasetName, c.typeName);
    var assetGuid :- associatedAsset(datasetName, c.typeName);
    :- Need(authorized, UnauthorizedAccess);
    var synced := StatusSync(input.certificateStatus, c.status);
    var contract := serialize(DataContract(c.typeName, synced.status));
    var choice :- ChooseVersion(parse, contract, current, diffAttributes);
    match choice
    case Unchanged => Success(Removed)
    case Version(n, previous, reuse) =>
      Success(Created(CreatedContract(
        VersionedName(qualifiedName, n), n, contract, synced.certificateStatus, assetGuid, previous, reuse,
        synced.certificateStatus == Some(VERIFIED.Name()))))
  }

  /** The version stamped on a created contract is the one its qualified
      name carries, so the next create reads it back. */
  lemma CreatedVersionReadable(
    input: CreateInput,
    deserialize: string -> Result<DataContract>,
    serialize: DataContract -> string,
    parse: string -> Option<Json>,
    associatedAsset: (string, string) -> Result<string>,
    authorized: bool,
    current: Option<CurrentVersion>,
    diffAttributes: seq<string>)
    ensures var r := ProcessCreateContract(input, deserialize, serialize, parse, associatedAsset, authorized, current, diffAttributes);
      r.Success? && r.value.Created? ==> VersionOf(r.value.entity.qualifiedName) == Success(r.value.entity.version)
  {
    var r := ProcessCreateContract(input, deserialize, serialize, parse, associatedAsset, authorized, current, diffAttributes);
    if r.Success? && r.value.Created? {
      var c := deserialize(input.contract).value;
      VersionRoundTrip(ContractQualifiedName(input.qualifiedName, c.typeName).value, r.value.entity.version);
    }
  }
}
