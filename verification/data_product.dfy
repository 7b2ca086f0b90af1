/** DataProductPreProcessor: on update, a data product either moves to
    another domain (its qualified name has the old domain's replaced by the
    new one) or stays, keeping its stored qualified name; a product name
    already taken in the target domain is refused. The parent domain is
    resolved once per preprocessor. The index search is an oracle. */
module DataProductPreProcessor {
  import opened Wrappers
  import opened Text
  import opened EntityMutations

  const DATA_DOMAIN_ENTITY_TYPE := "DataDomain"
  const DATA_PRODUCT_ENTITY_TYPE := "DataProduct"

  /** The parent domain's header: its qualified name and super domain's. */
  datatype DomainHeader = DomainHeader(qualifiedName: Option<string>, superDomainQualifiedName: Option<string>)

  /** The product's `parentDomain` relationship attribute. */
  datatype ObjectId = ObjectId(guid: Option<string>, uniqueQualifiedName: Option<string>)

  /** `setParent`: a preprocessor that already holds a parent keeps it;
      otherwise it is looked up by guid, else built from the unique
      qualified name, else stays unset (also when the attribute is absent). */
  function SetParent(current: Option<DomainHeader>, parentRef: Option<ObjectId>, lookup: string -> Result<DomainHeader>): (r: Result<Option<DomainHeader>>)
    ensures current.Some? ==> r == Success(current)
    ensures current.None? && parentRef.None? ==> r == Success(None)
    ensures current.None? && parentRef.Some? && NonEmpty(parentRef.value.guid) ==>
      r == (var d :- lookup(parentRef.value.guid.value); Success(Some(d)))
    ensures current.None? && parentRef.Some? && !NonEmpty(parentRef.value.guid) ==>
      r == Success(if NonEmpty(parentRef.value.uniqueQualifiedName)
                   then Some(DomainHeader(parentRef.value.uniqueQualifiedName, None)) else None)
  {
    if current.Some? then Success(current)
    else if parentRef.None? then Success(None)
    else
      var id := parentRef.value;
      if NonEmpty(id.guid) then
        var d :- lookup(id.guid.value);
        Success(Some(d))
      else if NonEmpty(id.uniqueQualifiedName) then Success(Some(DomainHeader(id.uniqueQualifiedName, None)))
      else Success(None)
  }

  /** Once set, the parent never changes for later entities. */
  lemma ParentSetOnce(current: Option<DomainHeader>, first: Option<ObjectId>, second: Option<ObjectId>, lookup: string -> Result<DomainHeader>)
    requires SetParent(current, first, lookup).Success? && SetParent(current, first, lookup).value.Some?
    ensures var p := SetParent(current, first, lookup).value;
      SetParent(p, second, lookup) == Success(p)
  {
  }

  // ---------------------------------------------------------------------
  // Duplicate names

  /** Where the duplicate search looks: in one domain, or among entities
      without a parent domain (`must_not exists parentDomainQualifiedName`). */
  datatype Scope = InDomain(domainQualifiedName: Option<string>) | WithoutParent

  /** The index query of `productExists`: ACTIVE entities of a type with
      the given name, in the given scope. */
  datatype NameQuery = NameQuery(typeName: string, name: string, scope: Scope)

  /** A header the search returns. */
  datatype Found = Found(name: Option<string>)

  type IndexSearch = NameQuery -> seq<Found>

  /** The query for a name, searching entities of `typeName`. */
  function NameQueryFor(typeName: string, name: string, domainQualifiedName: Option<string>, hasParent: bool): (q: NameQuery)
    ensures q.typeName == typeName && q.name == name
    ensures q.scope.WithoutParent? <==> !hasParent
    ensures hasParent ==> q.scope == InDomain(domainQualifiedName)
  {
    NameQuery(typeName, name, if hasParent then InDomain(domainQualifiedName) else WithoutParent)
  }

  /** The name check over the returned headers: BAD_REQUEST iff one of them
      has exactly that name. */
  function NameTaken(typeName: string, search: IndexSearch, name: string, domainQualifiedName: Option<string>, hasParent: bool): (r: Result<()>)
    ensures var found := search(NameQueryFor(typeName, name, domainQualifiedName, hasParent));
      r.Failure? <==> exists i :: 0 <= i < |found| && found[i].name == Some(name)
    ensures r.Failure? ==> r.error == BadRequest
  {
    var found := search(NameQueryFor(typeName, name, domainQualifiedName, hasParent));
    if exists i :: 0 <= i < |found| && found[i].name == Some(name) then Failure(BadRequest) else Success(())
  }

  /** As written: `productExists` queries the domain type, so it refuses a
      name iff a returned DataDomain header carries it. */
  function ProductExistsAsWritten(search: IndexSearch, name: string, domainQualifiedName: Option<string>, hasParent: bool): (r: Result<()>)
    ensures var found := search(NameQuery(DATA_DOMAIN_ENTITY_TYPE, name, if hasParent then InDomain(domainQualifiedName) else WithoutParent));
      r.Failure? <==> exists i :: 0 <= i < |found| && found[i].name == Some(name)
    ensures r.Failure? ==> r.error == BadRequest
  {
    NameTaken(DATA_DOMAIN_ENTITY_TYPE, search, name, domainQualifiedName, hasParent)
  }

  /** `productExists` querying the product type: it refuses a name iff a
      returned DataProduct header carries it. */
  function ProductExists(search: IndexSearch, name: string, domainQualifiedName: Option<string>, hasParent: bool): (r: Result<()>)
    ensures var found := search(NameQuery(DATA_PRODUCT_ENTITY_TYPE, name, if hasParent then InDomain(domainQualifiedName) else WithoutParent));
      r.Failure? <==> exists i :: 0 <= i < |found| && found[i].name == Some(name)
    ensures r.Failure? ==> r.error == BadRequest
  {
    NameTaken(DATA_PRODUCT_ENTITY_TYPE, search, name, domainQualifiedName, hasParent)
  }

  /** Which duplicate check the preprocessor runs: the code as written,
      which searches domains, or the corrected one, which searches
      products. */
  datatype CheckVariant = AsWritten | Corrected

  function ProductCheck(variant: CheckVariant, search: IndexSearch, hasParent: bool): (string, Option<string>) -> Result<()> {
    (n: string, d: Option<string>) =>
      if variant == AsWritten then ProductExistsAsWritten(search, n, d, hasParent) else ProductExists(search, n, d, hasParent)
  }

  /** An indexed entity, for a search that answers queries faithfully. */
  datatype Indexed = Indexed(typeName: string, active: bool, name: Option<string>, parentDomainQualifiedName: Option<string>)

  predicate Matches(q: NameQuery, e: Indexed) {
    && e.typeName == q.typeName && e.active && e.name == Some(q.name)
    && match q.scope
       case InDomain(d) => e.parentDomainQualifiedName == d
       case WithoutParent => e.parentDomainQualifiedName.None?
  }

  /** The entities of the index that match a query, in index order. */
  function Answer(index: seq<Indexed>, q: NameQuery): (r: seq<Found>)
    ensures forall f :: f in r <==> exists e :: e in index && Matches(q, e) && f == Found(e.name)
  {
    if |index| == 0 then []
    else (if Matches(q, index[0]) then [Found(index[0].name)] else []) + Answer(index[1..], q)
  }

  /** Over a faithful index, the product check refuses a name iff an ACTIVE
      product of that name already sits in the target domain. */
  lemma ProductExistsIffDuplicate(index: seq<Indexed>, name: string, domainQualifiedName: Option<string>)
    ensures ProductExists(q => Answer(index, q), name, domainQualifiedName, true).Failure?
        <==> exists e :: e in index && e.typeName == DATA_PRODUCT_ENTITY_TYPE && e.active && e.name == Some(name)
                         && e.parentDomainQualifiedName == domainQualifiedName
  {
    var q := NameQueryFor(DATA_PRODUCT_ENTITY_TYPE, name, domainQualifiedName, true);
    var found := Answer(index, q);
    var search: IndexSearch := q => Answer(index, q);
    assert search(q) == found;
    assert ProductExists(search, name, domainQualifiedName, true).Failure?
        <==> exists i :: 0 <= i < |found| && found[i].name == Some(name);
    if exists e :: e in index && e.typeName == DATA_PRODUCT_ENTITY_TYPE && e.active && e.name == Some(name)
                   && e.parentDomainQualifiedName == domainQualifiedName {
      var e :| e in index && e.typeName == DATA_PRODUCT_ENTITY_TYPE && e.active && e.name == Some(name)
               && e.parentDomainQualifiedName == domainQualifiedName;
      assert Matches(q, e);
      assert Found(e.name) in found;
      var i :| 0 <= i < |found| && found[i] == Found(e.name);
    }
    if exists i :: 0 <= i < |found| && found[i].name == Some(name) {
      var i :| 0 <= i < |found| && found[i].name == Some(name);
      assert found[i] in found;
      var e :| e in index && Matches(q, e) && found[i] == Found(e.name);
      assert e.typeName == DATA_PRODUCT_ENTITY_TYPE && e.parentDomainQualifiedName == domainQualifiedName;
    }
  }

  /** As written, a product with a name already taken by a product of the
      target domain passes the check: the query only finds domains. */
  lemma DuplicateProductPassesAsWritten()
    ensures var index := [Indexed(DATA_PRODUCT_ENTITY_TYPE, true, Some("Sales"), Some("default/domain/d1"))];
      && ProductExistsAsWritten(q => Answer(index, q), "Sales", Some("default/domain/d1"), true) == Success(())
      && ProductExists(q => Answer(index, q), "Sales", Some("default/domain/d1"), true) == Failure(BadRequest)
  {
    var index := [Indexed(DATA_PRODUCT_ENTITY_TYPE, true, Some("Sales"), Some("default/domain/d1"))];
    assert Answer(index, NameQueryFor(DATA_DOMAIN_ENTITY_TYPE, "Sales", Some("default/domain/d1"), true)) == [];
    ProductExistsIffDuplicate(index, "Sales", Some("default/domain/d1"));
    assert index[0] in index;
  }

  /** The same index at the entry point: as written, moving a second
      product "Sales" into domain d1 goes through. */
  lemma DuplicateMoveAcceptedAsWritten()
    ensures var index := [Indexed(DATA_PRODUCT_ENTITY_TYPE, true, Some("Sales"), Some("default/domain/d1"))];
      var stored := StoredProduct("Sales", "default/domain/d0/product/Sales", Some("default/domain/d0"));
      var parent := DomainHeader(Some("default/domain/d1"), None);
      ProcessAttributes(AsWritten, UPDATE, q => Answer(index, q), Some("Sales"), stored, Some(parent), None,
                        _ => Failure(NullPointer), true).Success?
  {
    var index := [Indexed(DATA_PRODUCT_ENTITY_TYPE, true, Some("Sales"), Some("default/domain/d1"))];
    var search: IndexSearch := q => Answer(index, q);
    assert Answer(index, NameQueryFor(DATA_DOMAIN_ENTITY_TYPE, "Sales", Some("default/domain/d1"), true)) == [];
    assert ProductCheck(AsWritten, search, true)("Sales", Some("default/domain/d1")) == Success(());
  }

  // ---------------------------------------------------------------------
  // Update

  /** The attributes an update sets. */
  datatype ProductUpdate =
    | Moved(qualifiedName: string, parentDomainQualifiedName: string, superDomainQualifiedName: Option<string>)
    | Stayed(qualifiedName: string)

  /** The stored product: its name, qualified name and current domain's
      qualified name (absent when the stored relation is missing). */
  datatype StoredProduct = StoredProduct(name: string, qualifiedName: string, currentDomainQualifiedName: Option<string>)

  /** `processUpdateDomain` with the name check `duplicateCheck`. */
  function ProcessUpdateDomain(duplicateCheck: (string, Option<string>) -> Result<()>, name: Option<string>, stored: StoredProduct,
                               parent: Option<DomainHeader>, authorized: bool): (r: Result<ProductUpdate>)
    ensures stored.currentDomainQualifiedName.None? || parent.None? ==> r == Failure(NullPointer)
    ensures r.Success? && r.value.Moved? ==>
      && stored.currentDomainQualifiedName.Some? && parent.Some?
      && parent.value.qualifiedName == Some(r.value.parentDomainQualifiedName)
      && stored.currentDomainQualifiedName.value != r.value.parentDomainQualifiedName
      && r.value.qualifiedName == Replace(stored.qualifiedName, stored.currentDomainQualifiedName.value, r.value.parentDomainQualifiedName)
      && r.value.superDomainQualifiedName == parent.value.superDomainQualifiedName
      && authorized
    ensures r.Success? && r.value.Stayed? ==>
      && r.value.qualifiedName == stored.qualifiedName
      && parent.Some? && parent.value.qualifiedName == stored.currentDomainQualifiedName
    ensures stored.currentDomainQualifiedName.Some? && parent.Some?
            && parent.value.qualifiedName == stored.currentDomainQualifiedName && name == Some(stored.name)
            ==> r == Success(Stayed(stored.qualifiedName))
    ensures r.Success? && r.value.Moved? ==>
      parent.Some? && name.Some? && duplicateCheck(name.value, parent.value.qualifiedName).Success?
    ensures r.Success? && r.value.Stayed? && name != Some(stored.name) ==>
      parent.Some? && name.Some? && duplicateCheck(name.value, parent.value.qualifiedName).Success?
    ensures stored.currentDomainQualifiedName.Some? && parent.Some? && name.Some?
            && (Some(stored.currentDomainQualifiedName.value) != parent.value.qualifiedName ==> authorized)
            && (Some(stored.currentDomainQualifiedName.value) == parent.value.qualifiedName ==> name.value != stored.name)
            && duplicateCheck(name.value, parent.value.qualifiedName).Failure?
            ==> r == Failure(duplicateCheck(name.value, parent.value.qualifiedName).error)
  {
    if stored.currentDomainQualifiedName.None? || parent.None? then Failure(NullPointer) else
    var source := stored.currentDomainQualifiedName.value;
    var target := parent.value.qualifiedName;
    if Some(source) != target then
      :- Need(authorized, UnauthorizedAccess);
      :- Need(name.Some?, NullPointer);
      var _ :- duplicateCheck(name.value, target);
      :- Need(target.Some?, NullPointer);
      Success(Moved(Replace(stored.qualifiedName, source, target.value), target.value, parent.value.superDomainQualifiedName))
    else
      var _ :- if Some(stored.name) != name then (if name.None? then Failure(NullPointer) else duplicateCheck(name.value, target)) else Success(());
      Success(Stayed(stored.qualifiedName))
  }

  /** A product whose qualified name is the source domain's followed by a
      suffix that does not repeat it moves to the target domain's followed
      by the same suffix. */
  lemma MovedKeepsSuffix(source: string, target: string, suffix: string)
    requires source != "" && !Contains(suffix, source)
    ensures Replace(source + suffix, source, target) == target + suffix
  {
    ReplaceLeading(source, suffix, target);
    ReplaceAbsent(suffix, source, target);
  }

  /** `processAttributes`: the parent first; only UPDATE changes the
      entity, through `processUpdateDomain` with the duplicate check the
      variant selects. */
  function ProcessAttributes(variant: CheckVariant, op: EntityOperation, search: IndexSearch, name: Option<string>, stored: StoredProduct,
                             current: Option<DomainHeader>, parentRef: Option<ObjectId>,
                             lookup: string -> Result<DomainHeader>, authorized: bool): (r: Result<(Option<DomainHeader>, Option<ProductUpdate>)>)
    ensures SetParent(current, parentRef, lookup).Failure? ==> r.Failure?
    ensures r.Success? ==> r.value.0 == SetParent(current, parentRef, lookup).value
    ensures op != UPDATE ==> (r.Success? <==> SetParent(current, parentRef, lookup).Success?)
    ensures r.Success? && op != UPDATE ==> r.value.1.None?
    ensures op == UPDATE && SetParent(current, parentRef, lookup).Success? ==>
      var parent := SetParent(current, parentRef, lookup).value;
      var u := ProcessUpdateDomain(ProductCheck(variant, search, parent.Some?), name, stored, parent, authorized);
      && (r.Success? <==> u.Success?)
      && (r.Success? ==> r.value.1 == Some(u.value))
      && (r.Failure? ==> r.error == u.error)
  {
    var parent :- SetParent(current, parentRef, lookup);
    if op == UPDATE then
      var update :- ProcessUpdateDomain(ProductCheck(variant, search, parent.Some?), name, stored, parent, authorized);
      Success((parent, Some(update)))
    else Success((parent, None))
  }

  /** Over a faithful index, an authorised update with the corrected check
      that moves a product into a domain, or renames it in place, is refused
      iff an ACTIVE product of that domain already has the name. */
  lemma UpdateRefusesTakenName(index: seq<Indexed>, name: string, stored: StoredProduct, parent: DomainHeader,
                               parentRef: Option<ObjectId>, lookup: string -> Result<DomainHeader>, authorized: bool)
    requires stored.currentDomainQualifiedName.Some? && parent.qualifiedName.Some?
    requires stored.currentDomainQualifiedName != parent.qualifiedName ==> authorized
    requires stored.currentDomainQualifiedName == parent.qualifiedName ==> name != stored.name
    ensures var r := ProcessAttributes(Corrected, UPDATE, q => Answer(index, q), Some(name), stored, Some(parent), parentRef, lookup, authorized);
      && (r.Failure? <==> exists e :: e in index && e.typeName == DATA_PRODUCT_ENTITY_TYPE && e.active && e.name == Some(name)
                                    && e.parentDomainQualifiedName == parent.qualifiedName)
      && (r.Failure? ==> r.error == BadRequest)
  {
    var search: IndexSearch := q => Answer(index, q);
    var check := ProductCheck(Corrected, search, true);
    assert check(name, parent.qualifiedName) == ProductExists(search, name, parent.qualifiedName, true);
    ProductExistsIffDuplicate(index, name, parent.qualifiedName);
  }
}
