/** DataMeshAttrMigrationService: a data product keeps, besides its
    `outputPorts` / `inputPorts` relationships, a denormalised multi-valued
    property of the port guids. The migration adds the relationship guids
    to the property when the two disagree as multisets, once for output
    ports and once, independently, for input ports, and then commits. */
module DataMeshAttrMigration {
  import opened Wrappers

  /** One element of a port relationship list. */
  datatype RelatedObjectId = RelatedObjectId(guid: string)

  /** The product entity's port relationships (null when absent). */
  datatype ProductEntity = ProductEntity(outputPorts: Option<seq<RelatedObjectId>>, inputPorts: Option<seq<RelatedObjectId>>)

  /** The product vertex's stored guid properties, in insertion order. */
  datatype PortGuidAttrs = PortGuidAttrs(outputPortGuids: seq<string>, inputPortGuids: seq<string>)

  /** `getAssetGuids`: the guid of every element, in order; iterating a
      null list fails. */
  function AssetGuids(elements: Option<seq<RelatedObjectId>>): (r: Result<seq<string>>)
    ensures r.Failure? <==> elements.None?
    ensures r.Failure? ==> r.error == NullPointer
    ensures r.Success? ==> (|r.value| == |elements.value|
                            && forall i :: 0 <= i < |r.value| ==> r.value[i] == elements.value[i].guid)
  {
    if elements.None? then Failure(NullPointer) else
    Success(Guids(elements.value))
  }

  function Guids(elements: seq<RelatedObjectId>): (r: seq<string>)
    ensures |r| == |elements|
    ensures forall i :: 0 <= i < |r| ==> r[i] == elements[i].guid
  {
    if |elements| == 0 then [] else [elements[0].guid] + Guids(elements[1..])
  }

  /** `CollectionUtils.isEqualCollection`: the same elements with the same
      cardinalities, in any order. */
  predicate IsEqualCollection(a: seq<string>, b: seq<string>) {
    multiset(a) == multiset(b)
  }

  /** `addInternalAttr`: every current guid is added to the property, in
      order; an empty list adds nothing. */
  function AddInternalAttr(stored: seq<string>, currentGuids: seq<string>): (r: seq<string>)
    ensures |currentGuids| == 0 ==> r == stored
    ensures |r| == |stored| + |currentGuids| && r[..|stored|] == stored && r[|stored|..] == currentGuids
    ensures multiset(r) == multiset(stored) + multiset(currentGuids)
  {
    if |currentGuids| == 0 then stored else stored + currentGuids
  }

  /** One port attribute: rewritten iff it disagrees with the relationship. */
  function MigratePort(stored: seq<string>, relationGuids: seq<string>): (r: seq<string>)
    ensures IsEqualCollection(relationGuids, stored) ==> r == stored
    ensures !IsEqualCollection(relationGuids, stored) ==> r == AddInternalAttr(stored, relationGuids)
  {
    if IsEqualCollection(relationGuids, stored) then stored else AddInternalAttr(stored, relationGuids)
  }

  /** `migrateAttr`: both relationship lists are read before either
      property is touched; each property is migrated on its own. */
  function MigrateAttr(product: ProductEntity, attrs: PortGuidAttrs): (r: Result<PortGuidAttrs>)
    ensures r.Failure? <==> product.outputPorts.None? || product.inputPorts.None?
    ensures r.Failure? ==> r.error == NullPointer
    ensures r.Success? ==> (
      && r.value.outputPortGuids == MigratePort(attrs.outputPortGuids, Guids(product.outputPorts.value))
      && r.value.inputPortGuids == MigratePort(attrs.inputPortGuids, Guids(product.inputPorts.value)))
  {
    var outputPortGuids :- AssetGuids(product.outputPorts);
    var inputPortGuids :- AssetGuids(product.inputPorts);
    Success(PortGuidAttrs(MigratePort(attrs.outputPortGuids, outputPortGuids),
                          MigratePort(attrs.inputPortGuids, inputPortGuids)))
  }

  /** `migrateProduct`: the vertex lookup, the migration, then the commit;
      the first failure is rethrown and nothing after it happens. */
  function MigrateProduct(vertex: Option<PortGuidAttrs>, product: ProductEntity, commit: Outcome): (r: Result<PortGuidAttrs>)
    ensures vertex.None? ==> r == Failure(InstanceGuidNotFound)
    ensures vertex.Some? && MigrateAttr(product, vertex.value).Failure? ==> r == MigrateAttr(product, vertex.value)
    ensures vertex.Some? && MigrateAttr(product, vertex.value).Success? ==> (
      && (commit.Pass? ==> r == MigrateAttr(product, vertex.value))
      && (commit.Fail? ==> r == Failure(commit.error)))
  {
    if vertex.None? then Failure(InstanceGuidNotFound) else
    var migrated :- MigrateAttr(product, vertex.value);
    :- commit;
    Success(migrated)
  }

  /** The output-port property never depends on the input ports and the
      other way round. */
  lemma PortsIndependent(product: ProductEntity, other: ProductEntity, attrs: PortGuidAttrs)
    requires product.outputPorts == other.outputPorts
    requires product.inputPorts.Some? && other.inputPorts.Some?
    ensures MigrateAttr(product, attrs).Success? ==> MigrateAttr(product, attrs).value.outputPortGuids == MigrateAttr(other, attrs).value.outputPortGuids
  {
  }

  /** A product whose properties were never populated ends up with exactly
      its relationship guids, and migrating it again changes nothing. */
  lemma MigrationFromEmptyConverges(product: ProductEntity)
    requires product.outputPorts.Some? && product.inputPorts.Some?
    ensures var r := MigrateAttr(product, PortGuidAttrs([], []));
      && r.Success?
      && r.value == PortGuidAttrs(Guids(product.outputPorts.value), Guids(product.inputPorts.value))
      && MigrateAttr(product, r.value) == r
  {
  }

  /** Stored guids are never removed: a stale guid survives the migration,
      so a property holding one keeps disagreeing with its relationship. */
  lemma StaleGuidsKept(stored: seq<string>, relationGuids: seq<string>)
    ensures multiset(stored) <= multiset(MigratePort(stored, relationGuids))
    ensures forall g :: g in stored && g !in relationGuids
                        ==> !IsEqualCollection(relationGuids, MigratePort(stored, relationGuids))
  {
    forall g | g in stored && g !in relationGuids
      ensures !IsEqualCollection(relationGuids, MigratePort(stored, relationGuids))
    {
      assert g in multiset(MigratePort(stored, relationGuids));
      assert g !in multiset(relationGuids);
    }
  }
}
