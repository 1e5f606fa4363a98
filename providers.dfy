/** Guards over the HDF5 metadata model (src/h5web/providers/utils.ts): link,
    entity, shape and type predicates, the assertion helpers built on them,
    and the resolution of a link to its entity. */
module Providers {
  import opened Wrappers

  /** HDF5 object ids are strings. */
  type Id = string

  datatype LinkClass = Hard | Soft | External | Root

  datatype Collection = Groups | Datasets | Datatypes

  /** A link of the metadata tree. Hard and root links name an entity by
      collection and id; soft and external links name a path. */
  datatype Link =
    | HardLink(title: string, collection: Collection, id: Id)
    | RootLink(collection: Collection, id: Id)
    | SoftLink(title: string, h5path: string)
    | ExternalLink(title: string, file: string, h5path: string)
  {
    /** The link's `class` tag. */
    function Class(): LinkClass
    {
      match this
      case HardLink(_, _, _) => Hard
      case RootLink(_, _) => Root
      case SoftLink(_, _) => Soft
      case ExternalLink(_, _, _) => External
    }
  }

  datatype ShapeClass = Simple | Scalar | Null

  /** A dataspace: simple with its dimensions, scalar, or null. */
  datatype Shape = SimpleShape(dims: seq<nat>) | ScalarShape | NullShape
  {
    function Class(): ShapeClass
    {
      match this
      case SimpleShape(_) => Simple
      case ScalarShape => Scalar
      case NullShape => Null
    }
  }

  datatype TypeClass = Integer | Float | String | Array | VLen | Compound | Enum

  /** A dataset's type: a type object with its class, or the id (a string) of
      a committed datatype. */
  datatype TypeRef = TypeId(typeId: Id) | TypeObject(typeClass: TypeClass)

  /** An entity of the file, tagged with the collection it belongs to. */
  datatype Entity =
    | Group(collection: Collection, id: Id)
    | Dataset(collection: Collection, id: Id, shape: Shape, dtype: TypeRef)
    | Datatype(collection: Collection, id: Id, dtype: TypeRef)

  /** The collection tag agrees with the kind of entity. */
  predicate WellTagged(e: Entity)
  {
    && (e.Group? ==> e.collection == Groups)
    && (e.Dataset? ==> e.collection == Datasets)
    && (e.Datatype? ==> e.collection == Datatypes)
  }

  // ---------------------------------------------------------------------------
  // Link guards
  // ---------------------------------------------------------------------------

  /** `isHardLink`. */
  function IsHardLink(link: Link): (b: bool)
    ensures b <==> link.HardLink?
  {
    link.Class() == Hard
  }

  /** `isReachable`: hard and root links are reachable; soft and external
      links are not. Reachable links are exactly those that carry an entity's
      collection and id. */
  function IsReachable(link: Link): (b: bool)
    ensures b <==> link.HardLink? || link.RootLink?
    ensures IsHardLink(link) ==> b
    ensures b <==> link.Class() !in {Soft, External}
  {
    link.Class() == Hard || link.Class() == Root
  }

  // ---------------------------------------------------------------------------
  // Entity guards
  // ---------------------------------------------------------------------------

  /** `isDataset`: reads only the collection tag; on a well-tagged entity it
      recognises exactly the datasets. */
  function IsDataset(entity: Entity): (b: bool)
    ensures WellTagged(entity) ==> (b <==> entity.Dataset?)
  {
    entity.collection == Datasets
  }

  /** `isGroup`. */
  function IsGroup(entity: Entity): (b: bool)
    ensures WellTagged(entity) ==> (b <==> entity.Group?)
  {
    entity.collection == Groups
  }

  /** `isDatatype`. */
  function IsDatatype(entity: Entity): (b: bool)
    ensures WellTagged(entity) ==> (b <==> entity.Datatype?)
  {
    entity.collection == Datatypes
  }

  /** The three entity guards depend on the collection tag alone, so no entity
      passes two of them. */
  lemma EntityGuardsExclusive(e: Entity, f: Entity)
    requires e.collection == f.collection
    ensures IsDataset(e) == IsDataset(f) && IsGroup(e) == IsGroup(f) && IsDatatype(e) == IsDatatype(f)
    ensures !(IsDataset(e) && IsGroup(e)) && !(IsDataset(e) && IsDatatype(e)) && !(IsGroup(e) && IsDatatype(e))
    ensures IsDataset(e) || IsGroup(e) || IsDatatype(e)
  {
  }

  // ---------------------------------------------------------------------------
  // Shape and type guards on datasets
  // ---------------------------------------------------------------------------

  /** `hasSimpleShape`. */
  function HasSimpleShape(dataset: Entity): (b: bool)
    requires dataset.Dataset?
    ensures b <==> dataset.shape.SimpleShape?
  {
    dataset.shape.Class() == Simple
  }

  /** `hasScalarShape`; never true together with `hasSimpleShape`. */
  function HasScalarShape(dataset: Entity): (b: bool)
    requires dataset.Dataset?
    ensures b <==> dataset.shape.ScalarShape?
    ensures b ==> !HasSimpleShape(dataset)
  {
    dataset.shape.Class() == Scalar
  }

  /** `hasBaseType`: an integer, float or string type object. */
  function HasBaseType(dataset: Entity): (b: bool)
    requires dataset.Dataset?
    ensures b <==> dataset.dtype.TypeObject? && dataset.dtype.typeClass in {Integer, Float, String}
  {
    !dataset.dtype.TypeId? && dataset.dtype.typeClass in [Integer, Float, String]
  }

  /** `hasNumericType`: an integer or float type object. Numeric types are
      base types, and a type given by id is neither. */
  function HasNumericType(dataset: Entity): (b: bool)
    requires dataset.Dataset?
    ensures b <==> dataset.dtype.TypeObject? && dataset.dtype.typeClass in {Integer, Float}
    ensures b ==> HasBaseType(dataset)
    ensures dataset.dtype.TypeId? ==> !b && !HasBaseType(dataset)
  {
    !dataset.dtype.TypeId? && dataset.dtype.typeClass in [Integer, Float]
  }

  // ---------------------------------------------------------------------------
  // Assertion helpers
  // ---------------------------------------------------------------------------

  /** `assertDataset`: throws `message` exactly when `isDataset` fails. */
  function AssertDataset(entity: Entity, message: string := "Expected dataset"): (r: Outcome)
    ensures r.Pass? <==> IsDataset(entity)
    ensures r.Fail? ==> r.message == message
  {
    if !IsDataset(entity) then Fail(message) else Pass
  }

  /** `assertGroup`: throws `message` exactly when `isGroup` fails. */
  function AssertGroup(entity: Entity, message: string := "Expected group"): (r: Outcome)
    ensures r.Pass? <==> IsGroup(entity)
    ensures r.Fail? ==> r.message == message
  {
    if !IsGroup(entity) then Fail(message) else Pass
  }

  /** `assertNumericType`: throws exactly when `hasNumericType` fails. */
  function AssertNumericType(dataset: Entity): (r: Outcome)
    requires dataset.Dataset?
    ensures r.Pass? <==> HasNumericType(dataset)
    ensures r.Fail? ==> r.message == "Expected dataset to have numeric type"
  {
    if !HasNumericType(dataset) then Fail("Expected dataset to have numeric type") else Pass
  }

  /** `assertSimpleShape`: passes only for a simple shape with at least one
      dimension, with a distinct message for each failure. */
  function AssertSimpleShape(dataset: Entity): (r: Outcome)
    requires dataset.Dataset?
    ensures r.Pass? <==> dataset.shape.SimpleShape? && |dataset.shape.dims| > 0
    ensures !HasSimpleShape(dataset) ==> r == Fail("Expected dataset to have simple shape")
    ensures HasSimpleShape(dataset) && r.Fail? ==> r == Fail("Expected dataset with simple shape to have dimensions")
  {
    if !HasSimpleShape(dataset) then Fail("Expected dataset to have simple shape")
    else if |dataset.shape.dims| == 0 then Fail("Expected dataset with simple shape to have dimensions")
    else Pass
  }

  // ---------------------------------------------------------------------------
  // getEntity
  // ---------------------------------------------------------------------------

  /** The metadata: one dictionary of entities by id per collection; a
      collection may be absent. */
  type Metadata = map<Collection, map<Id, Entity>>

  /** `getEntity`: the entity a reachable link names, looked up as
      `metadata[collection][id]`; `undefined` for no link, an unreachable
      link, or a collection or id the metadata does not hold. */
  function GetEntity(link: Option<Link>, metadata: Metadata): (r: Option<Entity>)
    ensures r.Some? <==> link.Some? && IsReachable(link.value)
                         && link.value.collection in metadata
                         && link.value.id in metadata[link.value.collection]
    ensures r.Some? ==> r.value == metadata[link.value.collection][link.value.id]
    ensures r.Some? ==> r.value in metadata[link.value.collection].Values
  {
    if link.None? || !IsReachable(link.value) then None
    else
      var collection, id := link.value.collection, link.value.id;
      if collection in metadata && id in metadata[collection] then Some(metadata[collection][id])
      else None
  }

  /** Every entity is filed under its own collection and id, and tagged
      according to its kind. */
  predicate WellFiled(metadata: Metadata)
  {
    forall c, id :: c in metadata && id in metadata[c] ==>
      metadata[c][id].collection == c && metadata[c][id].id == id && WellTagged(metadata[c][id])
  }

  /** In well-filed metadata the entity `getEntity` finds is the one the link
      names, so a hard link into the datasets collection resolves to a
      dataset that `assertDataset` accepts. */
  lemma GetEntityNamesLinkTarget(link: Link, metadata: Metadata)
    requires WellFiled(metadata)
    ensures var r := GetEntity(Some(link), metadata);
            && (r.Some? ==> r.value.collection == link.collection && r.value.id == link.id)
            && (r.Some? && link.collection == Datasets ==> r.value.Dataset? && AssertDataset(r.value) == Pass)
            && (r.Some? && link.collection == Groups ==> r.value.Group? && AssertGroup(r.value) == Pass)
  {
    var r := GetEntity(Some(link), metadata);
    if r.Some? {
      assert r.value == metadata[link.collection][link.id];
    }
  }
}
