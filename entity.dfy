/**
 * The domain type of the repository's test suite (Entity.swift): records of
 * `CDEntity` with a required string `id`, a required integer `index` and an
 * optional string `name`. For a type like this one, whose attributes are all
 * fields, the whole-object round trip is exact.
 */
module SampleEntity {
  import opened Wrappers
  import opened Values
  import opened Records
  import opened Attributes
  import opened Convertible

  const IdAttribute: Attribute := Field(Required("id", "id", Identity(StringType)))
  const IndexAttribute: Attribute := Field(Required("index", "index", Identity(IntType)))
  const NameAttribute: Attribute := Field(Optional("name", "name", Identity(StringType)))

  /** `Entity()`: an empty id, index 0 and no name. */
  const Defaults: Plain :=
    Plain(map["id" := ScalarValue(PrimScalar(StringPrim(""))),
              "index" := ScalarValue(PrimScalar(IntPrim(0))),
              "name" := OptionalValue(None)])

  /** The mapping of `Entity`: its entity name, identity key path, default value and attribute set. */
  function EntityMapping(): (m: Mapping)
    ensures WellFormed(m) && DistinctKeys(m.attributes)
    ensures forall a :: a in m.attributes ==> a.Field?
    ensures m.defaults.fields.Keys == {"id", "index", "name"}
    ensures (set a | a in m.attributes :: a.KeyPath()) == {"id", "index", "name"}
  {
    var m := Mapping("CDEntity", "id", Defaults, [IdAttribute, IndexAttribute, NameAttribute]);
    assert IdAttribute in m.attributes;
    assert forall a :: a in m.attributes <==> a == IdAttribute || a == IndexAttribute || a == NameAttribute;
    ghost var keys := set a | a in m.attributes :: a.KeyPath();
    assert IdAttribute.KeyPath() in keys && IndexAttribute.KeyPath() in keys && NameAttribute.KeyPath() in keys;
    assert keys == {"id", "index", "name"};
    m
  }

  /**
   * Once `encodeAttributes` has written an entity into a record, `init(from:)`
   * on that record gives back exactly that entity.
   */
  lemma EntityRoundTrip(p: Plain, records: map<Handle, Record>, owner: Handle)
    requires Conforms(EntityMapping(), p) && p.fields.Keys == {"id", "index", "name"} && owner in records
    requires EncodedBefore(EntityMapping(), p, records, owner, |EntityMapping().attributes|)
    ensures DecodeAll("CDEntity", EntityMapping().attributes, records, records[owner], Defaults) == Success(p)
  {
    FieldTypeRoundTrip(EntityMapping(), p, records, owner);
  }
}
