// The managed-object side of the mapping layer: `update(keyPath, value)`,
// which writes one stored field by the attribute registered for a key path.
// `decode()` is `Convertible.InitFrom` and `update(item)` is
// `Convertible.EncodeAttributes`.

module ManagedObject {
  import opened Wrappers
  import opened Values
  import opened Records
  import opened Attributes
  import opened Store
  import opened Convertible

  /** The field attribute registered for `key`, when the key path's type is the non-optional `V`. */
  predicate RequiredFieldAt(m: Mapping, key: Key)
  {
    && (exists a :: a in m.attributes && a.KeyPath() == key)
    && AttributeFor(m.attributes, key).Field? && AttributeFor(m.attributes, key).field.Required?
  }

  /** The field attribute registered for `key`, when the key path's type is `V?`. */
  predicate OptionalFieldAt(m: Mapping, key: Key)
  {
    && (exists a :: a in m.attributes && a.KeyPath() == key)
    && AttributeFor(m.attributes, key).Field? && AttributeFor(m.attributes, key).field.Optional?
  }

  /** A value written through a required attribute's codec decodes back through that attribute. */
  lemma UpdatedValueDecodes(f: FieldAttribute, entity: string, rec: Record, x: Scalar)
    requires f.Required? && WellFormedCodec(f.codec) && Typed(f.codec, x)
    ensures DecodeFieldValue(f, entity, SetPrimitiveValue(rec, f.name, Some(Encode(f.codec, x)))) == Success(ScalarValue(x))
  {
    RoundTrip(f.codec, x);
  }

  /** An optional value written through an optional attribute's codec decodes back, nil included. */
  lemma UpdatedOptionalDecodes(f: FieldAttribute, entity: string, rec: Record, x: Option<Scalar>)
    requires f.Optional? && WellFormedCodec(f.codec) && (x.Some? ==> Typed(f.codec, x.value))
    ensures DecodeFieldValue(f, entity, SetPrimitiveValue(rec, f.name, EncodeOptional(f.codec, x))) == Success(OptionalValue(x))
  {
    OptionalRoundTrip(f.codec, x);
  }

  /**
   * `update(keyPath, value)`: `self[primitiveValue: T.attribute(keyPath).name]
   * = value.encode()`. Only that stored field of record `h` changes; reading it
   * back through the attribute gives `x`, and every other field attribute
   * decodes as before.
   */
  method UpdateValue(ctx: Context, h: Handle, m: Mapping, key: Key, x: Scalar)
    requires ctx.Valid() && h in ctx.records
    requires WellFormed(m) && RequiredFieldAt(m, key) && Typed(AttributeFor(m.attributes, key).field.codec, x)
    modifies ctx
    ensures ctx.Valid()
    ensures ctx.model == old(ctx.model) && ctx.next == old(ctx.next) && ctx.committed == old(ctx.committed)
    ensures ctx.hasCoordinator == old(ctx.hasCoordinator)
    ensures var f := AttributeFor(m.attributes, key).field;
            ctx.records == old(ctx.records)[h := SetPrimitiveValue(old(ctx.records[h]), f.name, Some(Encode(f.codec, x)))]
    ensures DecodeFieldValue(AttributeFor(m.attributes, key).field, m.entityName, ctx.records[h]) == Success(ScalarValue(x))
    ensures forall b :: b in m.attributes && b.Field? && b.Name() != AttributeFor(m.attributes, key).Name() ==>
              DecodeFieldValue(b.field, m.entityName, ctx.records[h]) == DecodeFieldValue(b.field, m.entityName, old(ctx.records[h]))
  {
    var f := AttributeFor(m.attributes, key).field;
    var updated := SetPrimitiveValue(ctx.records[h], f.name, Some(Encode(f.codec, x)));
    UpdatedValueDecodes(f, m.entityName, ctx.records[h], x);
    ConsistentWithFields(ctx.records, ctx.model, ctx.next, h, updated);
    ctx.records := ctx.records[h := updated];
  }

  /** `update(keyPath, value)` for an optional key path: `value?.encode()`, nil clearing the field. */
  method UpdateOptionalValue(ctx: Context, h: Handle, m: Mapping, key: Key, x: Option<Scalar>)
    requires ctx.Valid() && h in ctx.records
    requires WellFormed(m) && OptionalFieldAt(m, key)
    requires x.Some? ==> Typed(AttributeFor(m.attributes, key).field.codec, x.value)
    modifies ctx
    ensures ctx.Valid()
    ensures ctx.model == old(ctx.model) && ctx.next == old(ctx.next) && ctx.committed == old(ctx.committed)
    ensures ctx.hasCoordinator == old(ctx.hasCoordinator)
    ensures var f := AttributeFor(m.attributes, key).field;
            ctx.records == old(ctx.records)[h := SetPrimitiveValue(old(ctx.records[h]), f.name, EncodeOptional(f.codec, x))]
    ensures DecodeFieldValue(AttributeFor(m.attributes, key).field, m.entityName, ctx.records[h]) == Success(OptionalValue(x))
    ensures forall b :: b in m.attributes && b.Field? && b.Name() != AttributeFor(m.attributes, key).Name() ==>
              DecodeFieldValue(b.field, m.entityName, ctx.records[h]) == DecodeFieldValue(b.field, m.entityName, old(ctx.records[h]))
  {
    var f := AttributeFor(m.attributes, key).field;
    var updated := SetPrimitiveValue(ctx.records[h], f.name, EncodeOptional(f.codec, x));
    UpdatedOptionalDecodes(f, m.entityName, ctx.records[h], x);
    ConsistentWithFields(ctx.records, ctx.model, ctx.next, h, updated);
    ctx.records := ctx.records[h := updated];
  }
}
