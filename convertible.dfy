/**
 * The mapping of a whole domain type (ManagedObjectConvertible+Attributes.swift):
 * `attribute(_:)`, `encodeAttributes(to:)`, which applies every attribute's
 * encode closure to one record in turn, and `init(from:)`, which applies every
 * decode closure to the default value. Also the to-one encode closure of
 * Attribute.swift, as written and as evidently intended.
 */
module Convertible {
  import opened Wrappers
  import opened Values
  import opened Records
  import opened Attributes
  import opened Store
  import opened Relations
  import opened OrderedRelations

  // ---- attribute(_:) ----

  /** The position of the first attribute registered for the key path. */
  function AttributeIndex(attrs: seq<Attribute>, key: Key): (i: nat)
    requires exists a :: a in attrs && a.KeyPath() == key
    ensures i < |attrs| && attrs[i].KeyPath() == key
    ensures forall j :: 0 <= j < i ==> attrs[j].KeyPath() != key
  {
    if attrs[0].KeyPath() == key then 0
    else
      assert exists a :: a in attrs[1..] && a.KeyPath() == key by {
        var a :| a in attrs && a.KeyPath() == key;
        assert a != attrs[0];
        assert a in attrs[1..];
      }
      AttributeIndex(attrs[1..], key) + 1
  }

  /**
   * `attribute(keyPath)`: the attribute registered for the key path. It must
   * exist (`unsafelyUnwrapped`); with several, the first in the set's order.
   */
  function AttributeFor(attrs: seq<Attribute>, key: Key): (a: Attribute)
    requires exists a :: a in attrs && a.KeyPath() == key
    ensures a in attrs && a.KeyPath() == key
  {
    attrs[AttributeIndex(attrs, key)]
  }

  /** No two attributes share a key path. */
  predicate DistinctKeys(attrs: seq<Attribute>) {
    forall i, j :: 0 <= i < j < |attrs| ==> attrs[i].KeyPath() != attrs[j].KeyPath()
  }

  /** The key paths of a sequence of attributes. */
  function KeyPaths(attrs: seq<Attribute>): set<Key>
    decreases |attrs|
  {
    if |attrs| == 0 then {} else {attrs[0].KeyPath()} + KeyPaths(attrs[1..])
  }

  /** `KeyPaths` is the set of the attributes' key paths. */
  lemma {:induction false} KeyPathsAre(attrs: seq<Attribute>)
    ensures KeyPaths(attrs) == set a | a in attrs :: a.KeyPath()
    decreases |attrs|
  {
    if |attrs| > 0 {
      KeyPathsAre(attrs[1..]);
      assert attrs == [attrs[0]] + attrs[1..];
      assert forall a :: a in attrs <==> a == attrs[0] || a in attrs[1..];
    }
  }

  /** With one attribute per key path, `attribute(_:)` finds exactly that one. */
  lemma AttributeForUnique(attrs: seq<Attribute>, a: Attribute)
    requires DistinctKeys(attrs) && a in attrs
    ensures AttributeFor(attrs, a.KeyPath()) == a
  {
    var i :| 0 <= i < |attrs| && attrs[i] == a;
    var k := AttributeIndex(attrs, a.KeyPath());
    assert attrs[k].KeyPath() == attrs[i].KeyPath();
  }

  // ---- the to-one encode closure ----

  /**
   * The to-one encode closure as written: the related object's
   * `encodeAttributes(to: managedObject)` writes its attributes onto the
   * owner's own record and leaves the relationship as it was.
   */
  function EncodeToOneAsWritten(target: FlatMapping, o: Plain, r: Record): (r': Record)
    requires WellFormedFlat(target) && FlatConforms(target, o)
    ensures r'.entity == r.entity && r'.links == r.links
    ensures Holds(target, o, r')
  {
    EncodeFlatHolds(target, o, r);
    EncodeFlat(target, o, r)
  }

  /**
   * What the as-written closure leads to: an owner whose relationship is not
   * already set (a newly inserted record, say) still fails to decode the
   * attribute after the encode, with `failedToDecode(name, entity)`.
   */
  lemma ToOneAsWrittenLosesRelation(key: Key, name: string, entity: string, target: FlatMapping, o: Plain,
                                    records: map<Handle, Record>, r: Record)
    requires WellFormedFlat(target) && FlatConforms(target, o)
    requires !LinksRecord(r, name, records)
    ensures DecodeAttributeValue(ToOne(key, name, target), entity, records, EncodeToOneAsWritten(target, o, r))
              == Failure(FailedToDecode(name, entity))
  {
  }

  /** The same, on the record `insert(entity:)` creates for an entity with a to-one relationship `name`. */
  lemma ToOneAsWrittenFresh(key: Key, name: string, entity: string, desc: EntityDescription, target: FlatMapping, o: Plain,
                            records: map<Handle, Record>)
    requires WellFormedFlat(target) && FlatConforms(target, o)
    requires name in desc && desc[name].kind == ToOneKind
    ensures DecodeAttributeValue(ToOne(key, name, target), entity, records, EncodeToOneAsWritten(target, o, NewRecord(entity, desc)))
              == Failure(FailedToDecode(name, entity))
  {
    var r := NewRecord(entity, desc);
    assert r.links[name] == ToOneLink(None);
    ToOneAsWrittenLosesRelation(key, name, entity, target, o, records, r);
  }

  /**
   * The to-one encode closure as evidently intended, following the to-many
   * closures: the current target if it decodes with the object's identity,
   * else a stored record with that identity, else a new record; the
   * relationship is set to it and it is updated with the object. A current
   * target that fails to decode rethrows its error; no record at all fails
   * with `failedToEncodeRelation`; a failure changes nothing.
   */
  method EncodeToOne(ctx: Context, owner: Handle, entity: string, name: string, target: FlatMapping, o: Plain)
    returns (r: Outcome<AttributeError>, ghost k: Handle)
    requires ctx.Valid() && Ready(ctx, owner, name, ToOneKind, target) && FlatConforms(target, o)
    modifies ctx
    ensures ctx.Valid() && Ready(ctx, owner, name, ToOneKind, target)
    ensures ctx.model == old(ctx.model) && ctx.hasCoordinator == old(ctx.hasCoordinator) && ctx.committed == old(ctx.committed)
    ensures old(ctx.next) <= ctx.next && old(ctx.records).Keys <= ctx.records.Keys
    ensures r.Fail? ==> ctx.records == old(ctx.records)
    ensures r.Fail? ==> FailureExplained(r.error, name, entity, target, old(ctx.records), Linked(old(ctx.records[owner].links[name])),
                                         CanCreate(ctx.hasCoordinator, ctx.model, target))
    ensures r.Pass? ==> ctx.records[owner] == old(ctx.records[owner]).(links := old(ctx.records[owner].links)[name := ToOneLink(Some(k))])
    ensures r.Pass? ==> k != owner && k in ctx.records && ctx.records[k].entity == target.entityName && Holds(target, o, ctx.records[k])
    ensures r.Pass? ==> ctx.records - {owner, k} == old(ctx.records) - {owner, k}
    ensures r.Pass? && k in old(ctx.records) ==> old(ctx.records)[k].entity == target.entityName
    ensures r.Pass? && k in old(ctx.records) ==>
              IsFor(target, old(ctx.records), k, o) || k in Matching(old(ctx.records), ObjectIdRequest(target, o))
    ensures r.Pass? && old(ctx.records[owner].links[name].target).Some? &&
            IsFor(target, old(ctx.records), old(ctx.records[owner].links[name].target).value, o) ==>
              k == old(ctx.records[owner].links[name].target).value
  {
    var link := ctx.records[owner].links[name];
    LinkedRecords(ctx.records, ctx.model, ctx.next, owner, name);
    var es := if link.target.Some? then [link.target.value] else [];
    assert forall i :: 0 <= i < |es| ==> es[i] in Linked(link);
    var l := FindElement(target, ctx.records, es, o);
    if l.Failed? {
      return Fail(l.error), owner;
    }
    ghost var before := ctx.records;
    var m := Locate(ctx, owner, entity, name, ToOneKind, target, o, l);
    if m.Failure? {
      return Fail(m.error), owner;
    }
    var managed := m.value;
    k := managed;
    ghost var located := ctx.records;
    SetLink(ctx, owner, name, ToOneLink(Some(managed)));
    UpdateRelated(ctx, managed, target, o);
    OthersUnchanged(before, located, ctx.records, owner, k, ctx.records[owner], ctx.records[k]);
    r := Pass;
  }

  /**
   * The partner of the corrected to-one encode: a relationship set to a record
   * that holds the object decodes to a value agreeing with it on every
   * attribute.
   */
  lemma ToOneRoundTrip(key: Key, name: string, entity: string, target: FlatMapping, o: Plain,
                       records: map<Handle, Record>, rec: Record, k: Handle)
    requires name in rec.links && rec.links[name] == ToOneLink(Some(k))
    requires k in records && Holds(target, o, records[k])
    ensures DecodeAttributeValue(ToOne(key, name, target), entity, records, rec).Success?
    ensures DecodeAttributeValue(ToOne(key, name, target), entity, records, rec).value.OneValue?
    ensures Agrees(target, DecodeAttributeValue(ToOne(key, name, target), entity, records, rec).value.related, o)
  {
    HoldsDecodes(target, o, records[k]);
  }

  // ---- which records an attribute's encode may change ----

  /**
   * Between `r0` and `r`: no record disappeared, and every record other than
   * the owner that is new or changed is, before and after, of one of `entities`.
   */
  ghost predicate Confined(r0: map<Handle, Record>, r: map<Handle, Record>, owner: Handle, entities: set<string>) {
    && r0.Keys <= r.Keys
    && forall t :: t in r && t != owner && (t in r0 ==> r0[t] != r[t]) ==>
         r[t].entity in entities && (t in r0 ==> r0[t].entity in entities)
  }

  lemma ConfinedTrans(r0: map<Handle, Record>, r1: map<Handle, Record>, r2: map<Handle, Record>, owner: Handle,
                      e1: set<string>, e2: set<string>)
    requires Confined(r0, r1, owner, e1) && Confined(r1, r2, owner, e2)
    ensures Confined(r0, r2, owner, e1 + e2)
  {
    forall t | t in r2 && t != owner && (t in r0 ==> r0[t] != r2[t])
      ensures r2[t].entity in e1 + e2 && (t in r0 ==> r0[t].entity in e1 + e2)
    {
      if t in r1 && (t in r0 ==> r0[t] != r1[t]) {
        assert r1[t].entity in e1;
      }
    }
  }

  /** The first pass of the to-many encode changes only the owner and records of the related entity. */
  lemma PlacementConfined(target: FlatMapping, objects: set<Plain>, r0: map<Handle, Record>, r: map<Handle, Record>,
                          owner: Handle, placed: map<Plain, Handle>, held: map<Handle, Plain>)
    requires Placement(target, objects, r0, r, owner, placed, held) && r0.Keys <= r.Keys
    ensures Confined(r0, r, owner, {target.entityName})
  {
    forall t | t in r && t != owner && (t in r0 ==> r0[t] != r[t])
      ensures r[t].entity in {target.entityName} && (t in r0 ==> r0[t].entity in {target.entityName})
    {
      if t !in held {
        FrameAt(r, r0, {owner} + held.Keys, t);
      }
    }
  }

  /** So does the first pass of the ordered encode. */
  lemma OrderedPlacementConfined(target: FlatMapping, objects: seq<Plain>, r0: map<Handle, Record>, r: map<Handle, Record>,
                                 owner: Handle, placed: seq<Handle>)
    requires OrderedPlacement(target, objects, r0, r, owner, placed) && r0.Keys <= r.Keys
    ensures Confined(r0, r, owner, {target.entityName})
  {
    forall t | t in r && t != owner && (t in r0 ==> r0[t] != r[t])
      ensures r[t].entity in {target.entityName} && (t in r0 ==> r0[t].entity in {target.entityName})
    {
      if t in placed {
        var j :| 0 <= j < |placed| && placed[j] == t;
      } else {
        FrameAt(r, r0, {owner} + Elements(placed), t);
      }
    }
  }

  /** Changing the owner and one record of an entity changes nothing else. */
  lemma OneConfined(r0: map<Handle, Record>, r: map<Handle, Record>, owner: Handle, k: Handle, entity: string)
    requires r - {owner, k} == r0 - {owner, k} && r0.Keys <= r.Keys
    requires k in r && r[k].entity == entity && (k in r0 ==> r0[k].entity == entity)
    ensures Confined(r0, r, owner, {entity})
  {
    forall t | t in r && t != owner && (t in r0 ==> r0[t] != r[t])
      ensures r[t].entity in {entity} && (t in r0 ==> r0[t].entity in {entity})
    {
      if t != k {
        FrameAt(r, r0, {owner, k}, t);
      }
    }
  }

  // ---- the encode closure of one attribute ----

  /** The relationship kind a relation attribute is declared with. */
  function KindFor(a: Attribute): LinkKind
    requires a.IsRelation()
  {
    match a
    case ToOne(_, _, _) => ToOneKind
    case ToMany(_, _, _) => ToManyKind
    case ToManyOrdered(_, _, _) => OrderedKind
  }

  /** The managed object model declares each relation attribute of the mapping, with its kind and destination. */
  predicate Declared(model: map<string, EntityDescription>, m: Mapping) {
    && m.entityName in model
    && forall a :: a in m.attributes && a.IsRelation() ==>
         a.name in model[m.entityName] && model[m.entityName][a.name] == RelationshipDescription(KindFor(a), a.target.entityName)
  }

  lemma AttributeReady(ctx: Context, owner: Handle, m: Mapping, a: Attribute)
    requires ctx.Valid() && owner in ctx.records && ctx.records[owner].entity == m.entityName
    requires WellFormed(m) && Declared(ctx.model, m) && a in m.attributes && a.IsRelation()
    ensures Ready(ctx, owner, a.name, KindFor(a), a.target)
  {
    DeclaredLink(ctx.records, ctx.model, ctx.next, owner, a.name);
  }

  /** The entity whose records an attribute's encode may change, besides the owner. */
  function TargetsOf(a: Attribute): set<string> {
    if a.Field? then {} else {a.target.entityName}
  }

  function Targets(attrs: seq<Attribute>): set<string> {
    set a | a in attrs && a.IsRelation() :: a.target.entityName
  }

  /** No other relation attribute of the set has the same related entity. */
  predicate UniqueTarget(attrs: seq<Attribute>, a: Attribute)
    requires a.IsRelation()
  {
    forall b :: b in attrs && b.IsRelation() && b != a ==> b.target.entityName != a.target.entityName
  }

  /** Record `t` is live, of the related entity, and holds `o`. */
  ghost predicate HeldAt(target: FlatMapping, o: Plain, records: map<Handle, Record>, t: Handle) {
    t in records && records[t].entity == target.entityName && Holds(target, o, records[t])
  }

  /**
   * The owner's record `rec` (and the records around it) carry the value of
   * attribute `a` in `p`: a field holds its encoding; a to-one relationship
   * points at a record holding the related object; a to-many relationship has,
   * for each object, a member holding it (when the objects' identities are
   * distinct); an ordered one begins with records holding the objects, in order.
   */
  ghost predicate Represented(a: Attribute, p: Plain, records: map<Handle, Record>, rec: Record)
    requires AttributeConforms(a, p) && (a.Field? ==> WellFormedCodec(a.field.codec))
  {
    match a
    case Field(f) => PrimitiveValue(rec, f.name) == FieldEncoding(f, p)
    case ToOne(key, name, target) =>
      LinksRecord(rec, name, records) && HeldAt(target, p.fields[key].related, records, rec.links[name].target.value)
    case ToMany(key, name, target) =>
      && name in rec.links && rec.links[name].ToManyLink?
      && (DistinctIds(target, p.fields[key].objects) ==>
            forall o :: o in p.fields[key].objects ==> exists t :: t in rec.links[name].members && HeldAt(target, o, records, t))
    case ToManyOrdered(key, name, target) =>
      && name in rec.links && rec.links[name].OrderedLink?
      && |p.fields[key].sequence| <= |rec.links[name].elements|
      && forall j :: 0 <= j < |p.fields[key].sequence| ==>
           HeldAt(target, p.fields[key].sequence[j], records, rec.links[name].elements[j])
  }

  /**
   * What `encodeAttributes` leaves of attribute `a`: its field always; a
   * relationship when no other relation attribute shares its related entity
   * (another one could update the same records afterwards).
   */
  ghost predicate Represents(m: Mapping, a: Attribute, p: Plain, records: map<Handle, Record>, rec: Record)
    requires WellFormed(m) && a in m.attributes && AttributeConforms(a, p)
  {
    (a.Field? || UniqueTarget(m.attributes, a)) ==> Represented(a, p, records, rec)
  }

  /** Attribute `a`'s encode changed the owner's record at `a`'s name only. */
  predicate Stepped(a: Attribute, rec0: Record, rec1: Record) {
    if a.Field? then rec1 == SetPrimitiveValue(rec0, a.field.name, PrimitiveValue(rec1, a.field.name))
    else a.name in rec1.links && rec1 == rec0.(links := rec0.links[a.name := rec1.links[a.name]])
  }

  /** The owner's record carries, at `a`'s name, what it did in `rec0`. */
  predicate Untouched(a: Attribute, rec0: Record, rec: Record) {
    if a.Field? then PrimitiveValue(rec, a.field.name) == PrimitiveValue(rec0, a.field.name)
    else a.name in rec0.links ==> a.name in rec.links && rec.links[a.name] == rec0.links[a.name]
  }

  /**
   * Why a relation attribute's encode fails: no record could be had, which
   * needs that no record of the related entity can be created, or a related
   * record failed to decode.
   */
  predicate RelationError(a: Attribute, entity: string, e: AttributeError, hasCoordinator: bool, model: map<string, EntityDescription>)
    requires a.IsRelation()
  {
    || (e == FailedToEncodeRelation(a.name, entity) && !CanCreate(hasCoordinator, model, a.target))
    || exists f :: f in a.target.fields && e == FailedToDecode(f.name, a.target.entityName)
  }

  lemma {:induction false} DecodeFieldsError(entity: string, fields: seq<FieldAttribute>, r: Record, acc: Plain)
    requires DecodeFields(entity, fields, r, acc).Failure?
    ensures exists f :: f in fields && DecodeFields(entity, fields, r, acc).error == FailedToDecode(f.name, entity)
    decreases |fields|
  {
    match DecodeFieldValue(fields[0], entity, r)
    case Failure(e) =>
    case Success(v) =>
      DecodeFieldsError(entity, fields[1..], r, Plain(acc.fields[fields[0].key := v]));
      var f :| f in fields[1..] && DecodeFields(entity, fields[1..], r, Plain(acc.fields[fields[0].key := v])).error == FailedToDecode(f.name, entity);
      assert f in fields;
  }

  lemma ExplainedError(a: Attribute, e: AttributeError, entity: string, records: map<Handle, Record>, members: set<Handle>,
                       hasCoordinator: bool, model: map<string, EntityDescription>)
    requires a.IsRelation() && FailureExplained(e, a.name, entity, a.target, records, members, CanCreate(hasCoordinator, model, a.target))
    ensures RelationError(a, entity, e, hasCoordinator, model)
  {
    if !(e == FailedToEncodeRelation(a.name, entity) && !CanCreate(hasCoordinator, model, a.target)) {
      var t :| t in members && t in records && DecodeFlat(a.target, records[t]) == Failure(e);
      DecodeFieldsError(a.target.entityName, a.target.fields, records[t], a.target.defaults);
    }
  }

  lemma SteppedSame(a: Attribute, rec: Record)
    requires !a.Field? && a.name in rec.links
    ensures Stepped(a, rec, rec)
  {
    assert rec.links[a.name := rec.links[a.name]] == rec.links;
  }

  /** A field attribute's encode: `managedObject[primitiveValue: name] = value.encode()`. */
  method EncodeFieldAttribute(ctx: Context, owner: Handle, m: Mapping, a: Attribute, p: Plain) returns (r: Outcome<AttributeError>)
    requires ctx.Valid() && owner in ctx.records && ctx.records[owner].entity == m.entityName
    requires WellFormed(m) && a in m.attributes && a.Field? && AttributeConforms(a, p)
    modifies ctx
    ensures ctx.Valid() && owner in ctx.records
    ensures ctx.model == old(ctx.model) && ctx.hasCoordinator == old(ctx.hasCoordinator) && ctx.committed == old(ctx.committed)
    ensures ctx.next == old(ctx.next)
    ensures ctx.records == old(ctx.records)[owner := EncodeField(a.field, p, old(ctx.records[owner]))]
    ensures Confined(old(ctx.records), ctx.records, owner, TargetsOf(a))
    ensures Stepped(a, old(ctx.records[owner]), ctx.records[owner])
    ensures r.Pass? && Represented(a, p, ctx.records, ctx.records[owner])
  {
    var updated := EncodeField(a.field, p, ctx.records[owner]);
    ConsistentWithFields(ctx.records, ctx.model, ctx.next, owner, updated);
    ctx.records := ctx.records[owner := updated];
    r := Pass;
  }

  /** A to-one attribute's encode, as corrected. */
  method EncodeToOneAttribute(ctx: Context, owner: Handle, m: Mapping, a: Attribute, p: Plain) returns (r: Outcome<AttributeError>)
    requires ctx.Valid() && owner in ctx.records && ctx.records[owner].entity == m.entityName
    requires WellFormed(m) && Declared(ctx.model, m) && a in m.attributes && a.ToOne? && AttributeConforms(a, p)
    modifies ctx
    ensures ctx.Valid() && owner in ctx.records
    ensures ctx.model == old(ctx.model) && ctx.hasCoordinator == old(ctx.hasCoordinator) && ctx.committed == old(ctx.committed)
    ensures old(ctx.next) <= ctx.next
    ensures Confined(old(ctx.records), ctx.records, owner, TargetsOf(a))
    ensures Stepped(a, old(ctx.records[owner]), ctx.records[owner])
    ensures r.Pass? ==> Represented(a, p, ctx.records, ctx.records[owner])
    ensures r.Fail? ==> RelationError(a, m.entityName, r.error, ctx.hasCoordinator, ctx.model)
  {
    AttributeReady(ctx, owner, m, a);
    ghost var k;
    r, k := EncodeToOne(ctx, owner, m.entityName, a.name, a.target, p.fields[a.key].related);
    if r.Pass? {
      OneConfined(old(ctx.records), ctx.records, owner, k, a.target.entityName);
    } else {
      ExplainedError(a, r.error, m.entityName, old(ctx.records), Linked(old(ctx.records[owner].links[a.name])),
                     ctx.hasCoordinator, ctx.model);
      SteppedSame(a, ctx.records[owner]);
    }
  }

  /** After a successful to-many encode, each object (with distinct identities) has a member holding it. */
  lemma ToManyRepresented(target: FlatMapping, objects: set<Plain>, r0: map<Handle, Record>, r: map<Handle, Record>,
                          owner: Handle, placed: map<Plain, Handle>, held: map<Handle, Plain>, members: set<Handle>)
    requires Placement(target, objects, r0, r, owner, placed, held) && placed.Keys == objects && placed.Values <= members
    ensures DistinctIds(target, objects) ==> forall o :: o in objects ==> exists t :: t in members && HeldAt(target, o, r, t)
  {
    if DistinctIds(target, objects) {
      ToManyRepresents(target, objects, r0, r, owner, members, placed, held);
      forall o | o in objects ensures exists t :: t in members && HeldAt(target, o, r, t) {
        assert placed[o] in held;
        assert HeldAt(target, o, r, placed[o]);
      }
    }
  }

  /** A to-many attribute's encode. */
  method EncodeToManyAttribute(ctx: Context, owner: Handle, m: Mapping, a: Attribute, p: Plain) returns (r: Outcome<AttributeError>)
    requires ctx.Valid() && owner in ctx.records && ctx.records[owner].entity == m.entityName
    requires WellFormed(m) && Declared(ctx.model, m) && a in m.attributes && a.ToMany? && AttributeConforms(a, p)
    modifies ctx
    ensures ctx.Valid() && owner in ctx.records
    ensures ctx.model == old(ctx.model) && ctx.hasCoordinator == old(ctx.hasCoordinator) && ctx.committed == old(ctx.committed)
    ensures old(ctx.next) <= ctx.next
    ensures Confined(old(ctx.records), ctx.records, owner, TargetsOf(a))
    ensures Stepped(a, old(ctx.records[owner]), ctx.records[owner])
    ensures r.Pass? ==> Represented(a, p, ctx.records, ctx.records[owner])
    ensures r.Fail? ==> RelationError(a, m.entityName, r.error, ctx.hasCoordinator, ctx.model)
  {
    AttributeReady(ctx, owner, m, a);
    var objects := p.fields[a.key].objects;
    ghost var placed, held;
    r, placed, held := EncodeToMany(ctx, owner, m.entityName, a.name, a.target, objects);
    PlacementConfined(a.target, objects, old(ctx.records), ctx.records, owner, placed, held);
    if r.Pass? {
      ToManyRepresented(a.target, objects, old(ctx.records), ctx.records, owner, placed, held, ctx.records[owner].links[a.name].members);
    } else {
      ExplainedError(a, r.error, m.entityName, old(ctx.records), old(ctx.records[owner].links[a.name].members),
                     ctx.hasCoordinator, ctx.model);
    }
  }

  /** After a successful ordered encode, the relationship begins with records holding the objects, in order. */
  lemma OrderedRepresented(target: FlatMapping, objects: seq<Plain>, r0: map<Handle, Record>, r: map<Handle, Record>,
                           owner: Handle, placed: seq<Handle>, es: seq<Handle>)
    requires OrderedPlacement(target, objects, r0, r, owner, placed) && |placed| == |objects|
    requires |placed| <= |es| && es[..|placed|] == placed
    ensures forall j :: 0 <= j < |objects| ==> HeldAt(target, objects[j], r, es[j])
  {
    forall j | 0 <= j < |objects| ensures HeldAt(target, objects[j], r, es[j]) {
      assert es[j] == placed[j];
    }
  }

  /** An ordered to-many attribute's encode. */
  method EncodeOrderedAttribute(ctx: Context, owner: Handle, m: Mapping, a: Attribute, p: Plain) returns (r: Outcome<AttributeError>)
    requires ctx.Valid() && owner in ctx.records && ctx.records[owner].entity == m.entityName
    requires WellFormed(m) && Declared(ctx.model, m) && a in m.attributes && a.ToManyOrdered? && AttributeConforms(a, p)
    requires DistinctIdsInOrder(a.target, p.fields[a.key].sequence)
    modifies ctx
    ensures ctx.Valid() && owner in ctx.records
    ensures ctx.model == old(ctx.model) && ctx.hasCoordinator == old(ctx.hasCoordinator) && ctx.committed == old(ctx.committed)
    ensures old(ctx.next) <= ctx.next
    ensures Confined(old(ctx.records), ctx.records, owner, TargetsOf(a))
    ensures Stepped(a, old(ctx.records[owner]), ctx.records[owner])
    ensures r.Pass? ==> Represented(a, p, ctx.records, ctx.records[owner])
    ensures r.Fail? ==> RelationError(a, m.entityName, r.error, ctx.hasCoordinator, ctx.model)
  {
    AttributeReady(ctx, owner, m, a);
    var objects := p.fields[a.key].sequence;
    forall o | o in objects ensures FlatConforms(a.target, o) {
      var i :| 0 <= i < |objects| && objects[i] == o;
    }
    ghost var placed;
    r, placed := EncodeToManyOrdered(ctx, owner, m.entityName, a.name, a.target, objects);
    OrderedPlacementConfined(a.target, objects, old(ctx.records), ctx.records, owner, placed);
    if r.Pass? {
      OrderedRepresented(a.target, objects, old(ctx.records), ctx.records, owner, placed, ctx.records[owner].links[a.name].elements);
    } else {
      ExplainedError(a, r.error, m.entityName, old(ctx.records), Elements(old(ctx.records[owner].links[a.name].elements)),
                     ctx.hasCoordinator, ctx.model);
    }
  }

  // ---- encodeAttributes(to:) ----

  /** The ordered relationships of `p` hold objects of distinct identities. */
  predicate OrderedIdsDistinct(m: Mapping, p: Plain) {
    forall a :: a in m.attributes && a.ToManyOrdered? && AttributeConforms(a, p) ==>
      DistinctIdsInOrder(a.target, p.fields[a.key].sequence)
  }

  /** `attribute.encode(self, managedObject)`: one attribute's closure, by kind. */
  method EncodeAttribute(ctx: Context, owner: Handle, m: Mapping, a: Attribute, p: Plain) returns (r: Outcome<AttributeError>)
    requires ctx.Valid() && owner in ctx.records && ctx.records[owner].entity == m.entityName
    requires WellFormed(m) && Declared(ctx.model, m) && a in m.attributes && AttributeConforms(a, p)
    requires OrderedIdsDistinct(m, p)
    modifies ctx
    ensures ctx.Valid() && owner in ctx.records
    ensures ctx.model == old(ctx.model) && ctx.hasCoordinator == old(ctx.hasCoordinator) && ctx.committed == old(ctx.committed)
    ensures old(ctx.next) <= ctx.next
    ensures Confined(old(ctx.records), ctx.records, owner, TargetsOf(a))
    ensures Stepped(a, old(ctx.records[owner]), ctx.records[owner])
    ensures r.Pass? ==> Represented(a, p, ctx.records, ctx.records[owner])
    ensures r.Fail? ==> a.IsRelation() && RelationError(a, m.entityName, r.error, ctx.hasCoordinator, ctx.model)
  {
    match a
    case Field(_) => r := EncodeFieldAttribute(ctx, owner, m, a, p);
    case ToOne(_, _, _) => r := EncodeToOneAttribute(ctx, owner, m, a, p);
    case ToMany(_, _, _) => r := EncodeToManyAttribute(ctx, owner, m, a, p);
    case ToManyOrdered(_, _, _) => r := EncodeOrderedAttribute(ctx, owner, m, a, p);
  }

  lemma ConfinedWeaken(r0: map<Handle, Record>, r: map<Handle, Record>, owner: Handle, e1: set<string>, e2: set<string>)
    requires Confined(r0, r, owner, e1) && e1 <= e2
    ensures Confined(r0, r, owner, e2)
  {
  }

  /** A record of an entity outside `entities`, other than the owner, is the same after a confined change. */
  lemma HeldAtKept(target: FlatMapping, o: Plain, r0: map<Handle, Record>, r1: map<Handle, Record>,
                   owner: Handle, entities: set<string>, t: Handle)
    requires Confined(r0, r1, owner, entities) && target.entityName !in entities
    requires HeldAt(target, o, r0, t) && t != owner
    ensures HeldAt(target, o, r1, t)
  {
    assert t in r1;
  }

  /** All attributes before `i` are represented. */
  ghost predicate EncodedBefore(m: Mapping, p: Plain, records: map<Handle, Record>, owner: Handle, i: nat)
    requires WellFormed(m) && Conforms(m, p) && i <= |m.attributes| && owner in records
  {
    forall j :: 0 <= j < i ==> Represents(m, m.attributes[j], p, records, records[owner])
  }

  /** All attributes from `i` on are as in `rec0`. */
  ghost predicate UntouchedFrom(m: Mapping, rec0: Record, rec: Record, i: nat) {
    forall j :: i <= j < |m.attributes| ==> Untouched(m.attributes[j], rec0, rec)
  }

  /** Representation survives the encode of another attribute. */
  lemma StepKeeps(m: Mapping, a: Attribute, b: Attribute, p: Plain, r0: map<Handle, Record>, r1: map<Handle, Record>, owner: Handle)
    requires WellFormed(m) && a in m.attributes && b in m.attributes && a.Name() != b.Name() && AttributeConforms(a, p)
    requires owner in r0 && owner in r1 && r0[owner].entity == m.entityName
    requires Confined(r0, r1, owner, TargetsOf(b)) && Stepped(b, r0[owner], r1[owner])
    requires Represents(m, a, p, r0, r0[owner])
    ensures Represents(m, a, p, r1, r1[owner])
  {
    var rec0, rec1 := r0[owner], r1[owner];
    if a.Field? {
      assert PrimitiveValue(rec1, a.field.name) == PrimitiveValue(rec0, a.field.name);
    } else if UniqueTarget(m.attributes, a) {
      assert a.target.entityName != m.entityName;
      assert a.target.entityName !in TargetsOf(b);
      assert a.name in rec0.links ==> rec1.links[a.name] == rec0.links[a.name];
      match a
      case ToOne(key, name, target) =>
        HeldAtKept(target, p.fields[key].related, r0, r1, owner, TargetsOf(b), rec0.links[name].target.value);
      case ToMany(key, name, target) =>
        if DistinctIds(target, p.fields[key].objects) {
          forall o | o in p.fields[key].objects ensures exists t :: t in rec1.links[name].members && HeldAt(target, o, r1, t) {
            var t :| t in rec0.links[name].members && HeldAt(target, o, r0, t);
            HeldAtKept(target, o, r0, r1, owner, TargetsOf(b), t);
          }
        }
      case ToManyOrdered(key, name, target) =>
        forall j | 0 <= j < |p.fields[key].sequence| ensures HeldAt(target, p.fields[key].sequence[j], r1, rec1.links[name].elements[j]) {
          HeldAtKept(target, p.fields[key].sequence[j], r0, r1, owner, TargetsOf(b), rec0.links[name].elements[j]);
        }
    }
  }

  /** One loop step of `encodeAttributes`, on the records alone. */
  lemma EncodedStep(m: Mapping, p: Plain, r0: map<Handle, Record>, r1: map<Handle, Record>, owner: Handle,
                    rec0: Record, i: nat)
    requires WellFormed(m) && Conforms(m, p) && i < |m.attributes|
    requires owner in r0 && owner in r1 && r0[owner].entity == m.entityName
    requires Confined(r0, r1, owner, TargetsOf(m.attributes[i])) && Stepped(m.attributes[i], r0[owner], r1[owner])
    requires EncodedBefore(m, p, r0, owner, i) && UntouchedFrom(m, rec0, r0[owner], i)
    ensures r1[owner].entity == m.entityName
    ensures EncodedBefore(m, p, r1, owner, i) && UntouchedFrom(m, rec0, r1[owner], i + 1)
    ensures Represented(m.attributes[i], p, r1, r1[owner]) ==> EncodedBefore(m, p, r1, owner, i + 1)
  {
    var b := m.attributes[i];
    forall j | 0 <= j < i ensures Represents(m, m.attributes[j], p, r1, r1[owner]) {
      assert m.attributes[j].Name() != b.Name();
      StepKeeps(m, m.attributes[j], b, p, r0, r1, owner);
    }
    forall j | i + 1 <= j < |m.attributes| ensures Untouched(m.attributes[j], rec0, r1[owner]) {
      assert m.attributes[j].Name() != b.Name();
    }
  }

  /**
   * `encodeAttributes(to:)`: every attribute's closure in turn, stopping at the
   * first error. On success every field is encoded and every relationship whose
   * related entity is its own is represented; on failure the error is the
   * relation attribute at `at`'s, the attributes before it are represented and
   * those after it are untouched. Only the owner and records of the related
   * entities change.
   */
  method EncodeAttributes(ctx: Context, owner: Handle, m: Mapping, p: Plain) returns (r: Outcome<AttributeError>, ghost at: nat)
    requires ctx.Valid() && owner in ctx.records && ctx.records[owner].entity == m.entityName
    requires WellFormed(m) && Declared(ctx.model, m) && Conforms(m, p) && OrderedIdsDistinct(m, p)
    modifies ctx
    ensures ctx.Valid() && owner in ctx.records && ctx.records[owner].entity == m.entityName
    ensures ctx.model == old(ctx.model) && ctx.hasCoordinator == old(ctx.hasCoordinator) && ctx.committed == old(ctx.committed)
    ensures old(ctx.next) <= ctx.next
    ensures Confined(old(ctx.records), ctx.records, owner, Targets(m.attributes))
    ensures r.Pass? ==> EncodedBefore(m, p, ctx.records, owner, |m.attributes|)
    ensures r.Fail? ==> && at < |m.attributes| && m.attributes[at].IsRelation()
                        && RelationError(m.attributes[at], m.entityName, r.error, ctx.hasCoordinator, ctx.model)
                        && EncodedBefore(m, p, ctx.records, owner, at)
                        && UntouchedFrom(m, old(ctx.records[owner]), ctx.records[owner], at + 1)
  {
    ghost var rec0 := ctx.records[owner];
    at := 0;
    for i := 0 to |m.attributes|
      invariant ctx.Valid() && owner in ctx.records && ctx.records[owner].entity == m.entityName
      invariant ctx.model == old(ctx.model) && ctx.hasCoordinator == old(ctx.hasCoordinator) && ctx.committed == old(ctx.committed)
      invariant old(ctx.next) <= ctx.next
      invariant Confined(old(ctx.records), ctx.records, owner, Targets(m.attributes))
      invariant EncodedBefore(m, p, ctx.records, owner, i) && UntouchedFrom(m, rec0, ctx.records[owner], i)
    {
      var a := m.attributes[i];
      ghost var before := ctx.records;
      r := EncodeAttribute(ctx, owner, m, a, p);
      ConfinedTrans(old(ctx.records), before, ctx.records, owner, Targets(m.attributes), TargetsOf(a));
      ConfinedWeaken(old(ctx.records), ctx.records, owner, Targets(m.attributes) + TargetsOf(a), Targets(m.attributes));
      EncodedStep(m, p, before, ctx.records, owner, rec0, i);
      if r.Fail? {
        at := i;
        return;
      }
    }
    r := Pass;
  }

  // ---- init(from:) ----

  /**
   * Every attribute's decode closure in turn, starting from `acc`; the first
   * failure aborts. A success sets the key path of every attribute and keeps
   * the other keys of `acc`.
   */
  function DecodeAll(entity: string, attrs: seq<Attribute>, records: map<Handle, Record>, rec: Record, acc: Plain): (d: Result<Plain, AttributeError>)
    ensures d.Success? ==> d.value.fields.Keys == acc.fields.Keys + KeyPaths(attrs)
    decreases |attrs|
  {
    if |attrs| == 0 then Success(acc)
    else
      match DecodeAttributeValue(attrs[0], entity, records, rec)
      case Failure(e) => Failure(e)
      case Success(v) => DecodeAll(entity, attrs[1..], records, rec, Plain(acc.fields[attrs[0].KeyPath() := v]))
  }

  /**
   * `init(from:)`: from the default value, apply every attribute's decode
   * closure to the record `h`, in the attribute set's order.
   */
  method InitFrom(ctx: Context, m: Mapping, h: Handle) returns (r: Result<Plain, AttributeError>)
    requires h in ctx.records
    ensures r == DecodeAll(m.entityName, m.attributes, ctx.records, ctx.records[h], m.defaults)
  {
    var rec := ctx.records[h];
    var acc := m.defaults;
    for i := 0 to |m.attributes|
      invariant DecodeAll(m.entityName, m.attributes, ctx.records, rec, m.defaults)
                == DecodeAll(m.entityName, m.attributes[i..], ctx.records, rec, acc)
    {
      var a := m.attributes[i];
      assert m.attributes[i..][1..] == m.attributes[i + 1..];
      var v := DecodeAttributeValue(a, m.entityName, ctx.records, rec);
      if v.Failure? {
        return Failure(v.error);
      }
      acc := Plain(acc.fields[a.KeyPath() := v.value]);
    }
    assert m.attributes[|m.attributes|..] == [];
    r := Success(acc);
  }

  /**
   * The decode succeeds exactly when every attribute's closure does; a failure
   * is the error of the first attribute whose closure fails.
   */
  lemma {:induction false} DecodeAllOutcome(entity: string, attrs: seq<Attribute>, records: map<Handle, Record>, rec: Record, acc: Plain)
    ensures DecodeAll(entity, attrs, records, rec, acc).Success? <==>
              forall i :: 0 <= i < |attrs| ==> DecodeAttributeValue(attrs[i], entity, records, rec).Success?
    ensures DecodeAll(entity, attrs, records, rec, acc).Failure? ==>
              exists i :: 0 <= i < |attrs|
                && DecodeAttributeValue(attrs[i], entity, records, rec) == Failure(DecodeAll(entity, attrs, records, rec, acc).error)
                && forall j :: 0 <= j < i ==> DecodeAttributeValue(attrs[j], entity, records, rec).Success?
    decreases |attrs|
  {
    if |attrs| > 0 {
      var v := DecodeAttributeValue(attrs[0], entity, records, rec);
      if v.Success? {
        var acc1 := Plain(acc.fields[attrs[0].KeyPath() := v.value]);
        DecodeAllOutcome(entity, attrs[1..], records, rec, acc1);
        assert forall i :: 1 <= i < |attrs| ==> attrs[i] == attrs[1..][i - 1];
        if DecodeAll(entity, attrs, records, rec, acc).Failure? {
          var i :| 0 <= i < |attrs[1..]|
                && DecodeAttributeValue(attrs[1..][i], entity, records, rec) == Failure(DecodeAll(entity, attrs, records, rec, acc).error)
                && forall j :: 0 <= j < i ==> DecodeAttributeValue(attrs[1..][j], entity, records, rec).Success?;
          assert DecodeAttributeValue(attrs[i + 1], entity, records, rec).Failure?;
        }
      }
    }
  }

  /**
   * A successful decode gives each attribute's key path the value its closure
   * decodes (key paths being distinct), and leaves every other key path as in `acc`.
   */
  lemma {:induction false} DecodeAllValues(entity: string, attrs: seq<Attribute>, records: map<Handle, Record>, rec: Record, acc: Plain)
    requires DistinctKeys(attrs) && DecodeAll(entity, attrs, records, rec, acc).Success?
    ensures forall i :: 0 <= i < |attrs| ==>
              DecodeAttributeValue(attrs[i], entity, records, rec).Success?
              && Get(DecodeAll(entity, attrs, records, rec, acc).value, attrs[i].KeyPath())
                 == Some(DecodeAttributeValue(attrs[i], entity, records, rec).value)
    ensures forall k :: (forall a :: a in attrs ==> a.KeyPath() != k) ==>
              Get(DecodeAll(entity, attrs, records, rec, acc).value, k) == Get(acc, k)
    decreases |attrs|
  {
    if |attrs| > 0 {
      var v := DecodeAttributeValue(attrs[0], entity, records, rec);
      var acc1 := Plain(acc.fields[attrs[0].KeyPath() := v.value]);
      var rest := attrs[1..];
      assert DistinctKeys(rest) by {
        forall i, j | 0 <= i < j < |rest| ensures rest[i].KeyPath() != rest[j].KeyPath() {
          assert rest[i] == attrs[i + 1] && rest[j] == attrs[j + 1];
        }
      }
      assert v.Success? && DecodeAll(entity, attrs, records, rec, acc) == DecodeAll(entity, rest, records, rec, acc1);
      var d := DecodeAll(entity, rest, records, rec, acc1).value;
      DecodeAllValues(entity, rest, records, rec, acc1);
      assert forall a :: a in rest ==> a.KeyPath() != attrs[0].KeyPath() by {
        forall a | a in rest ensures a.KeyPath() != attrs[0].KeyPath() {
          var j :| 0 <= j < |rest| && rest[j] == a;
          assert attrs[j + 1] == a;
        }
      }
      forall i | 0 <= i < |attrs|
        ensures DecodeAttributeValue(attrs[i], entity, records, rec).Success?
        ensures Get(d, attrs[i].KeyPath()) == Some(DecodeAttributeValue(attrs[i], entity, records, rec).value)
      {
        if i > 0 {
          assert attrs[i] == rest[i - 1];
        }
      }
    }
  }

  /** Two objects with the same value at every key path are equal. */
  lemma PlainExtensional(p: Plain, q: Plain)
    requires forall k :: Get(p, k) == Get(q, k)
    ensures p == q
  {
    assert forall k :: k in p.fields <==> Get(p, k).Some?;
    assert forall k :: k in q.fields <==> Get(q, k).Some?;
    assert p.fields.Keys == q.fields.Keys;
    forall k | k in p.fields ensures p.fields[k] == q.fields[k] {
      assert Get(p, k) == Get(q, k);
    }
  }

  /** Every attribute's decode closure succeeds on `rec`. */
  predicate AllDecode(entity: string, attrs: seq<Attribute>, records: map<Handle, Record>, rec: Record) {
    forall a :: a in attrs ==> DecodeAttributeValue(a, entity, records, rec).Success?
  }

  lemma DecodeAllSucceeds(entity: string, attrs: seq<Attribute>, records: map<Handle, Record>, rec: Record, acc: Plain)
    ensures DecodeAll(entity, attrs, records, rec, acc).Success? <==> AllDecode(entity, attrs, records, rec)
  {
    DecodeAllOutcome(entity, attrs, records, rec, acc);
    if AllDecode(entity, attrs, records, rec) {
      forall i | 0 <= i < |attrs| ensures DecodeAttributeValue(attrs[i], entity, records, rec).Success? {
        assert attrs[i] in attrs;
      }
    }
  }

  /** With distinct key paths, the decoded value at `k` is fixed by which attribute, if any, has key path `k`. */
  lemma DecodedAt(entity: string, attrs: seq<Attribute>, records: map<Handle, Record>, rec: Record, acc: Plain, k: Key)
    requires DistinctKeys(attrs) && DecodeAll(entity, attrs, records, rec, acc).Success?
    ensures forall a :: a in attrs && a.KeyPath() == k ==>
              DecodeAttributeValue(a, entity, records, rec).Success? &&
              Get(DecodeAll(entity, attrs, records, rec, acc).value, k) == Some(DecodeAttributeValue(a, entity, records, rec).value)
    ensures (forall a :: a in attrs ==> a.KeyPath() != k) ==> Get(DecodeAll(entity, attrs, records, rec, acc).value, k) == Get(acc, k)
  {
    DecodeAllValues(entity, attrs, records, rec, acc);
    forall a | a in attrs && a.KeyPath() == k
      ensures DecodeAttributeValue(a, entity, records, rec).Success? && Get(DecodeAll(entity, attrs, records, rec, acc).value, k) == Some(DecodeAttributeValue(a, entity, records, rec).value)
    {
      var i :| 0 <= i < |attrs| && attrs[i] == a;
    }
  }

  /**
   * The attribute set is a Swift `Set`, iterated in no fixed order: with
   * distinct key paths, whether the decode succeeds and what it produces do
   * not depend on that order.
   */
  lemma DecodeOrderIndependent(entity: string, attrs: seq<Attribute>, attrs': seq<Attribute>,
                               records: map<Handle, Record>, rec: Record, acc: Plain)
    requires DistinctKeys(attrs) && DistinctKeys(attrs')
    requires forall a :: a in attrs <==> a in attrs'
    ensures DecodeAll(entity, attrs, records, rec, acc).Success? <==> DecodeAll(entity, attrs', records, rec, acc).Success?
    ensures DecodeAll(entity, attrs, records, rec, acc).Success? ==>
              DecodeAll(entity, attrs, records, rec, acc) == DecodeAll(entity, attrs', records, rec, acc)
  {
    DecodeAllSucceeds(entity, attrs, records, rec, acc);
    DecodeAllSucceeds(entity, attrs', records, rec, acc);
    var d, d' := DecodeAll(entity, attrs, records, rec, acc), DecodeAll(entity, attrs', records, rec, acc);
    if d.Success? {
      forall k ensures Get(d.value, k) == Get(d'.value, k) {
        DecodedAt(entity, attrs, records, rec, acc, k);
        DecodedAt(entity, attrs', records, rec, acc, k);
      }
      PlainExtensional(d.value, d'.value);
    }
  }

  // ---- the round trip through a record ----

  /**
   * The decoded value `v` of attribute `a` gives back what `p` held: a field's
   * value itself; a related object agreeing on every attribute of the related
   * type; for to-many, an agreeing object for each of `p`'s objects (when
   * their identities are distinct), and likewise for each element of an
   * ordered relationship.
   */
  ghost predicate Recovered(a: Attribute, p: Plain, v: Value)
    requires AttributeConforms(a, p)
  {
    match a
    case Field(f) => v == p.fields[f.key]
    case ToOne(key, _, target) => v.OneValue? && Agrees(target, v.related, p.fields[key].related)
    case ToMany(key, _, target) =>
      && v.ManyValue?
      && (DistinctIds(target, p.fields[key].objects) ==>
            forall o :: o in p.fields[key].objects ==> exists q :: q in v.objects && Agrees(target, q, o))
    case ToManyOrdered(key, _, target) =>
      && v.OrderedValue?
      && (forall j :: 0 <= j < |p.fields[key].sequence| ==>
            exists q :: q in v.sequence && Agrees(target, q, p.fields[key].sequence[j]))
      && (DistinctIdsInOrder(target, p.fields[key].sequence) ==>
            && |p.fields[key].sequence| <= |v.sequence|
            && forall j :: 0 <= j < |p.fields[key].sequence| ==> Agrees(target, v.sequence[j], p.fields[key].sequence[j]))
  }

  /** The live prefix of an ordered relationship decodes position by position. */
  lemma {:induction false} DecodeSeqPrefix(target: FlatMapping, records: map<Handle, Record>, es: seq<Handle>, k: nat)
    requires DecodeSeq(target, records, es).Success? && k <= |es|
    requires forall i :: 0 <= i < k ==> es[i] in records
    ensures k <= |DecodeSeq(target, records, es).value|
    ensures forall i :: 0 <= i < k ==> DecodeSeq(target, records, es).value[i] == DecodeFlat(target, records[es[i]]).value
    decreases k
  {
    if k > 0 {
      var rest := DecodeSeq(target, records, es[1..]);
      assert rest.Success?;
      DecodeSeqPrefix(target, records, es[1..], k - 1);
      assert DecodeSeq(target, records, es).value == [DecodeFlat(target, records[es[0]]).value] + rest.value;
    }
  }

  /** Decoded objects agreeing with objects of distinct identities are themselves distinct. */
  lemma AgreeingDistinct(target: FlatMapping, objects: seq<Plain>, decoded: seq<Plain>)
    requires HasIdField(target.fields, target.idKey) && DistinctIdsInOrder(target, objects)
    requires |objects| <= |decoded| && forall j :: 0 <= j < |objects| ==> Agrees(target, decoded[j], objects[j])
    ensures Distinct(decoded[..|objects|])
  {
    var f := IdField(target.fields, target.idKey);
    forall i, j | 0 <= i < j < |objects| ensures decoded[i] != decoded[j] {
      assert Get(decoded[i], f.key) == Get(objects[i], f.key);
      assert Get(decoded[j], f.key) == Get(objects[j], f.key);
    }
  }

  /** A live element that decodes is among the decoded elements. */
  lemma {:induction false} DecodeSeqContains(target: FlatMapping, records: map<Handle, Record>, es: seq<Handle>, i: nat)
    requires DecodeSeq(target, records, es).Success? && i < |es| && es[i] in records
    ensures DecodeFlat(target, records[es[i]]).Success?
    ensures DecodeFlat(target, records[es[i]]).value in DecodeSeq(target, records, es).value
    decreases |es|
  {
    if i > 0 {
      match DecodeSeq(target, records, es[1..])
      case Success(_) =>
        assert es[1..][i - 1] == es[i];
        DecodeSeqContains(target, records, es[1..], i - 1);
      case Failure(_) =>
    }
  }

  /** The record holding `o` decodes to an object agreeing with it. */
  lemma HeldAgrees(target: FlatMapping, o: Plain, records: map<Handle, Record>, t: Handle)
    requires HeldAt(target, o, records, t)
    ensures DecodeFlat(target, records[t]).Success? && Agrees(target, DecodeFlat(target, records[t]).value, o)
  {
    HoldsDecodes(target, o, records[t]);
  }

  /**
   * An ordered relationship that begins with records holding objects of
   * distinct identities decodes, through `OrderedSet`, to a sequence whose
   * element j agrees with object j.
   */
  lemma OrderedPositions(target: FlatMapping, objects: seq<Plain>, records: map<Handle, Record>, es: seq<Handle>)
    requires WellFormedFlat(target) && DistinctIdsInOrder(target, objects) && |objects| <= |es|
    requires forall j :: 0 <= j < |objects| ==> HeldAt(target, objects[j], records, es[j])
    requires DecodeSeq(target, records, es).Success?
    ensures |objects| <= |Dedup(DecodeSeq(target, records, es).value)|
    ensures forall j :: 0 <= j < |objects| ==> Agrees(target, Dedup(DecodeSeq(target, records, es).value)[j], objects[j])
  {
    var decoded := DecodeSeq(target, records, es).value;
    DecodeSeqPrefix(target, records, es, |objects|);
    forall j | 0 <= j < |objects| ensures Agrees(target, decoded[j], objects[j]) {
      HeldAgrees(target, objects[j], records, es[j]);
    }
    AgreeingDistinct(target, objects, decoded);
    var r := Dedup(decoded);
    assert r[..|objects|] == decoded[..|objects|];
    forall j | 0 <= j < |objects| ensures Agrees(target, r[j], objects[j]) {
      assert r[..|objects|][j] == r[j];
      assert decoded[..|objects|][j] == decoded[j];
    }
  }

  /**
   * The partner of each attribute's encode: what it represents decodes back.
   * A field's and a to-one relationship's decode always succeed; a to-many
   * one can still fail on some other member record.
   */
  lemma AttributeRoundTrip(a: Attribute, entity: string, p: Plain, records: map<Handle, Record>, rec: Record)
    requires AttributeConforms(a, p) && (a.Field? ==> WellFormedCodec(a.field.codec))
    requires a.IsRelation() ==> WellFormedFlat(a.target)
    requires Represented(a, p, records, rec)
    ensures (a.Field? || a.ToOne?) ==> DecodeAttributeValue(a, entity, records, rec).Success?
    ensures DecodeAttributeValue(a, entity, records, rec).Success? ==>
              Recovered(a, p, DecodeAttributeValue(a, entity, records, rec).value)
  {
    var v := DecodeAttributeValue(a, entity, records, rec);
    match a
    case Field(f) =>
      FieldRoundTrip(f, entity, p, rec);
      assert DecodeFieldValue(f, entity, EncodeField(f, p, rec)) == DecodeFieldValue(f, entity, rec);
    case ToOne(key, name, target) =>
      HeldAgrees(target, p.fields[key].related, records, rec.links[name].target.value);
    case ToMany(key, name, target) =>
      if v.Success? && DistinctIds(target, p.fields[key].objects) {
        forall o | o in p.fields[key].objects ensures exists q :: q in v.value.objects && Agrees(target, q, o) {
          var t :| t in rec.links[name].members && HeldAt(target, o, records, t);
          HeldAgrees(target, o, records, t);
          assert DecodeFlat(target, records[t]).value in v.value.objects;
        }
      }
    case ToManyOrdered(key, name, target) =>
      if v.Success? {
        var es := rec.links[name].elements;
        var objects := p.fields[key].sequence;
        forall j | 0 <= j < |objects| ensures exists q :: q in v.value.sequence && Agrees(target, q, objects[j]) {
          HeldAgrees(target, objects[j], records, es[j]);
          DecodeSeqContains(target, records, es, j);
        }
        if DistinctIdsInOrder(target, objects) {
          OrderedPositions(target, objects, records, es);
        }
      }
  }

  /**
   * The round trip of a whole object: after `encodeAttributes`, `init(from:)`
   * gives back every field and every relationship whose related entity is
   * its own; when the relationships are all such to-one ones, it succeeds.
   */
  lemma EncodeDecodeRoundTrip(m: Mapping, p: Plain, records: map<Handle, Record>, owner: Handle)
    requires WellFormed(m) && Conforms(m, p) && DistinctKeys(m.attributes) && owner in records
    requires EncodedBefore(m, p, records, owner, |m.attributes|)
    ensures (forall a :: a in m.attributes ==> a.Field? || (a.ToOne? && UniqueTarget(m.attributes, a))) ==>
              DecodeAll(m.entityName, m.attributes, records, records[owner], m.defaults).Success?
    ensures DecodeAll(m.entityName, m.attributes, records, records[owner], m.defaults).Success? ==>
              var d := DecodeAll(m.entityName, m.attributes, records, records[owner], m.defaults).value;
              forall a :: a in m.attributes && (a.Field? || UniqueTarget(m.attributes, a)) ==>
                a.KeyPath() in d.fields && Recovered(a, p, d.fields[a.KeyPath()])
  {
    var rec := records[owner];
    forall a | a in m.attributes && (a.Field? || UniqueTarget(m.attributes, a))
      ensures Represented(a, p, records, rec)
    {
      var j :| 0 <= j < |m.attributes| && m.attributes[j] == a;
    }
    forall a | a in m.attributes && (a.Field? || UniqueTarget(m.attributes, a))
      ensures (a.Field? || a.ToOne?) ==> DecodeAttributeValue(a, m.entityName, records, rec).Success?
      ensures DecodeAttributeValue(a, m.entityName, records, rec).Success? ==>
                Recovered(a, p, DecodeAttributeValue(a, m.entityName, records, rec).value)
    {
      AttributeRoundTrip(a, m.entityName, p, records, rec);
    }
    DecodeAllSucceeds(m.entityName, m.attributes, records, rec, m.defaults);
    var d := DecodeAll(m.entityName, m.attributes, records, rec, m.defaults);
    if d.Success? {
      forall a | a in m.attributes && (a.Field? || UniqueTarget(m.attributes, a))
        ensures a.KeyPath() in d.value.fields && Recovered(a, p, d.value.fields[a.KeyPath()])
      {
        DecodedAt(m.entityName, m.attributes, records, rec, m.defaults, a.KeyPath());
      }
    }
  }

  /**
   * For a domain type whose attributes are all fields and whose key paths are
   * exactly the object's keys, `init(from:)` after `encodeAttributes(to:)`
   * gives back the object itself.
   */
  lemma FieldTypeRoundTrip(m: Mapping, p: Plain, records: map<Handle, Record>, owner: Handle)
    requires WellFormed(m) && Conforms(m, p) && DistinctKeys(m.attributes) && owner in records
    requires forall a :: a in m.attributes ==> a.Field?
    requires m.defaults.fields.Keys <= (set a | a in m.attributes :: a.KeyPath())
    requires p.fields.Keys == set a | a in m.attributes :: a.KeyPath()
    requires EncodedBefore(m, p, records, owner, |m.attributes|)
    ensures DecodeAll(m.entityName, m.attributes, records, records[owner], m.defaults) == Success(p)
  {
    EncodeDecodeRoundTrip(m, p, records, owner);
    var d := DecodeAll(m.entityName, m.attributes, records, records[owner], m.defaults).value;
    KeyPathsAre(m.attributes);
    RecoveredFields(m, p, d);
  }

  /** An object whose every key is a recovered field of `p` is `p`. */
  lemma RecoveredFields(m: Mapping, p: Plain, d: Plain)
    requires Conforms(m, p) && forall a :: a in m.attributes ==> a.Field?
    requires forall a :: a in m.attributes ==> a.KeyPath() in d.fields && Recovered(a, p, d.fields[a.KeyPath()])
    requires d.fields.Keys == m.defaults.fields.Keys + set a | a in m.attributes :: a.KeyPath()
    requires m.defaults.fields.Keys <= (set a | a in m.attributes :: a.KeyPath())
    requires p.fields.Keys == set a | a in m.attributes :: a.KeyPath()
    ensures d == p
  {
    forall k | k in d.fields ensures k in p.fields && d.fields[k] == p.fields[k] {
      var a :| a in m.attributes && a.KeyPath() == k;
      assert Recovered(a, p, d.fields[a.KeyPath()]);
    }
    assert d.fields == p.fields;
  }

}
