/**
 * Attribute descriptors (Attribute.swift): the five kinds of field mapping,
 * their equality and hashing, and the pure parts of their encode and decode
 * closures. Domain objects are values whose fields are addressed by key path
 * (here: a field name).
 */
module Attributes {
  import opened Wrappers
  import opened Values
  import opened Records

  /** A key path of a domain type, modelled as the name of the field it selects. */
  type Key = string

  /** The value of one field of a domain object. */
  datatype Value =
    | ScalarValue(x: Scalar)
    | OptionalValue(o: Option<Scalar>)
    | OneValue(related: Plain)
    | ManyValue(objects: set<Plain>)
    | OrderedValue(sequence: seq<Plain>)

  /** A plain (value-type) domain object. */
  datatype Plain = Plain(fields: map<Key, Value>)

  /** A scalar (`init(_: WritableKeyPath<_, Value>, _)`) or optional scalar attribute. */
  datatype FieldAttribute =
    | Required(key: Key, name: string, codec: Codec)
    | Optional(key: Key, name: string, codec: Codec)

  /**
   * The mapping of a related domain type: its entity name, identity key path,
   * default value (`init()`) and attribute set. Related types are flat: their
   * attributes are scalar or optional scalar.
   */
  datatype FlatMapping = FlatMapping(entityName: string, idKey: Key, defaults: Plain, fields: seq<FieldAttribute>)

  /** The five attribute variants. */
  datatype Attribute =
    | Field(field: FieldAttribute)
    | ToOne(key: Key, name: string, target: FlatMapping)
    | ToMany(key: Key, name: string, target: FlatMapping)
    | ToManyOrdered(key: Key, name: string, target: FlatMapping)
  {
    function Name(): string {
      if Field? then field.name else name
    }
    function KeyPath(): Key {
      if Field? then field.key else key
    }
    /** `isRelation`: set by the three relation initialisers only. */
    predicate IsRelation() {
      !Field?
    }
  }

  /** The mapping of a domain type whose attributes may include relations. */
  datatype Mapping = Mapping(entityName: string, idKey: Key, defaults: Plain, attributes: seq<Attribute>)

  // ---- Equatable and Hashable ----

  /**
   * `==`: two attributes are equal when their store names are, whatever their
   * key paths and codecs; an equivalence, as `Equatable` demands.
   */
  predicate Equal(a: Attribute, b: Attribute)
    ensures a == b ==> Equal(a, b)
    ensures Equal(a, b) <==> b.Name() == a.Name()
    ensures a.Field? && b.Field? && a.field.name == b.field.name ==> Equal(a, b)
  {
    a.Name() == b.Name()
  }

  /**
   * `hash(into:)` feeds the name, and nothing else, to the hasher: every
   * attribute equal to `a` gets the same hash.
   */
  function Hash(a: Attribute, hasher: string -> int): (h: int)
    ensures forall b :: Equal(a, b) ==> h == hasher(b.Name())
  {
    hasher(a.Name())
  }

  /** Attributes that are equal hash equally, whatever the hasher. */
  lemma EqualHashEqual(a: Attribute, b: Attribute, hasher: string -> int)
    requires Equal(a, b)
    ensures Hash(a, hasher) == Hash(b, hasher)
  {
  }

  /** Attributes with different names are told apart by some hasher, so hashing looks at the name. */
  lemma UnequalHashApart(a: Attribute, b: Attribute)
    requires !Equal(a, b)
    ensures exists hasher: string -> int :: Hash(a, hasher) != Hash(b, hasher)
  {
    var hasher := (s: string) => if s == a.Name() then 1 else 0;
    assert Hash(a, hasher) == 1 && Hash(b, hasher) == 0;
  }

  predicate DistinctNames(attrs: seq<Attribute>) {
    forall i, j :: 0 <= i < j < |attrs| ==> attrs[i].Name() != attrs[j].Name()
  }

  function Names(attrs: seq<Attribute>): set<string> {
    set a | a in attrs :: a.Name()
  }

  /** `Set.insert`: an attribute equal to a member is not added, the member stays. */
  function Insert(s: seq<Attribute>, a: Attribute): (r: seq<Attribute>)
    requires DistinctNames(s)
    ensures DistinctNames(r)
    ensures Names(r) == Names(s) + {a.Name()}
    ensures a.Name() in Names(s) ==> r == s
    ensures a.Name() !in Names(s) ==> r == s + [a]
  {
    if a.Name() in Names(s) then s
    else
      assert forall i :: 0 <= i < |s| ==> s[i].Name() != a.Name() by {
        forall i | 0 <= i < |s| ensures s[i].Name() != a.Name() {
          assert s[i] in s;
        }
      }
      assert Names(s + [a]) == Names(s) + {a.Name()} by {
        forall n | n in Names(s + [a]) ensures n in Names(s) + {a.Name()} {
          var b :| b in s + [a] && b.Name() == n;
          if b != a { assert b in s; }
        }
      }
      s + [a]
  }

  lemma NamesCons(list: seq<Attribute>)
    requires |list| > 0
    ensures Names(list) == {list[0].Name()} + Names(list[1..])
  {
    assert list == [list[0]] + list[1..];
    forall n | n in Names(list) ensures n in {list[0].Name()} + Names(list[1..]) {
      var b :| b in list && b.Name() == n;
      if b != list[0] {
        var k :| 0 <= k < |list| && list[k] == b;
        assert list[1..][k - 1] == b;
      }
    }
  }

  /** Inserting the attributes of `list` into `s` one after the other. */
  function InsertAll(s: seq<Attribute>, list: seq<Attribute>): (r: seq<Attribute>)
    requires DistinctNames(s)
    ensures DistinctNames(r)
    ensures Names(r) == Names(s) + Names(list)
    decreases |list|
  {
    if |list| == 0 then s
    else
      NamesCons(list);
      InsertAll(Insert(s, list[0]), list[1..])
  }

  /**
   * `Set<Attribute>` built from a list of attributes (the array literal of
   * `static var attributes`): one attribute per name.
   */
  function AttributeSet(list: seq<Attribute>): (r: seq<Attribute>)
    ensures DistinctNames(r)
    ensures Names(r) == Names(list)
  {
    InsertAll([], list)
  }

  /** Every member of `InsertAll(s, list)` comes from `s` or `list`, and `s` stays. */
  lemma {:induction false} InsertAllMembers(s: seq<Attribute>, list: seq<Attribute>)
    requires DistinctNames(s)
    ensures forall a :: a in InsertAll(s, list) ==> a in s || a in list
    ensures forall a :: a in s ==> a in InsertAll(s, list)
    decreases |list|
  {
    if |list| > 0 {
      NamesCons(list);
      var s' := Insert(s, list[0]);
      InsertAllMembers(s', list[1..]);
      forall a | a in InsertAll(s, list) ensures a in s || a in list {
        if a in s' && a !in s { assert a == list[0]; }
        if a in list[1..] { assert a in list; }
      }
    }
  }

  /** An attribute whose name no earlier attribute of `list` has is kept. */
  lemma {:induction false} InsertAllKeepsFirst(s: seq<Attribute>, list: seq<Attribute>, i: nat)
    requires DistinctNames(s)
    requires i < |list|
    requires list[i].Name() !in Names(s)
    requires forall j :: 0 <= j < i ==> !Equal(list[j], list[i])
    ensures list[i] in InsertAll(s, list)
    decreases |list|
  {
    NamesCons(list);
    var s' := Insert(s, list[0]);
    if i == 0 {
      InsertAllMembers(s', list[1..]);
    } else {
      assert list[1..][i - 1] == list[i];
      assert list[i].Name() !in Names(s') by {
        assert !Equal(list[0], list[i]);
        if list[0].Name() !in Names(s) {
          assert Names(s') == Names(s) + {list[0].Name()};
        }
      }
      InsertAllKeepsFirst(s', list[1..], i - 1);
    }
  }

  /**
   * Building the attribute set keeps exactly the first attribute of each
   * name: every member comes from the list, and every attribute that no
   * earlier one equals is a member.
   */
  lemma AttributeSetKeepsFirst(list: seq<Attribute>)
    ensures forall a :: a in AttributeSet(list) ==> a in list
    ensures forall i :: 0 <= i < |list| && (forall j :: 0 <= j < i ==> !Equal(list[j], list[i])) ==> list[i] in AttributeSet(list)
  {
    InsertAllMembers([], list);
    forall i | 0 <= i < |list| && (forall j :: 0 <= j < i ==> !Equal(list[j], list[i]))
      ensures list[i] in AttributeSet(list)
    {
      InsertAllKeepsFirst([], list, i);
    }
  }

  // ---- scalar and optional scalar attributes ----

  function Get(p: Plain, key: Key): Option<Value> {
    if key in p.fields then Some(p.fields[key]) else None
  }

  /** The field of `p` has the Swift type the attribute was declared with. */
  predicate FieldConforms(f: FieldAttribute, p: Plain) {
    && f.key in p.fields
    && match f
       case Required(_, _, c) => p.fields[f.key].ScalarValue? && Typed(c, p.fields[f.key].x)
       case Optional(_, _, c) =>
         p.fields[f.key].OptionalValue? && (p.fields[f.key].o.Some? ==> Typed(c, p.fields[f.key].o.value))
  }

  /** What the attribute's encode closure stores: `value.encode()`, or `value?.encode()`. */
  function FieldEncoding(f: FieldAttribute, p: Plain): (r: Option<Prim>)
    requires WellFormedCodec(f.codec) && FieldConforms(f, p)
    ensures f.Required? ==> r.Some?
    ensures f.Optional? ==> (r.None? <==> p.fields[f.key].o.None?)
  {
    match f
    case Required(_, _, c) => Some(Encode(c, p.fields[f.key].x))
    case Optional(_, _, c) => EncodeOptional(c, p.fields[f.key].o)
  }

  /**
   * Encode closure of a scalar or optional attribute: it writes the encoded
   * field into the record field named by the attribute, and nothing else.
   */
  function EncodeField(f: FieldAttribute, p: Plain, r: Record): (r': Record)
    requires WellFormedCodec(f.codec) && FieldConforms(f, p)
    ensures PrimitiveValue(r', f.name) == FieldEncoding(f, p)
    ensures forall k :: k != f.name ==> PrimitiveValue(r', k) == PrimitiveValue(r, k)
    ensures r'.entity == r.entity && r'.links == r.links
  {
    SetPrimitiveValue(r, f.name, FieldEncoding(f, p))
  }

  /**
   * The value a scalar or optional attribute's decode closure assigns; any
   * codec failure is reported as `failedToDecode(name, entity)`.
   */
  function DecodeFieldValue(f: FieldAttribute, entity: string, r: Record): (v: Result<Value, AttributeError>)
    ensures v.Failure? ==> v.error == FailedToDecode(f.name, entity)
    ensures f.Required? ==> (v.Success? <==> DecodeAny(f.codec, PrimitiveValue(r, f.name)).Success?)
    ensures f.Required? && v.Success? ==> v.value == ScalarValue(DecodeAny(f.codec, PrimitiveValue(r, f.name)).value)
    ensures f.Optional? ==> (v.Success? <==> DecodeOptional(f.codec, PrimitiveValue(r, f.name)).Success?)
    ensures f.Optional? && v.Success? ==> v.value == OptionalValue(DecodeOptional(f.codec, PrimitiveValue(r, f.name)).value)
  {
    match f
    case Required(_, name, c) =>
      (match DecodeAny(c, PrimitiveValue(r, name))
       case Success(x) => Success(ScalarValue(x))
       case Failure(_) => Failure(FailedToDecode(name, entity)))
    case Optional(_, name, c) =>
      match DecodeOptional(c, PrimitiveValue(r, name))
      case Success(o) => Success(OptionalValue(o))
      case Failure(_) => Failure(FailedToDecode(name, entity))
  }

  /** A missing stored value decodes to nil for an optional attribute, and fails for a required one. */
  lemma MissingValue(f: FieldAttribute, entity: string, r: Record)
    requires f.name !in r.fields
    ensures f.Optional? ==> DecodeFieldValue(f, entity, r) == Success(OptionalValue(None))
    ensures f.Required? ==> DecodeFieldValue(f, entity, r) == Failure(FailedToDecode(f.name, entity))
  {
  }

  /** A field written by the encode closure decodes back to the domain value. */
  lemma FieldRoundTrip(f: FieldAttribute, entity: string, p: Plain, r: Record)
    requires WellFormedCodec(f.codec) && FieldConforms(f, p)
    ensures DecodeFieldValue(f, entity, EncodeField(f, p, r)) == Success(p.fields[f.key])
  {
    match f
    case Required(_, _, c) => RoundTrip(c, p.fields[f.key].x);
    case Optional(_, _, c) => OptionalRoundTrip(c, p.fields[f.key].o);
  }

  // ---- flat domain types: encodeAttributes(to:) and init(from:) ----

  predicate DistinctFieldNames(fields: seq<FieldAttribute>) {
    forall i, j :: 0 <= i < j < |fields| ==> fields[i].name != fields[j].name
  }

  /** Some required attribute maps the identity key path (the id is a non-optional `ConvertableValue`). */
  predicate HasIdField(fields: seq<FieldAttribute>, idKey: Key) {
    exists f :: f in fields && f.Required? && f.key == idKey
  }

  /** The attribute registered for the identity key path. */
  function IdField(fields: seq<FieldAttribute>, idKey: Key): (f: FieldAttribute)
    requires HasIdField(fields, idKey)
    ensures f in fields && f.Required? && f.key == idKey
  {
    if fields[0].Required? && fields[0].key == idKey then fields[0]
    else
      assert HasIdField(fields[1..], idKey) by {
        var g :| g in fields && g.Required? && g.key == idKey;
        assert g != fields[0];
        assert g in fields[1..];
      }
      IdField(fields[1..], idKey)
  }

  predicate WellFormedFlat(fm: FlatMapping) {
    && (forall f :: f in fm.fields ==> WellFormedCodec(f.codec))
    && DistinctFieldNames(fm.fields)
    && HasIdField(fm.fields, fm.idKey)
  }

  predicate FlatConforms(fm: FlatMapping, p: Plain) {
    forall f :: f in fm.fields ==> FieldConforms(f, p)
  }

  /** The identity of an object (`object[keyPath: idKeyPath]`). */
  function Id(idKey: Key, p: Plain): Option<Value> {
    Get(p, idKey)
  }

  /** Applying every attribute's encode closure to the record, in the set's order. */
  function EncodeFields(fields: seq<FieldAttribute>, p: Plain, r: Record): (r': Record)
    requires forall f :: f in fields ==> WellFormedCodec(f.codec) && FieldConforms(f, p)
    ensures r'.entity == r.entity && r'.links == r.links
    decreases |fields|
  {
    if |fields| == 0 then r
    else EncodeFields(fields[1..], p, EncodeField(fields[0], p, r))
  }

  function EncodeFlat(fm: FlatMapping, p: Plain, r: Record): (r': Record)
    requires WellFormedFlat(fm) && FlatConforms(fm, p)
    ensures r'.entity == r.entity && r'.links == r.links
  {
    EncodeFields(fm.fields, p, r)
  }

  /**
   * Starting from `acc`, applying every attribute's decode closure; the first
   * failure aborts. It succeeds exactly when every attribute decodes, and then
   * sets the key paths of all attributes, keeping the other keys of `acc`.
   */
  function DecodeFields(entity: string, fields: seq<FieldAttribute>, r: Record, acc: Plain): (d: Result<Plain, AttributeError>)
    ensures d.Success? <==> forall f :: f in fields ==> DecodeFieldValue(f, entity, r).Success?
    ensures d.Success? ==> d.value.fields.Keys == acc.fields.Keys + set f | f in fields :: f.key
    decreases |fields|
  {
    if |fields| == 0 then Success(acc)
    else
      match DecodeFieldValue(fields[0], entity, r)
      case Failure(e) => Failure(e)
      case Success(v) => DecodeFields(entity, fields[1..], r, Plain(acc.fields[fields[0].key := v]))
  }

  /** `init(from:)` of a flat type: from the default value, decode every attribute. */
  function DecodeFlat(fm: FlatMapping, r: Record): Result<Plain, AttributeError> {
    DecodeFields(fm.entityName, fm.fields, r, fm.defaults)
  }

  /** The record holds the encoding of every attribute of `p`. */
  ghost predicate Holds(fm: FlatMapping, p: Plain, r: Record) {
    && WellFormedFlat(fm) && FlatConforms(fm, p)
    && forall f :: f in fm.fields ==> PrimitiveValue(r, f.name) == FieldEncoding(f, p)
  }

  /** Fields whose names no attribute has keep their value through the encode. */
  lemma {:induction false} EncodeFieldsFrame(fields: seq<FieldAttribute>, p: Plain, r: Record, k: string)
    requires forall f :: f in fields ==> WellFormedCodec(f.codec) && FieldConforms(f, p)
    requires forall f :: f in fields ==> f.name != k
    ensures PrimitiveValue(EncodeFields(fields, p, r), k) == PrimitiveValue(r, k)
    decreases |fields|
  {
    if |fields| > 0 {
      assert fields[0] in fields;
      assert forall f :: f in fields[1..] ==> f in fields;
      EncodeFieldsFrame(fields[1..], p, EncodeField(fields[0], p, r), k);
    }
  }

  lemma {:induction false} EncodeFieldsHold(fields: seq<FieldAttribute>, p: Plain, r: Record)
    requires forall f :: f in fields ==> WellFormedCodec(f.codec) && FieldConforms(f, p)
    requires DistinctFieldNames(fields)
    ensures forall f :: f in fields ==> PrimitiveValue(EncodeFields(fields, p, r), f.name) == FieldEncoding(f, p)
    decreases |fields|
  {
    if |fields| > 0 {
      var r1 := EncodeField(fields[0], p, r);
      var rest := fields[1..];
      assert forall f :: f in rest ==> f in fields;
      assert DistinctFieldNames(rest) by {
        forall i, j | 0 <= i < j < |rest| ensures rest[i].name != rest[j].name {
          assert rest[i] == fields[i + 1] && rest[j] == fields[j + 1];
        }
      }
      EncodeFieldsHold(rest, p, r1);
      forall f | f in fields ensures PrimitiveValue(EncodeFields(fields, p, r), f.name) == FieldEncoding(f, p) {
        if f !in rest {
          assert f == fields[0];
          forall g | g in rest ensures g.name != f.name {
            var j :| 0 <= j < |rest| && rest[j] == g;
            assert fields[j + 1] == g;
          }
          EncodeFieldsFrame(rest, p, r1, f.name);
        }
      }
    }
  }

  /** After the encode, the record holds every attribute of the object. */
  lemma EncodeFlatHolds(fm: FlatMapping, p: Plain, r: Record)
    requires WellFormedFlat(fm) && FlatConforms(fm, p)
    ensures Holds(fm, p, EncodeFlat(fm, p, r))
  {
    EncodeFieldsHold(fm.fields, p, r);
  }

  /**
   * Decoding a record that holds the encoding of `p` succeeds and gives `p`'s
   * value at every attribute's key path; other key paths keep the starting value.
   */
  lemma {:induction false} DecodeFieldsHeld(entity: string, fields: seq<FieldAttribute>, p: Plain, r: Record, acc: Plain)
    requires forall f :: f in fields ==> WellFormedCodec(f.codec) && FieldConforms(f, p)
    requires forall f :: f in fields ==> PrimitiveValue(r, f.name) == FieldEncoding(f, p)
    ensures DecodeFields(entity, fields, r, acc).Success?
    ensures forall f :: f in fields ==> Get(DecodeFields(entity, fields, r, acc).value, f.key) == Get(p, f.key)
    ensures forall k :: (forall f :: f in fields ==> f.key != k) ==>
              Get(DecodeFields(entity, fields, r, acc).value, k) == Get(acc, k)
    decreases |fields|
  {
    if |fields| > 0 {
      var f0 := fields[0];
      assert f0 in fields;
      FieldRoundTrip(f0, entity, p, r);
      assert EncodeField(f0, p, r).fields == r.fields by {
        if f0.name in r.fields {
          assert r.fields == r.fields[f0.name := r.fields[f0.name]];
        }
      }
      assert EncodeField(f0, p, r) == r;
      var acc1 := Plain(acc.fields[f0.key := p.fields[f0.key]]);
      assert forall f :: f in fields[1..] ==> f in fields;
      DecodeFieldsHeld(entity, fields[1..], p, r, acc1);
    }
  }

  /** A record that holds the encoding of `p` decodes to an object with `p`'s identity. */
  lemma HoldsDecodes(fm: FlatMapping, p: Plain, r: Record)
    requires Holds(fm, p, r)
    ensures DecodeFlat(fm, r).Success?
    ensures forall f :: f in fm.fields ==> Get(DecodeFlat(fm, r).value, f.key) == Get(p, f.key)
    ensures Id(fm.idKey, DecodeFlat(fm, r).value) == Id(fm.idKey, p)
  {
    DecodeFieldsHeld(fm.entityName, fm.fields, p, r, fm.defaults);
    var idf := IdField(fm.fields, fm.idKey);
  }

  /** Encoding then decoding a flat object restores every attribute's field. */
  lemma FlatRoundTrip(fm: FlatMapping, p: Plain, r: Record)
    requires WellFormedFlat(fm) && FlatConforms(fm, p)
    ensures DecodeFlat(fm, EncodeFlat(fm, p, r)).Success?
    ensures forall f :: f in fm.fields ==> Get(DecodeFlat(fm, EncodeFlat(fm, p, r)).value, f.key) == Get(p, f.key)
  {
    EncodeFlatHolds(fm, p, r);
    HoldsDecodes(fm, p, EncodeFlat(fm, p, r));
  }

  // ---- fetching by identity ----

  /** `T.all.where(T.idKeyPath == id)`: records of the entity whose identity field holds `id`'s encoding. */
  function IdRequest(entity: string, idf: FieldAttribute, id: Scalar): (q: Request)
    requires WellFormedCodec(idf.codec) && Typed(idf.codec, id)
    ensures q.entity == entity && q.limit.None?
  {
    Request(entity, Some((idf.name, Encode(idf.codec, id))), None)
  }

  /** The request by identity for a related object. */
  function ObjectIdRequest(fm: FlatMapping, p: Plain): Request
    requires WellFormedFlat(fm) && FlatConforms(fm, p)
  {
    var idf := IdField(fm.fields, fm.idKey);
    assert FieldConforms(idf, p);
    IdRequest(fm.entityName, idf, p.fields[fm.idKey].x)
  }

  /** A record of the entity holding `p` is matched by the request for `p`'s identity. */
  lemma HoldsMatches(fm: FlatMapping, p: Plain, r: Record)
    requires Holds(fm, p, r) && r.entity == fm.entityName
    ensures Matches(ObjectIdRequest(fm, p), r)
  {
    var idf := IdField(fm.fields, fm.idKey);
    assert idf in fm.fields;
  }

  /** A record holding `p` is matched by the request for `q`'s identity only when `p` and `q` share it. */
  lemma MatchesSameId(fm: FlatMapping, p: Plain, q: Plain, r: Record)
    requires Holds(fm, p, r) && FlatConforms(fm, q)
    requires Matches(ObjectIdRequest(fm, q), r)
    ensures Id(fm.idKey, p) == Id(fm.idKey, q)
  {
    var idf := IdField(fm.fields, fm.idKey);
    assert idf in fm.fields;
    assert FieldConforms(idf, p) && FieldConforms(idf, q);
    EncodeInjective(idf.codec, p.fields[fm.idKey].x, q.fields[fm.idKey].x);
  }

  // ---- relation decode closures ----

  /** A set of naturals holding `n` has a least element, found by descending below `n`. */
  lemma {:induction false} LeastFrom(s: set<nat>, n: nat)
    requires n in s
    ensures exists m :: m in s && forall x :: x in s ==> m <= x
    decreases n
  {
    if !(forall x :: x in s ==> n <= x) {
      var x :| x in s && x < n;
      LeastFrom(s, x);
    }
  }

  lemma LeastExists(s: set<nat>)
    requires s != {}
    ensures exists m :: m in s && forall x :: x in s ==> m <= x
  {
    var y :| y in s;
    LeastFrom(s, y);
  }

  /**
   * The least handle of a non-empty set. The iteration order of an unordered
   * relationship is modelled as ascending handle order.
   */
  function Least(s: set<nat>): (m: nat)
    requires s != {}
    ensures m in s && forall x :: x in s ==> m <= x
  {
    LeastExists(s);
    var m :| m in s && forall x :: x in s ==> m <= x;
    m
  }

  /** The objects the live members of an unordered relationship decode to. */
  ghost function DecodedSet(target: FlatMapping, records: map<Handle, Record>, ms: set<Handle>): set<Plain> {
    set t | t in ms && t in records && DecodeFlat(target, records[t]).Success? :: DecodeFlat(target, records[t]).value
  }

  /**
   * `Set(objects.compactMap { try Relation(from: $0) })`: decode every member
   * that is a live record; any failure is rethrown.
   */
  function DecodeSet(target: FlatMapping, records: map<Handle, Record>, ms: set<Handle>): (v: Result<set<Plain>, AttributeError>)
    ensures v.Success? <==> forall t :: t in ms && t in records ==> DecodeFlat(target, records[t]).Success?
    ensures v.Success? ==> v.value == DecodedSet(target, records, ms)
    ensures v.Failure? ==> exists t :: t in ms && t in records && DecodeFlat(target, records[t]) == Failure(v.error)
    decreases |ms|
  {
    if ms == {} then Success({})
    else
      var t := Least(ms);
      var rest := DecodeSet(target, records, ms - {t});
      if t !in records then
        assert DecodedSet(target, records, ms) == DecodedSet(target, records, ms - {t});
        rest
      else
        match DecodeFlat(target, records[t])
        case Failure(e) => Failure(e)
        case Success(p) =>
          match rest
          case Failure(e) => Failure(e)
          case Success(objects) =>
            assert DecodedSet(target, records, ms) == DecodedSet(target, records, ms - {t}) + {p};
            Success(objects + {p})
  }

  /**
   * `OrderedSet(array)`: duplicates dropped, the first occurrence kept, so a
   * duplicate-free prefix of the array is also a prefix of the ordered set.
   */
  function Dedup(s: seq<Plain>): (r: seq<Plain>)
    ensures Distinct(r)
    ensures forall x :: x in r <==> x in s
    ensures Distinct(s) ==> r == s
    ensures forall k :: 0 <= k <= |s| && Distinct(s[..k]) ==> k <= |r| && r[..k] == s[..k]
    decreases |s|
  {
    if |s| == 0 then []
    else
      var front := s[..|s| - 1];
      var init := Dedup(front);
      var last := s[|s| - 1];
      assert s == front + [last];
      assert forall x :: x in s <==> x in front || x == last;
      var r := if last in init then init else init + [last];
      assert Distinct(r) by {
        if last !in init {
          DistinctSnoc(init, last);
        }
      }
      assert forall k :: 0 <= k < |s| ==> s[..k] == front[..k];
      assert forall k :: 0 <= k <= |s| && Distinct(s[..k]) ==> k <= |r| && r[..k] == s[..k] by {
        forall k | 0 <= k <= |s| && Distinct(s[..k]) ensures k <= |r| && r[..k] == s[..k] {
          if k == |s| {
            assert s[..k] == s;
          } else {
            assert s[..k] == front[..k];
            assert r[..k] == init[..k];
          }
        }
      }
      r
  }

  /** Appending an element not yet present keeps a sequence distinct. */
  lemma DistinctSnoc<T>(s: seq<T>, x: T)
    requires Distinct(s) && x !in s
    ensures Distinct(s + [x])
  {
    forall i, j | 0 <= i < j < |s| + 1 ensures (s + [x])[i] != (s + [x])[j] {
      if j == |s| {
        assert (s + [x])[i] == s[i];
      }
    }
  }

  /**
   * `compactMap { $0 as? NSManagedObject }.compactMap { try Relation(from: $0) }`:
   * the live elements decoded in order; the first failure is rethrown.
   */
  function DecodeSeq(target: FlatMapping, records: map<Handle, Record>, es: seq<Handle>): (v: Result<seq<Plain>, AttributeError>)
    ensures v.Success? <==> forall i :: 0 <= i < |es| && es[i] in records ==> DecodeFlat(target, records[es[i]]).Success?
    ensures v.Failure? ==> exists i :: 0 <= i < |es| && es[i] in records && DecodeFlat(target, records[es[i]]) == Failure(v.error)
    ensures v.Success? ==> |v.value| <= |es|
    ensures v.Success? && (forall i :: 0 <= i < |es| ==> es[i] in records) ==>
              |v.value| == |es| && forall i :: 0 <= i < |es| ==> v.value[i] == DecodeFlat(target, records[es[i]]).value
    decreases |es|
  {
    if |es| == 0 then Success([])
    else
      var rest := DecodeSeq(target, records, es[1..]);
      assert forall i :: 1 <= i < |es| ==> es[i] == es[1..][i - 1];
      if es[0] !in records then rest
      else
        match DecodeFlat(target, records[es[0]])
        case Failure(e) => Failure(e)
        case Success(p) =>
          match rest
          case Failure(e) =>
            assert exists i :: 0 <= i < |es[1..]| && es[1..][i] in records && DecodeFlat(target, records[es[1..][i]]) == Failure(e);
            Failure(e)
          case Success(objects) => Success([p] + objects)
  }

  /** The relationship `name` of `r` points at a live record (`value(forKey:) as? NSManagedObject`). */
  predicate LinksRecord(r: Record, name: string, records: map<Handle, Record>) {
    && name in r.links && r.links[name].ToOneLink?
    && r.links[name].target.Some? && r.links[name].target.value in records
  }

  /**
   * The value an attribute's decode closure assigns to its key path. A
   * relationship of the wrong shape (no record, not a set, not an ordered
   * set) fails with `failedToDecode(name, entity)`; a related object that
   * fails to decode rethrows its own error.
   */
  function DecodeAttributeValue(a: Attribute, entity: string, records: map<Handle, Record>, r: Record): (v: Result<Value, AttributeError>)
    ensures a.Field? ==> v == DecodeFieldValue(a.field, entity, r)
    ensures a.ToOne? && !LinksRecord(r, a.name, records) ==> v == Failure(FailedToDecode(a.name, entity))
    ensures a.ToOne? && LinksRecord(r, a.name, records) ==>
              var rel := DecodeFlat(a.target, records[r.links[a.name].target.value]);
              (v.Success? <==> rel.Success?) && (v.Success? ==> v.value == OneValue(rel.value)) && (v.Failure? ==> v.error == rel.error)
    ensures a.ToMany? && !(a.name in r.links && r.links[a.name].ToManyLink?) ==> v == Failure(FailedToDecode(a.name, entity))
    ensures a.ToMany? && a.name in r.links && r.links[a.name].ToManyLink? ==>
              var members := DecodeSet(a.target, records, r.links[a.name].members);
              (v.Success? <==> members.Success?) && (v.Failure? ==> v.error == members.error)
    ensures a.ToMany? && v.Success? ==> v.value == ManyValue(DecodedSet(a.target, records, r.links[a.name].members))
    ensures a.ToManyOrdered? && !(a.name in r.links && r.links[a.name].OrderedLink?) ==> v == Failure(FailedToDecode(a.name, entity))
    ensures a.ToManyOrdered? && a.name in r.links && r.links[a.name].OrderedLink? ==>
              var elements := DecodeSeq(a.target, records, r.links[a.name].elements);
              (v.Success? <==> elements.Success?) && (v.Failure? ==> v.error == elements.error)
    ensures a.ToManyOrdered? && v.Success? ==>
              v.value == OrderedValue(Dedup(DecodeSeq(a.target, records, r.links[a.name].elements).value))
    ensures a.ToManyOrdered? && v.Success? ==> Distinct(v.value.sequence)
  {
    match a
    case Field(f) => DecodeFieldValue(f, entity, r)
    case ToOne(_, name, target) =>
      if LinksRecord(r, name, records) then
        match DecodeFlat(target, records[r.links[name].target.value])
        case Success(p) => Success(OneValue(p))
        case Failure(e) => Failure(e)
      else Failure(FailedToDecode(name, entity))
    case ToMany(_, name, target) =>
      if name in r.links && r.links[name].ToManyLink? then
        match DecodeSet(target, records, r.links[name].members)
        case Success(objects) => Success(ManyValue(objects))
        case Failure(e) => Failure(e)
      else Failure(FailedToDecode(name, entity))
    case ToManyOrdered(_, name, target) =>
      if name in r.links && r.links[name].OrderedLink? then
        match DecodeSeq(target, records, r.links[name].elements)
        case Success(objects) => Success(OrderedValue(Dedup(objects)))
        case Failure(e) => Failure(e)
      else Failure(FailedToDecode(name, entity))
  }

  // ---- well-formed mappings and conforming objects ----

  predicate HasId(m: Mapping) {
    exists a :: a in m.attributes && a.Field? && a.field.Required? && a.field.key == m.idKey
  }

  /** The attribute registered for the identity key path of a mapping. */
  function MappingIdField(attrs: seq<Attribute>, idKey: Key): (f: FieldAttribute)
    requires exists a :: a in attrs && a.Field? && a.field.Required? && a.field.key == idKey
    ensures Field(f) in attrs && f.Required? && f.key == idKey
  {
    if attrs[0].Field? && attrs[0].field.Required? && attrs[0].field.key == idKey then attrs[0].field
    else
      assert exists a :: a in attrs[1..] && a.Field? && a.field.Required? && a.field.key == idKey by {
        var a :| a in attrs && a.Field? && a.field.Required? && a.field.key == idKey;
        assert a != attrs[0];
        assert a in attrs[1..];
      }
      MappingIdField(attrs[1..], idKey)
  }

  /**
   * What the Swift declarations guarantee of a mapping: one attribute per
   * name, well-formed codecs, an identity attribute, and related types that
   * are flat, well formed and distinct from the owner's entity.
   */
  predicate WellFormed(m: Mapping) {
    && DistinctNames(m.attributes)
    && (forall a :: a in m.attributes && a.Field? ==> WellFormedCodec(a.field.codec))
    && (forall a :: a in m.attributes && a.IsRelation() ==> WellFormedFlat(a.target) && a.target.entityName != m.entityName)
    && HasId(m)
  }

  /** The field of `p` selected by the attribute has the attribute's Swift type. */
  predicate AttributeConforms(a: Attribute, p: Plain) {
    match a
    case Field(f) => FieldConforms(f, p)
    case ToOne(key, _, target) =>
      key in p.fields && p.fields[key].OneValue? && FlatConforms(target, p.fields[key].related)
    case ToMany(key, _, target) =>
      key in p.fields && p.fields[key].ManyValue? && forall o :: o in p.fields[key].objects ==> FlatConforms(target, o)
    case ToManyOrdered(key, _, target) =>
      && key in p.fields && p.fields[key].OrderedValue?
      && Distinct(p.fields[key].sequence)
      && forall i :: 0 <= i < |p.fields[key].sequence| ==> FlatConforms(target, p.fields[key].sequence[i])
  }

  predicate Conforms(m: Mapping, p: Plain) {
    forall a :: a in m.attributes ==> AttributeConforms(a, p)
  }

  /** The request by identity for an object of a mapped type. */
  function MappingIdRequest(m: Mapping, id: Scalar): Request
    requires WellFormed(m)
    requires Typed(MappingIdField(m.attributes, m.idKey).codec, id)
  {
    var idf := MappingIdField(m.attributes, m.idKey);
    IdRequest(m.entityName, idf, id)
  }

  /** The identity of an object of a mapped type. */
  function MappingId(m: Mapping, p: Plain): (id: Scalar)
    requires WellFormed(m) && Conforms(m, p)
    ensures Typed(MappingIdField(m.attributes, m.idKey).codec, id)
  {
    var idf := MappingIdField(m.attributes, m.idKey);
    assert AttributeConforms(Field(idf), p);
    p.fields[m.idKey].x
  }
}
