/**
 * Value codecs: conversion between a domain scalar and the primitive value
 * a record field stores (ConvertableValue and its default conformances).
 *
 * The concrete primitive types of Foundation (Int16, Double, Date, URL, ...)
 * are abstracted into a tagged primitive value.
 */
module Values {
  import opened Wrappers

  /** A primitive value as the store holds it in a record field. */
  datatype Prim = IntPrim(i: int) | StringPrim(s: string) | BoolPrim(b: bool)

  /** The `ValueType` a codec expects to find in the store. */
  datatype PrimType = IntType | StringType | BoolType

  function TypeOf(p: Prim): PrimType {
    match p
    case IntPrim(_) => IntType
    case StringPrim(_) => StringType
    case BoolPrim(_) => BoolType
  }

  /** A domain-side scalar: a primitive, or the case of a raw-value enum given by its index. */
  datatype Scalar = PrimScalar(p: Prim) | CaseScalar(index: nat)

  /**
   * How a domain scalar type converts: a primitive type converts by identity;
   * a `RawRepresentable` enum converts through its raw value, `rawValues[k]`
   * being the raw value of case `k`.
   */
  datatype Codec = Identity(ty: PrimType) | RawEnum(ty: PrimType, rawValues: seq<Prim>)

  /** The errors the mapping layer throws (AttributeError). */
  datatype AttributeError =
    | FailedToDecode(field: string, model: string)
    | FailedToEncode(field: string, model: string)
    | FailedToEncodeRelation(field: string, model: string)
    | BadInput(input: Option<Prim>)

  /** A raw-value enum has raw values of its raw type, all distinct (Swift enforces both). */
  predicate WellFormedCodec(c: Codec) {
    match c
    case Identity(_) => true
    case RawEnum(ty, raws) =>
      && (forall k :: 0 <= k < |raws| ==> TypeOf(raws[k]) == ty)
      && (forall j, k :: 0 <= j < k < |raws| ==> raws[j] != raws[k])
  }

  /** `x` is a value of the Swift type the codec converts. */
  predicate Typed(c: Codec, x: Scalar) {
    match c
    case Identity(ty) => x.PrimScalar? && TypeOf(x.p) == ty
    case RawEnum(_, raws) => x.CaseScalar? && x.index < |raws|
  }

  // ---- PrimitiveType: identity codec ----

  /** `encode()` of a primitive type. */
  function EncodePrimitive(p: Prim): (r: Prim)
    ensures r == p
  {
    p
  }

  /** `decode(value:)` of a primitive type: never throws. */
  function DecodePrimitive(v: Prim): (r: Result<Prim, AttributeError>)
    ensures r == Success(v)
  {
    Success(v)
  }

  // ---- RawRepresentable ----

  /** `Self(rawValue:)`: the first case whose raw value is `raw`. */
  function CaseOf(raws: seq<Prim>, raw: Prim): (r: Option<nat>)
    ensures r.Some? ==> r.value < |raws| && raws[r.value] == raw
    ensures r.Some? ==> forall j :: 0 <= j < r.value ==> raws[j] != raw
    ensures r.None? <==> raw !in raws
  {
    if |raws| == 0 then None
    else if raws[0] == raw then Some(0)
    else
      match CaseOf(raws[1..], raw)
      case None => None
      case Some(k) => Some(k + 1)
  }

  /** `encode()`: a primitive encodes to itself, an enum case to `rawValue.encode()`. */
  function Encode(c: Codec, x: Scalar): (r: Prim)
    requires WellFormedCodec(c) && Typed(c, x)
    ensures TypeOf(r) == c.ty
  {
    match c
    case Identity(_) => EncodePrimitive(x.p)
    case RawEnum(_, raws) => EncodePrimitive(raws[x.index])
  }

  /**
   * `decode(value:)`: the identity for a primitive; for an enum, the raw value
   * is decoded and then mapped to its case, throwing `badInput(rawValue)` when
   * no case has that raw value.
   */
  function DecodeValue(c: Codec, v: Prim): (r: Result<Scalar, AttributeError>)
    ensures c.Identity? ==> r == Success(PrimScalar(v))
    ensures c.RawEnum? ==> (r.Failure? <==> v !in c.rawValues)
    ensures r.Failure? ==> r.error == BadInput(Some(v))
    ensures r.Success? && c.RawEnum? ==>
              r.value.CaseScalar? && r.value.index < |c.rawValues| && c.rawValues[r.value.index] == v
  {
    match c
    case Identity(_) =>
      (match DecodePrimitive(v)
       case Success(p) => Success(PrimScalar(p))
       case Failure(e) => Failure(e))
    case RawEnum(_, raws) =>
      match DecodePrimitive(v)
      case Failure(e) => Failure(e)
      case Success(raw) =>
        match CaseOf(raws, raw)
        case None => Failure(BadInput(Some(raw)))
        case Some(k) => Success(CaseScalar(k))
  }

  /**
   * `decode(_ some: Any?)`: the stored value must be present and of the
   * codec's `ValueType`, else `badInput(some)`; then `decode(value:)`.
   */
  function DecodeAny(c: Codec, some: Option<Prim>): (r: Result<Scalar, AttributeError>)
    ensures (some.None? || TypeOf(some.value) != c.ty) ==> r == Failure(BadInput(some))
    ensures some.Some? && TypeOf(some.value) == c.ty ==> r == DecodeValue(c, some.value)
  {
    match some
    case None => Failure(BadInput(some))
    case Some(v) => if TypeOf(v) != c.ty then Failure(BadInput(some)) else DecodeValue(c, v)
  }

  /** `Optional.encode`: `value?.encode()`, so nil stays nil. */
  function EncodeOptional(c: Codec, x: Option<Scalar>): (r: Option<Prim>)
    requires WellFormedCodec(c) && (x.Some? ==> Typed(c, x.value))
    ensures r.None? <==> x.None?
  {
    match x
    case None => None
    case Some(v) => Some(Encode(c, v))
  }

  /**
   * `Optional.decode(_ anyValue: Any?)`: a missing value is nil and the wrapped
   * decoder is not consulted; a present one is delegated to the wrapped type.
   */
  function DecodeOptional(c: Codec, some: Option<Prim>): (r: Result<Option<Scalar>, AttributeError>)
    ensures some.None? ==> r == Success(None)
    ensures some.Some? ==> (r.Success? <==> DecodeAny(c, some).Success?)
    ensures some.Some? && r.Success? ==> r.value == Some(DecodeAny(c, some).value)
    ensures some.Some? && r.Failure? ==> r.error == DecodeAny(c, some).error
  {
    match some
    case None => Success(None)
    case Some(_) =>
      match DecodeAny(c, some)
      case Success(x) => Success(Some(x))
      case Failure(e) => Failure(e)
  }

  // ---- round trips ----

  /** With distinct raw values, the case found for the raw value of case `k` is `k`. */
  lemma {:induction false} CaseOfRawValue(raws: seq<Prim>, k: nat)
    requires k < |raws|
    requires forall i, j :: 0 <= i < j < |raws| ==> raws[i] != raws[j]
    ensures CaseOf(raws, raws[k]) == Some(k)
  {
    if k > 0 {
      CaseOfRawValue(raws[1..], k - 1);
      assert raws[1..][k - 1] == raws[k];
    }
  }

  /** Every value of the codec's type decodes back from its stored encoding. */
  lemma RoundTrip(c: Codec, x: Scalar)
    requires WellFormedCodec(c) && Typed(c, x)
    ensures DecodeAny(c, Some(Encode(c, x))) == Success(x)
  {
    if c.RawEnum? {
      CaseOfRawValue(c.rawValues, x.index);
    }
  }

  /** An optional value round-trips too, nil included. */
  lemma OptionalRoundTrip(c: Codec, x: Option<Scalar>)
    requires WellFormedCodec(c) && (x.Some? ==> Typed(c, x.value))
    ensures DecodeOptional(c, EncodeOptional(c, x)) == Success(x)
  {
    if x.Some? {
      RoundTrip(c, x.value);
    }
  }

  /** Encoding is injective on the values of a codec's type. */
  lemma EncodeInjective(c: Codec, x: Scalar, y: Scalar)
    requires WellFormedCodec(c) && Typed(c, x) && Typed(c, y)
    requires Encode(c, x) == Encode(c, y)
    ensures x == y
  {
    RoundTrip(c, x);
    RoundTrip(c, y);
  }
}
