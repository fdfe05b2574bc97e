// The private operations of DatabaseClient.swift (lines 135-187): insert
// (an upsert by identity), the two `update(id, keyPath, value)` overloads,
// delete by identity, and fetch, each over one managed object context.

module Client {
  import opened Wrappers
  import opened Values
  import opened Records
  import opened Attributes
  import opened Store
  import opened Convertible
  import opened ManagedObject

  /** `T.all.where(T.idKeyPath == item[keyPath: T.idKeyPath])`. */
  function ItemRequest(m: Mapping, p: Plain): Request
    requires WellFormed(m) && Conforms(m, p)
  {
    MappingIdRequest(m, MappingId(m, p))
  }

  /** The related entities of a well-formed mapping are not its own. */
  lemma OwnEntityNotTarget(m: Mapping)
    requires WellFormed(m)
    ensures m.entityName !in Targets(m.attributes)
  {
  }

  /** A confined change leaves the matches of a request for another entity as they were, the owner aside. */
  lemma MatchingConfined(r0: map<Handle, Record>, r: map<Handle, Record>, owner: Handle, entities: set<string>, q: Request)
    requires Confined(r0, r, owner, entities) && q.entity !in entities
    ensures Matching(r, q) - {owner} == Matching(r0, q) - {owner}
  {
    forall t | t in r && t != owner && (t in r0 ==> r0[t] != r[t]) ensures !Matches(q, r[t]) && (t in r0 ==> !Matches(q, r0[t])) {
      assert r[t].entity in entities;
    }
  }

  /** Once every attribute is encoded, the owner's record answers the request for the item's identity. */
  lemma EncodedMatches(m: Mapping, p: Plain, records: map<Handle, Record>, owner: Handle)
    requires WellFormed(m) && Conforms(m, p) && owner in records && records[owner].entity == m.entityName
    requires EncodedBefore(m, p, records, owner, |m.attributes|)
    ensures Matches(ItemRequest(m, p), records[owner])
  {
    var idf := MappingIdField(m.attributes, m.idKey);
    var j :| 0 <= j < |m.attributes| && m.attributes[j] == Field(idf);
    assert Represents(m, m.attributes[j], p, records, records[owner]);
  }

  /** What the upsert does to the matches of the identity request, on the records alone. */
  lemma UpsertMatching(m: Mapping, p: Plain, r0: map<Handle, Record>, r: map<Handle, Record>, owner: Handle)
    requires WellFormed(m) && Conforms(m, p) && owner in r && r[owner].entity == m.entityName
    requires Confined(r0, r, owner, Targets(m.attributes))
    requires owner in r0 ==> owner in Matching(r0, ItemRequest(m, p))
    ensures Matching(r, ItemRequest(m, p)) - {owner} == Matching(r0, ItemRequest(m, p)) - {owner}
    ensures EncodedBefore(m, p, r, owner, |m.attributes|) ==>
              Matching(r, ItemRequest(m, p)) == Matching(r0, ItemRequest(m, p)) + {owner}
  {
    var q := ItemRequest(m, p);
    OwnEntityNotTarget(m);
    MatchingConfined(r0, r, owner, Targets(m.attributes), q);
    if EncodedBefore(m, p, r, owner, |m.attributes|) {
      EncodedMatches(m, p, r, owner);
      assert owner in Matching(r, q);
      assert Matching(r, q) == (Matching(r, q) - {owner}) + {owner};
      assert Matching(r0, q) + {owner} == (Matching(r0, q) - {owner}) + {owner};
    }
  }

  /**
   * With at most one record of the identity before, the upsert leaves exactly
   * one: the record it reused or created.
   */
  lemma UpsertLeavesOne(before: set<Handle>, after: set<Handle>, h: Handle)
    requires after == before + {h} && (before != {} ==> h in before) && |before| <= 1
    ensures after == {h}
  {
    if before != {} {
      assert |before - {h}| == |before| - 1;
      assert before - {h} == {};
    }
  }

  /**
   * `insert(_:in:)`: the record with the item's identity if there is one,
   * else a new record (none without a coordinator, and then nothing
   * happens); then `update(item)`. On success the record is the only one
   * added for that identity: the matches of the identity request are what
   * they were, plus that record. Records of the item's entity other than that
   * one are never touched.
   */
  method Insert(ctx: Context, m: Mapping, p: Plain) returns (r: Outcome<AttributeError>, ghost h: Option<Handle>)
    requires ctx.Valid() && WellFormed(m) && Declared(ctx.model, m) && Conforms(m, p) && OrderedIdsDistinct(m, p)
    modifies ctx
    ensures ctx.Valid()
    ensures ctx.model == old(ctx.model) && ctx.hasCoordinator == old(ctx.hasCoordinator) && ctx.committed == old(ctx.committed)
    ensures h.None? <==> !ctx.hasCoordinator && Matching(old(ctx.records), ItemRequest(m, p)) == {}
    ensures h.None? ==> r.Pass? && ctx.records == old(ctx.records)
    ensures h.Some? ==> h.value in ctx.records && ctx.records[h.value].entity == m.entityName
    ensures h.Some? && Matching(old(ctx.records), ItemRequest(m, p)) != {} ==> h.value in Matching(old(ctx.records), ItemRequest(m, p))
    ensures h.Some? && Matching(old(ctx.records), ItemRequest(m, p)) == {} ==> h.value !in old(ctx.records)
    ensures h.Some? ==> Confined(old(ctx.records), ctx.records, h.value, Targets(m.attributes))
    ensures h.Some? ==> Matching(ctx.records, ItemRequest(m, p)) - {h.value} == Matching(old(ctx.records), ItemRequest(m, p)) - {h.value}
    ensures r.Pass? && h.Some? ==> EncodedBefore(m, p, ctx.records, h.value, |m.attributes|)
    ensures r.Pass? && h.Some? ==> Matching(ctx.records, ItemRequest(m, p)) == Matching(old(ctx.records), ItemRequest(m, p)) + {h.value}
    ensures r.Pass? && h.Some? && |Matching(old(ctx.records), ItemRequest(m, p))| <= 1 ==> Matching(ctx.records, ItemRequest(m, p)) == {h.value}
    ensures r.Fail? ==> h.Some? && exists a :: a in m.attributes && a.IsRelation() && RelationError(a, m.entityName, r.error, ctx.hasCoordinator, ctx.model)
  {
    var q := ItemRequest(m, p);
    var found := ctx.FetchOne(q);
    if found.None? {
      found := ctx.InsertEntity(m.entityName);
    }
    h := found;
    if found.None? {
      return Pass, h;
    }
    ghost var at;
    r, at := EncodeAttributes(ctx, found.value, m, p);
    UpsertMatching(m, p, old(ctx.records), ctx.records, found.value);
    if r.Fail? {
      assert m.attributes[at] in m.attributes;
    } else if |Matching(old(ctx.records), q)| <= 1 {
      UpsertLeavesOne(Matching(old(ctx.records), q), Matching(ctx.records, q), found.value);
    }
  }

  /**
   * `update(id, keyPath, value, in:)` for a non-optional key path: false when
   * no record has the identity; otherwise the stored field of one record with
   * it is rewritten, and reading it back gives the value.
   */
  method Update(ctx: Context, m: Mapping, id: Scalar, key: Key, x: Scalar) returns (found: bool, ghost h: Handle)
    requires ctx.Valid() && WellFormed(m) && Typed(MappingIdField(m.attributes, m.idKey).codec, id)
    requires RequiredFieldAt(m, key) && Typed(AttributeFor(m.attributes, key).field.codec, x)
    modifies ctx
    ensures ctx.Valid()
    ensures ctx.model == old(ctx.model) && ctx.hasCoordinator == old(ctx.hasCoordinator) && ctx.committed == old(ctx.committed)
    ensures found <==> Matching(old(ctx.records), MappingIdRequest(m, id)) != {}
    ensures !found ==> ctx.records == old(ctx.records)
    ensures found ==> var f := AttributeFor(m.attributes, key).field;
              && h in Matching(old(ctx.records), MappingIdRequest(m, id))
              && ctx.records == old(ctx.records)[h := SetPrimitiveValue(old(ctx.records)[h], f.name, Some(Encode(f.codec, x)))]
              && DecodeFieldValue(f, m.entityName, ctx.records[h]) == Success(ScalarValue(x))
  {
    var managed := ctx.FetchOne(MappingIdRequest(m, id));
    h := if managed.Some? then managed.value else 0;
    if managed.Some? {
      UpdateValue(ctx, managed.value, m, key, x);
      found := true;
    } else {
      found := false;
    }
  }

  /** `update(id, keyPath, value, in:)` for an optional key path; nil clears the stored field. */
  method UpdateOptional(ctx: Context, m: Mapping, id: Scalar, key: Key, x: Option<Scalar>) returns (found: bool, ghost h: Handle)
    requires ctx.Valid() && WellFormed(m) && Typed(MappingIdField(m.attributes, m.idKey).codec, id)
    requires OptionalFieldAt(m, key) && (x.Some? ==> Typed(AttributeFor(m.attributes, key).field.codec, x.value))
    modifies ctx
    ensures ctx.Valid()
    ensures ctx.model == old(ctx.model) && ctx.hasCoordinator == old(ctx.hasCoordinator) && ctx.committed == old(ctx.committed)
    ensures found <==> Matching(old(ctx.records), MappingIdRequest(m, id)) != {}
    ensures !found ==> ctx.records == old(ctx.records)
    ensures found ==> var f := AttributeFor(m.attributes, key).field;
              && h in Matching(old(ctx.records), MappingIdRequest(m, id))
              && ctx.records == old(ctx.records)[h := SetPrimitiveValue(old(ctx.records)[h], f.name, EncodeOptional(f.codec, x))]
              && DecodeFieldValue(f, m.entityName, ctx.records[h]) == Success(OptionalValue(x))
  {
    var managed := ctx.FetchOne(MappingIdRequest(m, id));
    h := if managed.Some? then managed.value else 0;
    if managed.Some? {
      UpdateOptionalValue(ctx, managed.value, m, key, x);
      found := true;
    } else {
      found := false;
    }
  }

  /** `delete(_:in:)`: every record with the item's identity is deleted, and no other; none is left. */
  method Delete(ctx: Context, m: Mapping, p: Plain)
    requires ctx.Valid() && WellFormed(m) && Conforms(m, p)
    modifies ctx
    ensures ctx.Valid()
    ensures ctx.model == old(ctx.model) && ctx.hasCoordinator == old(ctx.hasCoordinator) && ctx.committed == old(ctx.committed)
    ensures ctx.records == old(ctx.records) - Matching(old(ctx.records), ItemRequest(m, p))
    ensures Matching(ctx.records, ItemRequest(m, p)) == {}
  {
    ctx.Delete(ItemRequest(m, p));
  }

  /**
   * `fetch(_:in:)`: the fetched records, each decoded by `init(from:)`, in the
   * fetch's order. All or nothing: the first record that fails to decode makes
   * the whole fetch fail with its error.
   */
  method Fetch(ctx: Context, m: Mapping, q: Request) returns (r: Result<seq<Plain>, AttributeError>, ghost hs: seq<Handle>)
    ensures Distinct(hs) && forall i :: 0 <= i < |hs| ==> hs[i] in Matching(ctx.records, q)
    ensures q.limit.None? ==> forall h :: h in Matching(ctx.records, q) ==> h in hs
    ensures q.limit.Some? ==> |hs| == Min(q.limit.value, |Matching(ctx.records, q)|)
    ensures r.Success? <==> forall i :: 0 <= i < |hs| ==> DecodeAll(m.entityName, m.attributes, ctx.records, ctx.records[hs[i]], m.defaults).Success?
    ensures r.Success? ==> |r.value| == |hs|
    ensures r.Success? ==>
              forall i :: 0 <= i < |hs| ==> DecodeAll(m.entityName, m.attributes, ctx.records, ctx.records[hs[i]], m.defaults) == Success(r.value[i])
    ensures r.Failure? ==> exists i ::
              && 0 <= i < |hs|
              && DecodeAll(m.entityName, m.attributes, ctx.records, ctx.records[hs[i]], m.defaults) == Failure(r.error)
              && forall j :: 0 <= j < i ==> DecodeAll(m.entityName, m.attributes, ctx.records, ctx.records[hs[j]], m.defaults).Success?
  {
    var items := ctx.Fetch(q);
    hs := items;
    var objects: seq<Plain> := [];
    for i := 0 to |items|
      invariant |objects| == i
      invariant forall j :: 0 <= j < i ==> DecodeAll(m.entityName, m.attributes, ctx.records, ctx.records[items[j]], m.defaults) == Success(objects[j])
    {
      var d := InitFrom(ctx, m, items[i]);
      if d.Failure? {
        r := Failure(d.error);
        return;
      }
      objects := objects + [d.value];
    }
    r := Success(objects);
  }
}
