/**
 * The encode closures of the three relationship attributes (Attribute.swift):
 * every related object is matched with a record (a member of the relationship
 * with its identity, else a stored record with its identity, else a new one),
 * linked and updated; then members whose identity no object has are unlinked.
 */
module Relations {
  import opened Wrappers
  import opened Values
  import opened Records
  import opened Attributes
  import opened Store

  /** Where a related object's record was looked for among a relationship's records. */
  datatype Lookup = Found(handle: Handle) | Missing | Failed(error: AttributeError)

  /** The live record `t` decodes to an object with the identity of `o`. */
  predicate IsFor(target: FlatMapping, records: map<Handle, Record>, t: Handle, o: Plain) {
    && t in records
    && DecodeFlat(target, records[t]).Success?
    && Id(target.idKey, DecodeFlat(target, records[t]).value) == Id(target.idKey, o)
  }

  /**
   * `managedObjects.compactMap { … }.first { try Relation(from: $0).id == object.id }`
   * over an unordered relationship, visited in an order the set chooses: the
   * first member that decodes with the object's identity, or the error of a
   * member that fails to decode before one is found.
   */
  method FindMember(target: FlatMapping, records: map<Handle, Record>, ms: set<Handle>, o: Plain) returns (l: Lookup)
    ensures l.Found? ==> l.handle in ms && IsFor(target, records, l.handle, o)
    ensures l.Missing? ==> forall t :: t in ms && t in records ==>
              DecodeFlat(target, records[t]).Success? && !IsFor(target, records, t, o)
    ensures l.Failed? ==> exists t :: t in ms && t in records && DecodeFlat(target, records[t]) == Failure(l.error)
  {
    var rest := ms;
    while rest != {}
      invariant rest <= ms
      invariant forall t :: t in ms - rest && t in records ==>
                  DecodeFlat(target, records[t]).Success? && !IsFor(target, records, t, o)
      decreases rest
    {
      var t :| t in rest;
      rest := rest - {t};
      if t in records {
        match DecodeFlat(target, records[t]) {
          case Failure(e) => return Failed(e);
          case Success(p) =>
            if Id(target.idKey, p) == Id(target.idKey, o) {
              return Found(t);
            }
        }
      }
    }
    return Missing;
  }

  /** Every live record among the first `n` of `es` decodes, and none to the identity of `o`. */
  predicate Passed(target: FlatMapping, records: map<Handle, Record>, es: seq<Handle>, n: nat, o: Plain)
    requires n <= |es|
  {
    forall j :: 0 <= j < n && es[j] in records ==> DecodeFlat(target, records[es[j]]).Success? && !IsFor(target, records, es[j], o)
  }

  /**
   * The same search over an ordered relationship, in its order, from position
   * `i` on (`FindElement` starts at 0).
   */
  function FindFrom(target: FlatMapping, records: map<Handle, Record>, es: seq<Handle>, o: Plain, i: nat): (l: Lookup)
    requires i <= |es| && Passed(target, records, es, i, o)
    ensures l.Found? ==> exists j :: i <= j < |es| && es[j] == l.handle && IsFor(target, records, es[j], o) && Passed(target, records, es, j, o)
    ensures l.Missing? ==> Passed(target, records, es, |es|, o)
    ensures l.Failed? ==> exists j :: i <= j < |es| && es[j] in records && DecodeFlat(target, records[es[j]]) == Failure(l.error) && Passed(target, records, es, j, o)
    decreases |es| - i
  {
    if i == |es| then Missing
    else if es[i] !in records then
      assert Passed(target, records, es, i + 1, o);
      FindFrom(target, records, es, o, i + 1)
    else
      match DecodeFlat(target, records[es[i]])
      case Failure(e) => Failed(e)
      case Success(p) =>
        if Id(target.idKey, p) == Id(target.idKey, o) then
          assert IsFor(target, records, es[i], o);
          Found(es[i])
        else
          assert Passed(target, records, es, i + 1, o);
          FindFrom(target, records, es, o, i + 1)
  }

  /** `first` over an ordered relationship: the first element with the object's identity, unless one before it fails to decode. */
  function FindElement(target: FlatMapping, records: map<Handle, Record>, es: seq<Handle>, o: Plain): (l: Lookup)
    ensures l.Found? ==> exists j :: 0 <= j < |es| && es[j] == l.handle && IsFor(target, records, es[j], o) && Passed(target, records, es, j, o)
    ensures l.Missing? ==> Passed(target, records, es, |es|, o)
    ensures l.Failed? ==> exists j :: 0 <= j < |es| && es[j] in records && DecodeFlat(target, records[es[j]]) == Failure(l.error) && Passed(target, records, es, j, o)
  {
    FindFrom(target, records, es, o, 0)
  }

  /**
   * After the search: the member found; else `fetchOne` of the request for the
   * object's identity; else `insert(entity:)`. None when all three come up empty.
   */
  method Resolve(ctx: Context, target: FlatMapping, o: Plain, l: Lookup) returns (k: Option<Handle>)
    requires ctx.Valid() && WellFormedFlat(target) && FlatConforms(target, o) && !l.Failed?
    requires l.Found? ==> l.handle in ctx.records && ctx.records[l.handle].entity == target.entityName
    modifies ctx
    ensures ctx.Valid()
    ensures ctx.model == old(ctx.model) && ctx.hasCoordinator == old(ctx.hasCoordinator) && ctx.committed == old(ctx.committed)
    ensures old(ctx.next) <= ctx.next
    ensures k.Some? ==> k.value in ctx.records && ctx.records[k.value].entity == target.entityName
    ensures l.Found? ==> k == Some(l.handle) && ctx.records == old(ctx.records)
    ensures l.Missing? && Matching(old(ctx.records), ObjectIdRequest(target, o)) != {} ==>
              && k.Some? && k.value in Matching(old(ctx.records), ObjectIdRequest(target, o))
              && ctx.records == old(ctx.records)
    ensures l.Missing? && Matching(old(ctx.records), ObjectIdRequest(target, o)) == {} ==>
              && (k.None? <==> !ctx.hasCoordinator || target.entityName !in ctx.model)
              && (k.None? ==> ctx.records == old(ctx.records))
              && (k.Some? ==> (k.value !in old(ctx.records) &&
                   ctx.records == old(ctx.records)[k.value := NewRecord(target.entityName, ctx.model[target.entityName])]))
  {
    if l.Found? {
      return Some(l.handle);
    }
    k := ctx.FetchOne(ObjectIdRequest(target, o));
    if k.None? {
      k := ctx.InsertEntity(target.entityName);
    }
  }

  // ---- removing records from an ordered relationship ----

  /** The sequence without the handles in `gone` (`NSMutableOrderedSet.remove` of each). */
  function Without(s: seq<Handle>, gone: set<Handle>): (r: seq<Handle>)
    ensures forall x :: x in r <==> x in s && x !in gone
    ensures |r| <= |s|
    ensures Distinct(s) ==> Distinct(r)
    decreases |s|
  {
    if |s| == 0 then []
    else
      var rest := Without(s[1..], gone);
      assert forall x :: x in s <==> x == s[0] || x in s[1..];
      if s[0] in gone then rest
      else
        assert Distinct(s) ==> Distinct(s[1..]) by {
          if Distinct(s) {
            forall i, j | 0 <= i < j < |s[1..]| ensures s[1..][i] != s[1..][j] {
              assert s[1..][i] == s[i + 1] && s[1..][j] == s[j + 1];
            }
          }
        }
        [s[0]] + rest
  }

  lemma {:induction false} WithoutAppend(a: seq<Handle>, b: seq<Handle>, gone: set<Handle>)
    ensures Without(a + b, gone) == Without(a, gone) + Without(b, gone)
    decreases |a|
  {
    if |a| == 0 {
      assert a + b == b;
    } else {
      assert (a + b)[0] == a[0] && (a + b)[1..] == a[1..] + b;
      WithoutAppend(a[1..], b, gone);
    }
  }

  lemma {:induction false} WithoutNone(s: seq<Handle>, gone: set<Handle>)
    requires forall x :: x in s ==> x !in gone
    ensures Without(s, gone) == s
    decreases |s|
  {
    if |s| > 0 {
      assert forall x :: x in s[1..] ==> x in s;
      WithoutNone(s[1..], gone);
    }
  }

  lemma {:induction false} WithoutTwice(s: seq<Handle>, a: set<Handle>, b: set<Handle>)
    ensures Without(Without(s, a), b) == Without(s, a + b)
    decreases |s|
  {
    if |s| > 0 {
      WithoutTwice(s[1..], a, b);
      if s[0] !in a {
        assert Without(s, a) == [s[0]] + Without(s[1..], a);
        assert Without(s, a)[1..] == Without(s[1..], a);
      }
    }
  }

  /** Only the handles of `s` in `a` and `b` matter. */
  lemma {:induction false} WithoutSame(s: seq<Handle>, a: set<Handle>, b: set<Handle>)
    requires forall x :: x in s ==> (x in a <==> x in b)
    ensures Without(s, a) == Without(s, b)
    decreases |s|
  {
    if |s| > 0 {
      assert forall x :: x in s[1..] ==> x in s;
      WithoutSame(s[1..], a, b);
    }
  }

  // ---- which members the second pass unlinks ----

  /** The identities of the objects being encoded. */
  function WantedIds(target: FlatMapping, objects: set<Plain>): set<Option<Value>> {
    set o | o in objects :: Id(target.idKey, o)
  }

  /**
   * A member the second pass removes: a live record that decodes, to an
   * identity no encoded object has. Members that fail to decode are skipped
   * (`try?`), and so kept.
   */
  predicate Unwanted(target: FlatMapping, wanted: set<Option<Value>>, records: map<Handle, Record>, t: Handle) {
    && t in records
    && DecodeFlat(target, records[t]).Success?
    && Id(target.idKey, DecodeFlat(target, records[t]).value) !in wanted
  }

  /** `insert(entity:)` can give a new record of the related entity: a coordinator is attached and the model declares the entity. */
  predicate CanCreate(hasCoordinator: bool, model: map<string, EntityDescription>, target: FlatMapping) {
    hasCoordinator && target.entityName in model
  }

  /**
   * Why a relationship encode may fail: no record could be had for an
   * object, which needs that no new record can be created (`creatable` is
   * false), or a member of the relationship as it was failed to decode.
   */
  ghost predicate FailureExplained(e: AttributeError, name: string, entity: string, target: FlatMapping,
                                   records: map<Handle, Record>, members: set<Handle>, creatable: bool)
  {
    (e == FailedToEncodeRelation(name, entity) && !creatable) ||
    exists t :: t in members && t in records && DecodeFlat(target, records[t]) == Failure(e)
  }

  /**
   * The relationship `name` of `owner` is declared in the model with this kind
   * and the related type's entity as destination, and the related type is not
   * the owner's own entity.
   */
  predicate Ready(ctx: Context, owner: Handle, name: string, kind: LinkKind, target: FlatMapping)
    reads ctx
  {
    && owner in ctx.records
    && ctx.records[owner].entity in ctx.model
    && name in ctx.model[ctx.records[owner].entity]
    && ctx.model[ctx.records[owner].entity][name] == RelationshipDescription(kind, target.entityName)
    && name in ctx.records[owner].links && KindOf(ctx.records[owner].links[name]) == kind
    && target.entityName != ctx.records[owner].entity
    && WellFormedFlat(target)
  }

  /** A reused record held an object only if that object has `o`'s identity. */
  lemma ReusedHasIdentity(target: FlatMapping, records: map<Handle, Record>, k: Handle, o: Plain, p: Plain)
    requires WellFormedFlat(target) && FlatConforms(target, o)
    requires k in records && Holds(target, p, records[k])
    requires IsFor(target, records, k, o) || k in Matching(records, ObjectIdRequest(target, o))
    ensures Id(target.idKey, p) == Id(target.idKey, o)
  {
    if IsFor(target, records, k, o) {
      HoldsDecodes(target, p, records[k]);
    } else {
      MatchesSameId(target, p, o, records[k]);
    }
  }

  /**
   * Setting relationship `name` of record `h` (`mutableSetValue(forKey:)`,
   * `mutableOrderedSetValue(forKey:)` or `setValue(_:forKey:)`): a link of
   * the declared kind to records of the destination entity.
   */
  method SetLink(ctx: Context, h: Handle, name: string, l: Link)
    requires ctx.Valid() && h in ctx.records
    requires name in ctx.records[h].links && KindOf(l) == KindOf(ctx.records[h].links[name])
    requires ctx.records[h].entity in ctx.model && name in ctx.model[ctx.records[h].entity]
    requires l.OrderedLink? ==> Distinct(l.elements)
    requires forall t :: t in Linked(l) ==>
               t < ctx.next && (t in ctx.records ==> ctx.records[t].entity == ctx.model[ctx.records[h].entity][name].destination)
    modifies ctx
    ensures ctx.Valid()
    ensures ctx.model == old(ctx.model) && ctx.hasCoordinator == old(ctx.hasCoordinator)
    ensures ctx.committed == old(ctx.committed) && ctx.next == old(ctx.next)
    ensures ctx.records == old(ctx.records)[h := old(ctx.records)[h].(links := old(ctx.records)[h].links[name := l])]
  {
    ConsistentWithLink(ctx.records, ctx.model, ctx.next, h, name, l);
    ctx.records := ctx.records[h := ctx.records[h].(links := ctx.records[h].links[name := l])];
  }

  /** `managed.update(object)` for a related (flat) object: its encode, onto record `k`. */
  method UpdateRelated(ctx: Context, k: Handle, target: FlatMapping, o: Plain)
    requires ctx.Valid() && k in ctx.records && WellFormedFlat(target) && FlatConforms(target, o)
    modifies ctx
    ensures ctx.Valid()
    ensures ctx.model == old(ctx.model) && ctx.hasCoordinator == old(ctx.hasCoordinator)
    ensures ctx.committed == old(ctx.committed) && ctx.next == old(ctx.next)
    ensures ctx.records == old(ctx.records)[k := EncodeFlat(target, o, old(ctx.records)[k])]
    ensures Holds(target, o, ctx.records[k])
  {
    var updated := EncodeFlat(target, o, ctx.records[k]);
    ConsistentWithFields(ctx.records, ctx.model, ctx.next, k, updated);
    EncodeFlatHolds(target, o, ctx.records[k]);
    ctx.records := ctx.records[k := updated];
  }

  /**
   * Finding or creating the record for related object `o`, given the search
   * among the relationship's records.
   */
  method Locate(ctx: Context, owner: Handle, entity: string, name: string, kind: LinkKind, target: FlatMapping, o: Plain, l: Lookup)
    returns (r: Result<Handle, AttributeError>)
    requires ctx.Valid() && Ready(ctx, owner, name, kind, target) && FlatConforms(target, o)
    requires !l.Failed?
    requires l.Found? ==> l.handle in Linked(ctx.records[owner].links[name]) && IsFor(target, ctx.records, l.handle, o)
    modifies ctx
    ensures ctx.Valid() && ctx.model == old(ctx.model) && ctx.hasCoordinator == old(ctx.hasCoordinator) && ctx.committed == old(ctx.committed)
    ensures old(ctx.next) <= ctx.next && old(ctx.records).Keys <= ctx.records.Keys && owner in ctx.records
    ensures ctx.records[owner] == old(ctx.records[owner])
    ensures r.Failure? <==> l.Missing? && Matching(old(ctx.records), ObjectIdRequest(target, o)) == {} &&
                            !CanCreate(ctx.hasCoordinator, ctx.model, target)
    ensures r.Failure? ==> r.error == FailedToEncodeRelation(name, entity) && ctx.records == old(ctx.records)
    ensures r.Success? ==> r.value != owner && r.value in ctx.records && ctx.records[r.value].entity == target.entityName
    ensures r.Success? ==> r.value < ctx.next
    ensures r.Success? ==> (ctx.records == old(ctx.records) ||
              (r.value !in old(ctx.records) && target.entityName in ctx.model &&
               ctx.records == old(ctx.records)[r.value := NewRecord(target.entityName, ctx.model[target.entityName])]))
    ensures r.Success? && r.value in old(ctx.records) ==>
              IsFor(target, old(ctx.records), r.value, o) || r.value in Matching(old(ctx.records), ObjectIdRequest(target, o))
    ensures l.Found? ==> r == Success(l.handle)
    ensures r.Success? ==> forall t :: t in Linked(old(ctx.records[owner].links[name])) ==>
              t < ctx.next && (t in ctx.records ==> ctx.records[t].entity == target.entityName)
  {
    LinkedRecords(ctx.records, ctx.model, ctx.next, owner, name);
    var m := Resolve(ctx, target, o, l);
    if m.None? {
      return Failure(FailedToEncodeRelation(name, entity));
    }
    r := Success(m.value);
  }

  /** Creating record `y`, then updating records `x` and `y`, leaves the others as they were. */
  lemma OthersUnchanged(before: map<Handle, Record>, located: map<Handle, Record>, after: map<Handle, Record>,
                        x: Handle, y: Handle, u: Record, v: Record)
    requires located == before || (y in located && located == before[y := located[y]])
    requires after == located[x := u][y := v]
    ensures after - {x, y} == before - {x, y}
  {
  }

  /** `managedObjects.add(managed)` followed by `managed.update(object)`. */
  method AddAndUpdate(ctx: Context, owner: Handle, name: string, target: FlatMapping, k: Handle, o: Plain)
    requires ctx.Valid() && Ready(ctx, owner, name, ToManyKind, target) && FlatConforms(target, o)
    requires k != owner && k in ctx.records && ctx.records[k].entity == target.entityName && k < ctx.next
    requires forall t :: t in Linked(ctx.records[owner].links[name]) ==>
               t < ctx.next && (t in ctx.records ==> ctx.records[t].entity == target.entityName)
    modifies ctx
    ensures ctx.Valid() && Ready(ctx, owner, name, ToManyKind, target)
    ensures ctx.model == old(ctx.model) && ctx.hasCoordinator == old(ctx.hasCoordinator)
    ensures ctx.committed == old(ctx.committed) && ctx.next == old(ctx.next)
    ensures ctx.records == old(ctx.records)
              [owner := old(ctx.records[owner]).(links := old(ctx.records[owner].links)[name := ToManyLink(old(ctx.records[owner].links[name].members) + {k})])]
              [k := EncodeFlat(target, o, old(ctx.records[k]))]
    ensures Holds(target, o, ctx.records[k])
  {
    SetLink(ctx, owner, name, ToManyLink(ctx.records[owner].links[name].members + {k}));
    UpdateRelated(ctx, k, target, o);
  }

  /**
   * One iteration of the first pass of the to-many encode: find or create the
   * object's record, `add` it to the relationship, then `update` it with the
   * object. Fails, changing nothing, when a member fails to decode during the
   * search, or with `failedToEncodeRelation` when no record can be had.
   */
  method PlaceOne(ctx: Context, owner: Handle, entity: string, name: string, target: FlatMapping, o: Plain)
    returns (r: Outcome<AttributeError>, ghost k: Handle)
    requires ctx.Valid() && Ready(ctx, owner, name, ToManyKind, target) && FlatConforms(target, o)
    modifies ctx
    ensures ctx.Valid() && Ready(ctx, owner, name, ToManyKind, target)
    ensures ctx.model == old(ctx.model) && ctx.hasCoordinator == old(ctx.hasCoordinator) && ctx.committed == old(ctx.committed)
    ensures old(ctx.next) <= ctx.next && old(ctx.records).Keys <= ctx.records.Keys
    ensures r.Fail? ==> ctx.records == old(ctx.records)
    ensures r.Fail? ==> FailureExplained(r.error, name, entity, target, old(ctx.records), old(ctx.records[owner].links[name].members),
                                         CanCreate(ctx.hasCoordinator, ctx.model, target))
    ensures r.Pass? ==> ctx.records[owner] == old(ctx.records[owner]).(links := old(ctx.records[owner].links)[name :=
              ToManyLink(old(ctx.records[owner].links[name].members) + {k})])
    ensures r.Pass? ==> k != owner && k in ctx.records && ctx.records[k].entity == target.entityName && Holds(target, o, ctx.records[k])
    ensures r.Pass? ==> ctx.records - {owner, k} == old(ctx.records) - {owner, k}
    ensures r.Pass? && k in old(ctx.records) ==> forall p :: Holds(target, p, old(ctx.records)[k]) ==> Id(target.idKey, p) == Id(target.idKey, o)
    ensures r.Pass? && k in old(ctx.records) ==> old(ctx.records)[k].entity == target.entityName
  {
    var rec := ctx.records[owner];
    var members := rec.links[name].members;
    LinkedRecords(ctx.records, ctx.model, ctx.next, owner, name);
    var l := FindMember(target, ctx.records, members, o);
    if l.Failed? {
      return Fail(l.error), owner;
    }
    ghost var before := ctx.records;
    var m := Locate(ctx, owner, entity, name, ToManyKind, target, o, l);
    if m.Failure? {
      return Fail(m.error), owner;
    }
    var managed := m.value;
    k := managed;
    ghost var located := ctx.records;
    AddAndUpdate(ctx, owner, name, target, managed, o);
    OthersUnchanged(before, located, ctx.records, owner, k, ctx.records[owner], ctx.records[k]);
    forall p | k in before && Holds(target, p, before[k]) ensures Id(target.idKey, p) == Id(target.idKey, o) {
      ReusedHasIdentity(target, before, k, o, p);
    }
    r := Pass;
  }

  lemma FrameAt(a: map<Handle, Record>, b: map<Handle, Record>, s: set<Handle>, t: Handle)
    requires a - s == b - s && t !in s
    ensures t in a <==> t in b
    ensures t in a ==> a[t] == b[t]
  {
    assert t in a <==> t in a - s;
    assert t in b <==> t in b - s;
    if t in a {
      assert (a - s)[t] == a[t] && (b - s)[t] == b[t];
    }
  }

  lemma Narrow(a: map<Handle, Record>, b: map<Handle, Record>, c: map<Handle, Record>, s: set<Handle>, t: set<Handle>, u: set<Handle>)
    requires a - s == b - s && c - t == a - t && s <= u && t <= u
    ensures c - u == b - u
  {
    forall x | x !in u ensures (x in c <==> x in b) && (x in c ==> c[x] == b[x]) {
      FrameAt(a, b, s, x);
      FrameAt(c, a, t, x);
    }
  }

  /**
   * The bookkeeping of the first pass between the records `r0` before it and
   * `r` now: only the owner and the records in `held` changed; each placed
   * object's record carries its identity; each touched record holds, and
   * decodes, the object last written to it.
   */
  ghost predicate Placement(target: FlatMapping, objects: set<Plain>, r0: map<Handle, Record>, r: map<Handle, Record>,
                            owner: Handle, placed: map<Plain, Handle>, held: map<Handle, Plain>)
  {
    && r - ({owner} + held.Keys) == r0 - ({owner} + held.Keys)
    && placed.Keys <= objects
    && Identified(target, placed, held)
    && HeldBy(target, r, owner, placed, held)
    && Sourced(target, r0, held)
  }

  /** Each touched record that existed before the first pass was already of the related entity. */
  ghost predicate Sourced(target: FlatMapping, r0: map<Handle, Record>, held: map<Handle, Plain>) {
    forall t :: t in held && t in r0 ==> r0[t].entity == target.entityName
  }

  /** Each placed object's record was last updated with an object of the same identity. */
  ghost predicate Identified(target: FlatMapping, placed: map<Plain, Handle>, held: map<Handle, Plain>) {
    forall o :: o in placed ==> placed[o] in held && Id(target.idKey, held[placed[o]]) == Id(target.idKey, o)
  }

  /**
   * Each touched record is live, is not the owner, is of the related entity,
   * is the record of the object it holds, and holds it.
   */
  ghost predicate HeldBy(target: FlatMapping, r: map<Handle, Record>, owner: Handle, placed: map<Plain, Handle>, held: map<Handle, Plain>) {
    forall t :: t in held ==>
      && t != owner && t in r && r[t].entity == target.entityName && held[t] in placed && placed[held[t]] == t
      && Holds(target, held[t], r[t])
  }

  /** Updating a map at `x` adds `x` to its keys. */
  lemma KeysAfter<K, V>(m: map<K, V>, x: K, v: V)
    ensures m[x := v].Keys == m.Keys + {x}
  {
  }

  lemma PlacementStep(target: FlatMapping, objects: set<Plain>, r0: map<Handle, Record>, before: map<Handle, Record>,
                      after: map<Handle, Record>, owner: Handle, placed: map<Plain, Handle>, held: map<Handle, Plain>,
                      o: Plain, k: Handle)
    requires Placement(target, objects, r0, before, owner, placed, held)
    requires o in objects && o !in placed
    requires after - {owner, k} == before - {owner, k}
    requires k != owner && k in after && after[k].entity == target.entityName && Holds(target, o, after[k])
    requires k in before ==> forall p :: Holds(target, p, before[k]) ==> Id(target.idKey, p) == Id(target.idKey, o)
    requires k in before ==> before[k].entity == target.entityName
    ensures Placement(target, objects, r0, after, owner, placed[o := k], held[k := o])
  {
    var placed', held' := placed[o := k], held[k := o];
    KeysAfter(held, k, o);
    Narrow(before, r0, after, {owner} + held.Keys, {owner, k}, {owner} + held'.Keys);
    IdentitiesStep(target, placed, held, placed', held', o, k, owner, before);
    HeldStep(target, placed, held, placed', held', o, k, owner, before, after);
    SourcedStep(target, r0, before, owner, held, o, k);
  }

  /** A record the step touches for the first time was of the related entity before the first pass, if it existed. */
  lemma SourcedStep(target: FlatMapping, r0: map<Handle, Record>, before: map<Handle, Record>, owner: Handle,
                    held: map<Handle, Plain>, o: Plain, k: Handle)
    requires Sourced(target, r0, held) && before - ({owner} + held.Keys) == r0 - ({owner} + held.Keys)
    requires k != owner && (k in before ==> before[k].entity == target.entityName)
    ensures Sourced(target, r0, held[k := o])
  {
    if k !in held {
      FrameAt(before, r0, {owner} + held.Keys, k);
    }
  }

  /** After the step, each placed object's record still carries its identity. */
  lemma IdentitiesStep(target: FlatMapping, placed: map<Plain, Handle>, held: map<Handle, Plain>,
                       placed': map<Plain, Handle>, held': map<Handle, Plain>, o: Plain, k: Handle, owner: Handle,
                       before: map<Handle, Record>)
    requires placed' == placed[o := k] && held' == held[k := o]
    requires Identified(target, placed, held) && HeldBy(target, before, owner, placed, held)
    requires k in before ==> forall p :: Holds(target, p, before[k]) ==> Id(target.idKey, p) == Id(target.idKey, o)
    ensures Identified(target, placed', held')
  {
    forall q | q in placed' ensures placed'[q] in held' && Id(target.idKey, held'[placed'[q]]) == Id(target.idKey, q) {
      if q != o && placed[q] == k {
        assert Holds(target, held[k], before[k]);
        assert Id(target.idKey, held[k]) == Id(target.idKey, q);
      }
    }
  }

  /** After the step, each touched record holds the object last written to it. */
  lemma HeldStep(target: FlatMapping, placed: map<Plain, Handle>, held: map<Handle, Plain>,
                 placed': map<Plain, Handle>, held': map<Handle, Plain>, o: Plain, k: Handle, owner: Handle,
                 before: map<Handle, Record>, after: map<Handle, Record>)
    requires placed' == placed[o := k] && held' == held[k := o]
    requires HeldBy(target, before, owner, placed, held)
    requires o !in placed
    requires after - {owner, k} == before - {owner, k}
    requires k != owner && k in after && after[k].entity == target.entityName && Holds(target, o, after[k])
    ensures HeldBy(target, after, owner, placed', held')
  {
    forall t | t in held' ensures
      && t != owner && t in after && after[t].entity == target.entityName && held'[t] in placed' && placed'[held'[t]] == t
      && Holds(target, held'[t], after[t])
    {
      if t != k {
        FrameAt(after, before, {owner, k}, t);
        assert held[t] in placed && held[t] != o;
      }
    }
  }

  /** Adding `k` to the members of relationship `name`, twice over, is adding both sets. */
  lemma AddedMembers(rec0: Record, before: Record, after: Record, name: string, m0: set<Handle>, h: set<Handle>, k: Handle)
    requires before == rec0.(links := rec0.links[name := ToManyLink(m0 + h)])
    requires after == before.(links := before.links[name := ToManyLink(before.links[name].members + {k})])
    ensures after == rec0.(links := rec0.links[name := ToManyLink(m0 + (h + {k}))])
  {
    assert before.links[name].members + {k} == m0 + (h + {k});
    assert before.links[name := ToManyLink(m0 + (h + {k}))] == rec0.links[name := ToManyLink(m0 + (h + {k}))];
  }

  /** A record that failed to decode during the first pass was not touched by it. */
  lemma PlacementUntouched(target: FlatMapping, objects: set<Plain>, r0: map<Handle, Record>, r: map<Handle, Record>,
                           owner: Handle, placed: map<Plain, Handle>, held: map<Handle, Plain>, t: Handle)
    requires Placement(target, objects, r0, r, owner, placed, held)
    requires t != owner && t in r && DecodeFlat(target, r[t]).Failure?
    ensures t !in held && t in r0 && r0[t] == r[t]
  {
    if t in held {
      HoldsDecodes(target, held[t], r[t]);
    }
    FrameAt(r, r0, {owner} + held.Keys, t);
  }

  /** A failure of one iteration, explained against the records before the whole first pass. */
  lemma FailureBeforePass(error: AttributeError, name: string, entity: string, target: FlatMapping, objects: set<Plain>,
                          r0: map<Handle, Record>, m0: set<Handle>, r: map<Handle, Record>, owner: Handle,
                          placed: map<Plain, Handle>, held: map<Handle, Plain>, creatable: bool)
    requires owner in r0 && name in r0[owner].links && owner in r
    requires r[owner] == r0[owner].(links := r0[owner].links[name := ToManyLink(m0 + held.Keys)])
    requires Placement(target, objects, r0, r, owner, placed, held)
    requires FailureExplained(error, name, entity, target, r, r[owner].links[name].members, creatable)
    requires forall t :: t in r[owner].links[name].members ==> t != owner
    ensures FailureExplained(error, name, entity, target, r0, m0, creatable)
  {
    if !(error == FailedToEncodeRelation(name, entity) && !creatable) {
      var t :| t in r[owner].links[name].members && t in r && DecodeFlat(target, r[t]) == Failure(error);
      PlacementUntouched(target, objects, r0, r, owner, placed, held, t);
      assert t in m0 && t in r0 && DecodeFlat(target, r0[t]) == Failure(error);
    }
  }

  /** The bookkeeping of one successful iteration: `o` placed at `k`. */
  lemma PlacedNext(target: FlatMapping, objects: set<Plain>, r0: map<Handle, Record>, m0: set<Handle>,
                   before: map<Handle, Record>, after: map<Handle, Record>, owner: Handle, name: string,
                   placed: map<Plain, Handle>, held: map<Handle, Plain>, o: Plain, k: Handle)
    requires owner in r0 && name in r0[owner].links && owner in before && owner in after
    requires before[owner] == r0[owner].(links := r0[owner].links[name := ToManyLink(m0 + held.Keys)])
    requires Placement(target, objects, r0, before, owner, placed, held)
    requires o in objects && o !in placed
    requires after[owner] == before[owner].(links := before[owner].links[name := ToManyLink(before[owner].links[name].members + {k})])
    requires after - {owner, k} == before - {owner, k}
    requires k != owner && k in after && after[k].entity == target.entityName && Holds(target, o, after[k])
    requires k in before ==> forall p :: Holds(target, p, before[k]) ==> Id(target.idKey, p) == Id(target.idKey, o)
    requires k in before ==> before[k].entity == target.entityName
    ensures after[owner] == r0[owner].(links := r0[owner].links[name := ToManyLink(m0 + held[k := o].Keys)])
    ensures Placement(target, objects, r0, after, owner, placed[o := k], held[k := o])
    ensures placed[o := k].Keys == placed.Keys + {o}
  {
    PlacementStep(target, objects, r0, before, after, owner, placed, held, o, k);
    AddedMembers(r0[owner], before[owner], after[owner], name, m0, held.Keys, k);
    KeysAfter(held, k, o);
    KeysAfter(placed, o, k);
  }

  /** One iteration of the first pass, with its bookkeeping: object `o` placed. */
  method PlaceNext(ctx: Context, owner: Handle, entity: string, name: string, target: FlatMapping, objects: set<Plain>, o: Plain,
                   ghost r0: map<Handle, Record>, ghost m0: set<Handle>, ghost placed: map<Plain, Handle>, ghost held: map<Handle, Plain>)
    returns (r: Outcome<AttributeError>, ghost placed': map<Plain, Handle>, ghost held': map<Handle, Plain>)
    requires ctx.Valid() && Ready(ctx, owner, name, ToManyKind, target)
    requires o in objects && o !in placed && FlatConforms(target, o)
    requires owner in r0 && name in r0[owner].links
    requires ctx.records[owner] == r0[owner].(links := r0[owner].links[name := ToManyLink(m0 + held.Keys)])
    requires Placement(target, objects, r0, ctx.records, owner, placed, held)
    modifies ctx
    ensures ctx.Valid() && Ready(ctx, owner, name, ToManyKind, target)
    ensures ctx.model == old(ctx.model) && ctx.hasCoordinator == old(ctx.hasCoordinator) && ctx.committed == old(ctx.committed)
    ensures old(ctx.next) <= ctx.next && old(ctx.records).Keys <= ctx.records.Keys
    ensures r.Pass? ==> placed'.Keys == placed.Keys + {o}
    ensures ctx.records[owner] == r0[owner].(links := r0[owner].links[name := ToManyLink(m0 + held'.Keys)])
    ensures Placement(target, objects, r0, ctx.records, owner, placed', held')
    ensures r.Fail? ==> FailureExplained(r.error, name, entity, target, r0, m0, CanCreate(ctx.hasCoordinator, ctx.model, target))
  {
    ghost var before := ctx.records;
    LinkedRecords(ctx.records, ctx.model, ctx.next, owner, name);
    ghost var k;
    r, k := PlaceOne(ctx, owner, entity, name, target, o);
    placed', held' := placed, held;
    if r.Fail? {
      FailureBeforePass(r.error, name, entity, target, objects, r0, m0, before, owner, placed, held,
                        CanCreate(ctx.hasCoordinator, ctx.model, target));
    } else {
      PlacedNext(target, objects, r0, m0, before, ctx.records, owner, name, placed, held, o, k);
      placed', held' := placed[o := k], held[k := o];
    }
  }

  /** Placing `o` moves it from the remaining objects to the placed ones. */
  lemma Done(objects: set<Plain>, remaining: set<Plain>, placed: set<Plain>, o: Plain)
    requires remaining <= objects && o in remaining && placed == (objects - remaining) + {o}
    ensures remaining - {o} <= objects && placed == objects - (remaining - {o})
  {
  }

  /**
   * The first pass of the to-many encode: every object placed in turn, in an
   * order the set chooses. `placed` gives each object's record and `held` the
   * object each touched record was last updated with.
   */
  method PlaceAll(ctx: Context, owner: Handle, entity: string, name: string, target: FlatMapping, objects: set<Plain>)
    returns (r: Outcome<AttributeError>, ghost placed: map<Plain, Handle>, ghost held: map<Handle, Plain>)
    requires ctx.Valid() && Ready(ctx, owner, name, ToManyKind, target)
    requires forall o :: o in objects ==> FlatConforms(target, o)
    modifies ctx
    ensures ctx.Valid() && Ready(ctx, owner, name, ToManyKind, target)
    ensures ctx.model == old(ctx.model) && ctx.hasCoordinator == old(ctx.hasCoordinator) && ctx.committed == old(ctx.committed)
    ensures old(ctx.next) <= ctx.next && old(ctx.records).Keys <= ctx.records.Keys
    ensures ctx.records[owner] == old(ctx.records[owner]).(links := old(ctx.records[owner].links)[name :=
              ToManyLink(old(ctx.records[owner].links[name].members) + held.Keys)])
    ensures r.Fail? ==> FailureExplained(r.error, name, entity, target, old(ctx.records), old(ctx.records[owner].links[name].members),
                                         CanCreate(ctx.hasCoordinator, ctx.model, target))
    ensures r.Pass? ==> placed.Keys == objects
    ensures Placement(target, objects, old(ctx.records), ctx.records, owner, placed, held)
  {
    var remaining := objects;
    placed, held := map[], map[];
    r := Pass;
    ghost var r0 := ctx.records;
    ghost var m0 := ctx.records[owner].links[name].members;
    assert ctx.records[owner] == r0[owner].(links := r0[owner].links[name := ToManyLink(m0 + held.Keys)]) by {
      assert r0[owner].links[name] == ToManyLink(m0 + held.Keys);
      assert r0[owner].links == r0[owner].links[name := ToManyLink(m0 + held.Keys)];
    }
    while remaining != {}
      invariant r.Pass?
      invariant remaining <= objects && placed.Keys == objects - remaining
      invariant ctx.Valid() && Ready(ctx, owner, name, ToManyKind, target)
      invariant ctx.model == old(ctx.model) && ctx.hasCoordinator == old(ctx.hasCoordinator) && ctx.committed == old(ctx.committed)
      invariant old(ctx.next) <= ctx.next && r0.Keys <= ctx.records.Keys
      invariant ctx.records[owner] == r0[owner].(links := r0[owner].links[name := ToManyLink(m0 + held.Keys)])
      invariant Placement(target, objects, r0, ctx.records, owner, placed, held)
      decreases remaining
    {
      var o :| o in remaining;
      r, placed, held := PlaceNext(ctx, owner, entity, name, target, objects, o, r0, m0, placed, held);
      if r.Fail? {
        return;
      }
      Done(objects, remaining, placed.Keys, o);
      remaining := remaining - {o};
    }
  }

  // ---- the second pass of the to-many encode ----

  /** The members of `ms` the second pass keeps: those not unwanted. */
  function Kept(target: FlatMapping, wanted: set<Option<Value>>, records: map<Handle, Record>, ms: set<Handle>): (k: set<Handle>)
    ensures k <= ms
    ensures forall t :: t in ms ==> (t in k <==> !Unwanted(target, wanted, records, t))
  {
    set t | t in ms && !Unwanted(target, wanted, records, t)
  }

  /** Visiting member `t` keeps it or drops it. */
  lemma KeptStep(target: FlatMapping, wanted: set<Option<Value>>, records: map<Handle, Record>,
                 copy: set<Handle>, rest: set<Handle>, t: Handle)
    requires rest <= copy && t in rest
    ensures Kept(target, wanted, records, copy - (rest - {t})) + (rest - {t}) ==
              if Unwanted(target, wanted, records, t) then (Kept(target, wanted, records, copy - rest) + rest) - {t}
              else Kept(target, wanted, records, copy - rest) + rest
  {
    var a := Kept(target, wanted, records, copy - (rest - {t}));
    var b := Kept(target, wanted, records, copy - rest);
    assert a == if Unwanted(target, wanted, records, t) then b else b + {t};
  }

  /** Replacing the members, twice over, is replacing them once. */
  lemma Relinked(r1: map<Handle, Record>, before: map<Handle, Record>, after: map<Handle, Record>,
                 owner: Handle, name: string, cur: set<Handle>, cur': set<Handle>)
    requires owner in r1
    requires before == r1[owner := r1[owner].(links := r1[owner].links[name := ToManyLink(cur)])]
    requires after == before[owner := before[owner].(links := before[owner].links[name := ToManyLink(cur')])]
    ensures after == r1[owner := r1[owner].(links := r1[owner].links[name := ToManyLink(cur')])]
  {
    assert before[owner].links[name := ToManyLink(cur')] == r1[owner].links[name := ToManyLink(cur')];
  }

  /**
   * The second pass of the to-many encode: over a copy of the members, each
   * member that decodes to an identity in `wanted` stays, each other one that
   * decodes is removed, each that fails to decode is skipped.
   */
  method PruneUnwanted(ctx: Context, owner: Handle, name: string, target: FlatMapping, wanted: set<Option<Value>>)
    requires ctx.Valid() && Ready(ctx, owner, name, ToManyKind, target)
    modifies ctx
    ensures ctx.Valid() && Ready(ctx, owner, name, ToManyKind, target)
    ensures ctx.model == old(ctx.model) && ctx.hasCoordinator == old(ctx.hasCoordinator)
    ensures ctx.committed == old(ctx.committed) && ctx.next == old(ctx.next)
    ensures ctx.records == old(ctx.records)[owner := old(ctx.records[owner]).(links := old(ctx.records[owner].links)[name :=
              ToManyLink(Kept(target, wanted, old(ctx.records), old(ctx.records[owner].links[name].members)))])]
  {
    ghost var r1 := ctx.records;
    var copy := ctx.records[owner].links[name].members;
    LinkedRecords(ctx.records, ctx.model, ctx.next, owner, name);
    assert owner !in copy;
    var rest := copy;
    ghost var cur := copy;
    assert r1 == r1[owner := r1[owner].(links := r1[owner].links[name := ToManyLink(cur)])] by {
      assert r1[owner].links == r1[owner].links[name := ToManyLink(cur)];
    }
    while rest != {}
      invariant ctx.Valid() && Ready(ctx, owner, name, ToManyKind, target)
      invariant ctx.model == old(ctx.model) && ctx.hasCoordinator == old(ctx.hasCoordinator)
      invariant ctx.committed == old(ctx.committed) && ctx.next == old(ctx.next)
      invariant rest <= copy && cur == Kept(target, wanted, r1, copy - rest) + rest
      invariant ctx.records == r1[owner := r1[owner].(links := r1[owner].links[name := ToManyLink(cur)])]
      decreases rest
    {
      var t :| t in rest;
      KeptStep(target, wanted, r1, copy, rest, t);
      rest := rest - {t};
      assert t != owner;
      if Unwanted(target, wanted, ctx.records, t) {
        ghost var before := ctx.records;
        LinkedRecords(ctx.records, ctx.model, ctx.next, owner, name);
        SetLink(ctx, owner, name, ToManyLink(ctx.records[owner].links[name].members - {t}));
        Relinked(r1, before, ctx.records, owner, name, cur, cur - {t});
        cur := cur - {t};
      }
    }
    assert copy - rest == copy;
    assert cur == Kept(target, wanted, r1, copy);
  }

  // ---- the to-many encode ----

  /** No two of the objects share an identity. */
  predicate DistinctIds(target: FlatMapping, objects: set<Plain>) {
    forall a, b :: a in objects && b in objects && Id(target.idKey, a) == Id(target.idKey, b) ==> a == b
  }

  /** `q` has the value of `o` for every attribute of the related type. */
  predicate Agrees(target: FlatMapping, q: Plain, o: Plain) {
    forall f :: f in target.fields ==> Get(q, f.key) == Get(o, f.key)
  }

  /** The records the first pass touched are exactly those of the placed objects. */
  lemma HeldArePlaced(target: FlatMapping, r: map<Handle, Record>, owner: Handle, placed: map<Plain, Handle>, held: map<Handle, Plain>)
    requires Identified(target, placed, held) && HeldBy(target, r, owner, placed, held)
    ensures held.Keys == placed.Values
  {
    forall t | t in held ensures t in placed.Values {
      assert placed[held[t]] == t;
    }
  }

  /** A live member that decodes to the last object written to it is wanted. */
  lemma HeldWanted(target: FlatMapping, objects: set<Plain>, r: map<Handle, Record>, owner: Handle,
                   placed: map<Plain, Handle>, held: map<Handle, Plain>, t: Handle)
    requires placed.Keys <= objects && HeldBy(target, r, owner, placed, held) && t in held
    ensures !Unwanted(target, WantedIds(target, objects), r, t)
  {
    HoldsDecodes(target, held[t], r[t]);
    assert held[t] in objects;
  }

  /** What the second pass leaves in the relationship, in terms of the records before the first. */
  lemma PrunedMembers(target: FlatMapping, objects: set<Plain>, r0: map<Handle, Record>, r1: map<Handle, Record>, owner: Handle,
                      m0: set<Handle>, placed: map<Plain, Handle>, held: map<Handle, Plain>)
    requires Placement(target, objects, r0, r1, owner, placed, held) && owner !in m0
    ensures Kept(target, WantedIds(target, objects), r1, m0 + held.Keys) ==
              placed.Values + Kept(target, WantedIds(target, objects), r0, m0 - placed.Values)
  {
    var wanted := WantedIds(target, objects);
    HeldArePlaced(target, r1, owner, placed, held);
    forall t | t in m0 + held.Keys
      ensures t in Kept(target, wanted, r1, m0 + held.Keys) <==> t in placed.Values + Kept(target, wanted, r0, m0 - placed.Values)
    {
      if t in held {
        HeldWanted(target, objects, r1, owner, placed, held, t);
      } else {
        FrameAt(r1, r0, {owner} + held.Keys, t);
      }
    }
  }

  /** The second pass changes only the owner, so the bookkeeping of the first still holds after it. */
  lemma PlacementAfterPrune(target: FlatMapping, objects: set<Plain>, r0: map<Handle, Record>, r1: map<Handle, Record>,
                            r2: map<Handle, Record>, owner: Handle, placed: map<Plain, Handle>, held: map<Handle, Plain>, rec: Record)
    requires Placement(target, objects, r0, r1, owner, placed, held) && r2 == r1[owner := rec]
    ensures Placement(target, objects, r0, r2, owner, placed, held)
  {
    assert r2 - ({owner} + held.Keys) == r1 - ({owner} + held.Keys);
  }

  /**
   * The encode closure of a to-many attribute (the first pass, then the
   * second). On success the relationship holds the records of the objects
   * and the members that were kept; on failure the changes made so far stay.
   */
  method EncodeToMany(ctx: Context, owner: Handle, entity: string, name: string, target: FlatMapping, objects: set<Plain>)
    returns (r: Outcome<AttributeError>, ghost placed: map<Plain, Handle>, ghost held: map<Handle, Plain>)
    requires ctx.Valid() && Ready(ctx, owner, name, ToManyKind, target)
    requires forall o :: o in objects ==> FlatConforms(target, o)
    modifies ctx
    ensures ctx.Valid() && Ready(ctx, owner, name, ToManyKind, target)
    ensures ctx.model == old(ctx.model) && ctx.hasCoordinator == old(ctx.hasCoordinator) && ctx.committed == old(ctx.committed)
    ensures old(ctx.next) <= ctx.next && old(ctx.records).Keys <= ctx.records.Keys
    ensures Placement(target, objects, old(ctx.records), ctx.records, owner, placed, held)
    ensures r.Fail? ==> FailureExplained(r.error, name, entity, target, old(ctx.records), old(ctx.records[owner].links[name].members),
                                         CanCreate(ctx.hasCoordinator, ctx.model, target))
    ensures r.Fail? ==> ctx.records[owner] == old(ctx.records[owner]).(links := old(ctx.records[owner].links)[name :=
              ToManyLink(old(ctx.records[owner].links[name].members) + held.Keys)])
    ensures r.Pass? ==> placed.Keys == objects
    ensures r.Pass? ==> ctx.records[owner] == old(ctx.records[owner]).(links := old(ctx.records[owner].links)[name :=
              ToManyLink(placed.Values + Kept(target, WantedIds(target, objects), old(ctx.records),
                                              old(ctx.records[owner].links[name].members) - placed.Values))])
  {
    LinkedRecords(ctx.records, ctx.model, ctx.next, owner, name);
    ghost var m0 := ctx.records[owner].links[name].members;
    assert owner !in m0;
    r, placed, held := PlaceAll(ctx, owner, entity, name, target, objects);
    if r.Fail? {
      return;
    }
    ghost var r1 := ctx.records;
    PruneUnwanted(ctx, owner, name, target, WantedIds(target, objects));
    PrunedMembers(target, objects, old(ctx.records), r1, owner, m0, placed, held);
    PlacementAfterPrune(target, objects, old(ctx.records), r1, ctx.records, owner, placed, held, ctx.records[owner]);
  }

  /**
   * The partner of the to-many encode: after it succeeds on objects with
   * distinct identities, each object's record is a member, holds the object,
   * and decodes to a value that agrees with it on every attribute.
   */
  lemma ToManyRepresents(target: FlatMapping, objects: set<Plain>, r0: map<Handle, Record>, r: map<Handle, Record>,
                         owner: Handle, members: set<Handle>, placed: map<Plain, Handle>, held: map<Handle, Plain>)
    requires Placement(target, objects, r0, r, owner, placed, held) && placed.Keys == objects
    requires DistinctIds(target, objects) && placed.Values <= members
    ensures forall o :: o in objects ==>
              && placed[o] in members && placed[o] in r && Holds(target, o, r[placed[o]])
              && DecodeFlat(target, r[placed[o]]).Success? && Agrees(target, DecodeFlat(target, r[placed[o]]).value, o)
    ensures forall o :: o in objects ==> exists q :: q in DecodedSet(target, r, members) && Agrees(target, q, o)
  {
    forall o | o in objects
      ensures && placed[o] in members && placed[o] in r && Holds(target, o, r[placed[o]])
              && DecodeFlat(target, r[placed[o]]).Success? && Agrees(target, DecodeFlat(target, r[placed[o]]).value, o)
      ensures exists q :: q in DecodedSet(target, r, members) && Agrees(target, q, o)
    {
      var t := placed[o];
      assert held[t] in objects && Id(target.idKey, held[t]) == Id(target.idKey, o);
      HoldsDecodes(target, o, r[t]);
      assert DecodeFlat(target, r[t]).value in DecodedSet(target, r, members);
    }
  }
}
