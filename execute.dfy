// The unit of work of NSManagedObjectContext+Execute.swift: run an action on
// the context, save when it left changes, and reset the context on every
// path. The actions are the database client's operations.

module Execute {
  import opened Wrappers
  import opened Values
  import opened Records
  import opened Attributes
  import opened Store
  import opened Convertible
  import opened ManagedObject
  import opened Client

  /** The closures the database client schedules on a context. */
  datatype Action =
    | InsertItem(m: Mapping, item: Plain)
    | UpdateItem(m: Mapping, id: Scalar, key: Key, x: Scalar)
    | UpdateOptionalItem(m: Mapping, id: Scalar, key: Key, ox: Option<Scalar>)
    | DeleteItem(m: Mapping, item: Plain)
    | FetchItems(m: Mapping, q: Request)

  /** What an action returns: nothing, whether an update found its record, or the fetched objects. */
  datatype ActionValue = Done | Updated(found: bool) | Objects(objects: seq<Plain>)

  /** Why `execute` throws: the action threw, or the save did. */
  datatype ExecuteError = ActionFailed(error: AttributeError) | SaveFailed(saveError: SaveError)

  /** What each client operation demands of its arguments, given the context's model. */
  predicate ActionReady(model: map<string, EntityDescription>, a: Action) {
    match a
    case InsertItem(m, p) => WellFormed(m) && Declared(model, m) && Conforms(m, p) && OrderedIdsDistinct(m, p)
    case UpdateItem(m, id, key, x) =>
      && WellFormed(m) && Typed(MappingIdField(m.attributes, m.idKey).codec, id)
      && RequiredFieldAt(m, key) && Typed(AttributeFor(m.attributes, key).field.codec, x)
    case UpdateOptionalItem(m, id, key, ox) =>
      && WellFormed(m) && Typed(MappingIdField(m.attributes, m.idKey).codec, id)
      && OptionalFieldAt(m, key) && (ox.Some? ==> Typed(AttributeFor(m.attributes, key).field.codec, ox.value))
    case DeleteItem(m, p) => WellFormed(m) && Conforms(m, p)
    case FetchItems(_, _) => true
  }

  // ---- what each action does, between the working sets `r0` before and `r1` after ----

  /**
   * The upsert (Client.Insert), with `h` the record it reused or created:
   * none exactly without a coordinator and a match, and then nothing changes
   * and nothing is thrown; otherwise the identity's matches gain that record
   * and lose none, and a failure is a relation attribute's error.
   */
  ghost predicate Inserted(model: map<string, EntityDescription>, hasCoordinator: bool, m: Mapping, p: Plain,
                           r0: map<Handle, Record>, v: Result<ActionValue, AttributeError>, r1: map<Handle, Record>, h: Option<Handle>)
    requires WellFormed(m) && Conforms(m, p)
  {
    var q := ItemRequest(m, p);
    && (v.Success? ==> v.value == Done)
    && (h.None? <==> !hasCoordinator && Matching(r0, q) == {})
    && (h.None? ==> v.Success? && r1 == r0)
    && (h.Some? ==>
          && h.value in r1 && r1[h.value].entity == m.entityName
          && (Matching(r0, q) != {} ==> h.value in Matching(r0, q))
          && (Matching(r0, q) == {} ==> h.value !in r0)
          && Confined(r0, r1, h.value, Targets(m.attributes))
          && Matching(r1, q) - {h.value} == Matching(r0, q) - {h.value}
          && (v.Success? ==> EncodedBefore(m, p, r1, h.value, |m.attributes|) && Matching(r1, q) == Matching(r0, q) + {h.value})
          && (v.Failure? ==> exists b :: b in m.attributes && b.IsRelation() && RelationError(b, m.entityName, v.error, hasCoordinator, model)))
  }

  /** `update(id, key, x)` (Client.Update): the one record `h` with the identity, if any, gets the field rewritten. */
  ghost predicate UpdatedRequired(m: Mapping, id: Scalar, key: Key, x: Scalar,
                                  r0: map<Handle, Record>, v: Result<ActionValue, AttributeError>, r1: map<Handle, Record>, h: Handle)
    requires WellFormed(m) && Typed(MappingIdField(m.attributes, m.idKey).codec, id)
    requires RequiredFieldAt(m, key) && Typed(AttributeFor(m.attributes, key).field.codec, x)
  {
    var f := AttributeFor(m.attributes, key).field;
    && v.Success? && v.value.Updated?
    && (v.value.found <==> Matching(r0, MappingIdRequest(m, id)) != {})
    && (!v.value.found ==> r1 == r0)
    && (v.value.found ==>
          && h in Matching(r0, MappingIdRequest(m, id))
          && r1 == r0[h := SetPrimitiveValue(r0[h], f.name, Some(Encode(f.codec, x)))]
          && DecodeFieldValue(f, m.entityName, r1[h]) == Success(ScalarValue(x)))
  }

  /** The optional `update(id, key, x)` (Client.UpdateOptional); nil clears the field. */
  ghost predicate UpdatedOptional(m: Mapping, id: Scalar, key: Key, x: Option<Scalar>,
                                  r0: map<Handle, Record>, v: Result<ActionValue, AttributeError>, r1: map<Handle, Record>, h: Handle)
    requires WellFormed(m) && Typed(MappingIdField(m.attributes, m.idKey).codec, id)
    requires OptionalFieldAt(m, key) && (x.Some? ==> Typed(AttributeFor(m.attributes, key).field.codec, x.value))
  {
    var f := AttributeFor(m.attributes, key).field;
    && v.Success? && v.value.Updated?
    && (v.value.found <==> Matching(r0, MappingIdRequest(m, id)) != {})
    && (!v.value.found ==> r1 == r0)
    && (v.value.found ==>
          && h in Matching(r0, MappingIdRequest(m, id))
          && r1 == r0[h := SetPrimitiveValue(r0[h], f.name, EncodeOptional(f.codec, x))]
          && DecodeFieldValue(f, m.entityName, r1[h]) == Success(OptionalValue(x)))
  }

  /**
   * `fetch(q)` (Client.Fetch), with `hs` the fetched records in fetch order:
   * the objects they decode to, or the error of the first that fails.
   */
  ghost predicate FetchedAll(m: Mapping, q: Request, records: map<Handle, Record>, v: Result<ActionValue, AttributeError>, hs: seq<Handle>) {
    && Distinct(hs) && (forall i :: 0 <= i < |hs| ==> hs[i] in Matching(records, q))
    && (q.limit.None? ==> forall t :: t in Matching(records, q) ==> t in hs)
    && (q.limit.Some? ==> |hs| == Min(q.limit.value, |Matching(records, q)|))
    && (v.Success? ==>
          && v.value.Objects? && |v.value.objects| == |hs|
          && forall i :: 0 <= i < |hs| ==> DecodeAll(m.entityName, m.attributes, records, records[hs[i]], m.defaults) == Success(v.value.objects[i]))
    && (v.Failure? ==> exists i ::
          && 0 <= i < |hs|
          && DecodeAll(m.entityName, m.attributes, records, records[hs[i]], m.defaults) == Failure(v.error)
          && forall j :: 0 <= j < i ==> DecodeAll(m.entityName, m.attributes, records, records[hs[j]], m.defaults).Success?)
  }

  /** What action `a` returns (`v`) and leaves in the working set (`r1`), starting from `r0`. */
  ghost predicate Performed(model: map<string, EntityDescription>, hasCoordinator: bool, r0: map<Handle, Record>, a: Action,
                            v: Result<ActionValue, AttributeError>, r1: map<Handle, Record>)
    requires ActionReady(model, a)
  {
    match a
    case InsertItem(m, p) => exists h :: Inserted(model, hasCoordinator, m, p, r0, v, r1, h)
    case UpdateItem(m, id, key, x) => exists h :: UpdatedRequired(m, id, key, x, r0, v, r1, h)
    case UpdateOptionalItem(m, id, key, ox) => exists h :: UpdatedOptional(m, id, key, ox, r0, v, r1, h)
    case DeleteItem(m, p) => v == Success(Done) && r1 == r0 - Matching(r0, ItemRequest(m, p))
    case FetchItems(m, q) => r1 == r0 && exists hs :: FetchedAll(m, q, r0, v, hs)
  }

  /** `action(self)`: one client operation, which returns and leaves what `Performed` says of it; only the working set changes. */
  method Perform(ctx: Context, a: Action) returns (r: Result<ActionValue, AttributeError>)
    requires ctx.Valid() && ActionReady(ctx.model, a)
    modifies ctx
    ensures ctx.Valid()
    ensures ctx.model == old(ctx.model) && ctx.hasCoordinator == old(ctx.hasCoordinator) && ctx.committed == old(ctx.committed)
    ensures Performed(ctx.model, ctx.hasCoordinator, old(ctx.records), a, r, ctx.records)
  {
    match a
    case InsertItem(m, p) =>
      ghost var h;
      var o;
      o, h := Client.Insert(ctx, m, p);
      r := if o.Pass? then Success(Done) else Failure(o.error);
      assert Inserted(ctx.model, ctx.hasCoordinator, m, p, old(ctx.records), r, ctx.records, h);
    case UpdateItem(m, id, key, x) =>
      ghost var h;
      var found;
      found, h := Client.Update(ctx, m, id, key, x);
      r := Success(Updated(found));
      assert UpdatedRequired(m, id, key, x, old(ctx.records), r, ctx.records, h);
    case UpdateOptionalItem(m, id, key, ox) =>
      ghost var h;
      var found;
      found, h := Client.UpdateOptional(ctx, m, id, key, ox);
      r := Success(Updated(found));
      assert UpdatedOptional(m, id, key, ox, old(ctx.records), r, ctx.records, h);
    case DeleteItem(m, p) =>
      Client.Delete(ctx, m, p);
      r := Success(Done);
    case FetchItems(m, q) =>
      ghost var hs;
      var objects;
      objects, hs := Client.Fetch(ctx, m, q);
      r := if objects.Success? then Success(Objects(objects.value)) else Failure(objects.error);
      assert FetchedAll(m, q, ctx.records, r, hs);
  }

  /**
   * `execute(action)`. The action runs to `done` and leaves `worked` as its
   * working set, as `Performed` says. The unit of work is atomic: what is persisted
   * afterwards is either what was persisted before or the whole working set
   * the action left, and the working set is reset to it on every path. An
   * action that throws persists nothing and its error is rethrown; one that
   * leaves no changes saves nothing; otherwise the save persists the working
   * set, or throws and persists nothing. Whether the store refuses the save
   * is given as `refused`.
   */
  method Run(ctx: Context, a: Action, refused: bool)
    returns (r: Result<ActionValue, ExecuteError>, ghost done: Result<ActionValue, AttributeError>, ghost worked: map<Handle, Record>)
    requires ctx.Valid() && ActionReady(ctx.model, a)
    modifies ctx
    ensures ctx.Valid() && ctx.records == ctx.committed
    ensures ctx.model == old(ctx.model) && ctx.hasCoordinator == old(ctx.hasCoordinator)
    ensures Performed(ctx.model, ctx.hasCoordinator, old(ctx.records), a, done, worked)
    ensures done.Failure? ==> r == Failure(ActionFailed(done.error)) && ctx.committed == old(ctx.committed)
    ensures done.Success? && worked == old(ctx.committed) ==> r == Success(done.value) && ctx.committed == old(ctx.committed)
    ensures done.Success? && worked != old(ctx.committed) && refused ==>
              r == Failure(SaveFailed(SaveError)) && ctx.committed == old(ctx.committed)
    ensures done.Success? && worked != old(ctx.committed) && !refused ==> r == Success(done.value) && ctx.committed == worked
  {
    var value := Perform(ctx, a);
    done := value;
    worked := ctx.records;
    if value.Failure? {
      ctx.Reset();
      return Failure(ActionFailed(value.error)), done, worked;
    }
    if ctx.HasChanges() {
      var saved := ctx.Save(refused);
      if saved.Fail? {
        assert saved.error.SaveError?;
        ctx.Reset();
        return Failure(SaveFailed(saved.error)), done, worked;
      }
    }
    ctx.Reset();
    r := Success(value.value);
  }
}
