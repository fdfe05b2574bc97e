/**
 * A managed object context over an abstract store
 * (NSManagedObjectContext+Operations.swift): inserting a record of a named
 * entity, fetching, fetching one, deleting what a request matches, and the
 * save / reset pair the unit of work uses.
 */
module Store {
  import opened Wrappers
  import opened Records

  /** The store's refusal to persist a unit of work. */
  datatype SaveError = SaveError

  function Min(a: nat, b: nat): nat {
    if a <= b then a else b
  }

  class Context {
    /** The context's working set: every record it sees, pending changes included. */
    var records: map<Handle, Record>
    /** The state last persisted; `reset()` returns the working set to it. */
    var committed: map<Handle, Record>
    /** Handles below `next` have been used. */
    var next: Handle
    /** Whether the context is attached to a persistent store coordinator. */
    var hasCoordinator: bool
    /** The managed object model: entities by name. */
    var model: map<string, EntityDescription>

    ghost predicate Valid()
      reads this
    {
      Consistent(records, model, next) && Consistent(committed, model, next)
    }

    constructor (hasCoordinator: bool, model: map<string, EntityDescription>)
      ensures Valid()
      ensures records == map[] && committed == map[] && next == 0
      ensures this.hasCoordinator == hasCoordinator && this.model == model
    {
      records, committed, next := map[], map[], 0;
      this.hasCoordinator, this.model := hasCoordinator, model;
    }

    /**
     * `hasChanges`: some record was inserted, deleted or changed since the
     * last save, judged by comparing the working set with what was persisted.
     */
    predicate HasChanges()
      reads this
      ensures HasChanges() <==>
                exists h :: (h in records && h !in committed) || (h in committed && h !in records)
                            || (h in records && h in committed && records[h] != committed[h])
    {
      records != committed
    }

    /**
     * `insert(entity:)`: nil without a coordinator or when the model has no
     * entity of that name; otherwise a new, empty record in the context.
     */
    method InsertEntity(name: string) returns (h: Option<Handle>)
      requires Valid()
      modifies this
      ensures Valid()
      ensures model == old(model) && hasCoordinator == old(hasCoordinator) && committed == old(committed)
      ensures old(next) <= next
      ensures h.None? <==> !hasCoordinator || name !in model
      ensures h.None? ==> records == old(records) && next == old(next)
      ensures h.Some? ==> h.value !in old(records) && old(next) <= h.value < next
      ensures h.Some? ==> records == old(records)[h.value := NewRecord(name, model[name])]
    {
      if !hasCoordinator || name !in model {
        return None;
      }
      ConsistentWithNew(records, model, next, name);
      ConsistentWithNew(committed, model, next, name);
      ConsistentWithout(committed[next := NewRecord(name, model[name])], model, next + 1, {next});
      assert committed[next := NewRecord(name, model[name])] - {next} == committed;
      records := records[next := NewRecord(name, model[name])];
      h := Some(next);
      next := next + 1;
    }

    /**
     * `fetch(request)`: the matching records, each once, in an order the store
     * chooses; with a limit, only that many of them.
     */
    method Fetch(q: Request) returns (hs: seq<Handle>)
      ensures Distinct(hs)
      ensures forall i :: 0 <= i < |hs| ==> hs[i] in Matching(records, q)
      ensures q.limit.None? ==> forall h :: h in Matching(records, q) ==> h in hs
      ensures q.limit.Some? ==> |hs| == Min(q.limit.value, |Matching(records, q)|)
    {
      var matching := Matching(records, q);
      var remaining := matching;
      hs := [];
      while remaining != {} && (q.limit.None? || |hs| < q.limit.value)
        invariant remaining <= matching
        invariant Distinct(hs)
        invariant forall i :: 0 <= i < |hs| ==> hs[i] in matching && hs[i] !in remaining
        invariant forall h :: h in matching ==> h in remaining || h in hs
        invariant |remaining| == |matching| - |hs|
        invariant q.limit.Some? ==> |hs| <= q.limit.value
        decreases remaining
      {
        var h :| h in remaining;
        hs := hs + [h];
        remaining := remaining - {h};
      }
    }

    /** `fetchOne(request)`: the first result of the request limited to one; nil exactly when nothing matches. */
    method FetchOne(q: Request) returns (h: Option<Handle>)
      ensures h.None? <==> Matching(records, q) == {}
      ensures h.Some? ==> h.value in Matching(records, q)
    {
      assert Matching(records, Limited(q, 1)) == Matching(records, q);
      var hs := Fetch(Limited(q, 1));
      if |hs| == 0 {
        h := None;
      } else {
        h := Some(hs[0]);
      }
    }

    /** Core Data's `delete(_:)` of one object: the record leaves the working set. */
    method DeleteObject(h: Handle)
      requires Valid()
      modifies this
      ensures Valid()
      ensures records == old(records) - {h}
      ensures committed == old(committed) && next == old(next)
      ensures model == old(model) && hasCoordinator == old(hasCoordinator)
    {
      ConsistentWithout(records, model, next, {h});
      records := records - {h};
    }

    /**
     * The loop of `delete(request)`: each of the distinct live records `hs`
     * is deleted in turn, and nothing else.
     */
    method DeleteAll(hs: seq<Handle>)
      requires Valid()
      requires Distinct(hs) && forall k :: 0 <= k < |hs| ==> hs[k] in records
      modifies this
      ensures Valid()
      ensures committed == old(committed) && next == old(next)
      ensures model == old(model) && hasCoordinator == old(hasCoordinator)
      ensures forall h :: h in records ==> h in old(records) && records[h] == old(records)[h]
      ensures forall h :: h in old(records) ==> (h in records <==> h !in hs)
      ensures |old(records).Keys - records.Keys| == |hs|
    {
      ghost var gone: set<Handle> := {};
      var i := 0;
      while i < |hs|
        invariant 0 <= i <= |hs|
        invariant gone <= old(records).Keys && |gone| == i
        invariant forall h :: h in gone ==> h in hs
        invariant forall k :: 0 <= k < i ==> hs[k] in gone
        invariant forall k :: i <= k < |hs| ==> hs[k] !in gone
        invariant records == old(records) - gone
        invariant Valid() && committed == old(committed) && next == old(next)
        invariant model == old(model) && hasCoordinator == old(hasCoordinator)
      {
        DeleteObject(hs[i]);
        gone := gone + {hs[i]};
        i := i + 1;
      }
      assert old(records).Keys - records.Keys == gone;
    }

    /** `delete(request)`: every record the request fetches is deleted, and no other. */
    method Delete(q: Request)
      requires Valid()
      modifies this
      ensures Valid()
      ensures model == old(model) && hasCoordinator == old(hasCoordinator)
      ensures committed == old(committed) && next == old(next)
      ensures records.Keys <= old(records).Keys
      ensures forall h :: h in records ==> records[h] == old(records)[h]
      ensures forall h :: h in old(records) && h !in Matching(old(records), q) ==> h in records
      ensures old(records).Keys - records.Keys <= Matching(old(records), q)
      ensures q.limit.None? ==> records == old(records) - Matching(old(records), q)
      ensures q.limit.Some? ==> |old(records).Keys - records.Keys| == Min(q.limit.value, |Matching(old(records), q)|)
    {
      var items := Fetch(q);
      DeleteAll(items);
    }

    /**
     * `save()`: persists the working set, unless the store refuses, in which
     * case nothing changes and the error is thrown. Whether the store refuses
     * is the store's business; the model takes it as given.
     */
    method Save(refused: bool) returns (r: Outcome<SaveError>)
      requires Valid()
      modifies this
      ensures Valid()
      ensures records == old(records) && model == old(model) && hasCoordinator == old(hasCoordinator) && next == old(next)
      ensures r.Fail? <==> refused
      ensures committed == if refused then old(committed) else records
    {
      if refused {
        return Fail(SaveError);
      }
      committed := records;
      r := Pass;
    }

    /** `reset()`: the working set is discarded; what was persisted is what remains. */
    method Reset()
      requires Valid()
      modifies this
      ensures Valid()
      ensures records == committed && committed == old(committed)
      ensures model == old(model) && hasCoordinator == old(hasCoordinator) && next == old(next)
    {
      records := committed;
    }
  }
}
