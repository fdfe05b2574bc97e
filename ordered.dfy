/**
 * The encode closure of an ordered to-many attribute (Attribute.swift): the
 * objects of an `OrderedSet`, in order, each matched with a record, moved to
 * its position in the relationship and updated; then the elements whose
 * identity no object has are removed.
 */
module OrderedRelations {
  import opened Wrappers
  import opened Values
  import opened Records
  import opened Attributes
  import opened Store
  import opened Relations

  /** The handles of a sequence, as a set. */
  function Elements(s: seq<Handle>): (e: set<Handle>)
    ensures forall x :: x in e <==> x in s
  {
    set x | x in s
  }

  /** No two of the objects, at different positions, share an identity. */
  predicate DistinctIdsInOrder(target: FlatMapping, objects: seq<Plain>) {
    forall i, j :: 0 <= i < j < |objects| ==> Id(target.idKey, objects[i]) != Id(target.idKey, objects[j])
  }

  // ---- one element ----

  /** The first `index` elements hold `prefix`, whose identities all differ from that of `o`. */
  ghost predicate PrefixHeld(target: FlatMapping, records: map<Handle, Record>, es: seq<Handle>, prefix: seq<Plain>, o: Plain)
    requires |prefix| <= |es|
  {
    forall j :: 0 <= j < |prefix| ==>
      es[j] in records && Holds(target, prefix[j], records[es[j]]) && Id(target.idKey, prefix[j]) != Id(target.idKey, o)
  }

  /** A record found for `o` (by the search or by the fetch) is none of the first `|prefix|` elements. */
  lemma NotInPrefix(target: FlatMapping, records: map<Handle, Record>, es: seq<Handle>, prefix: seq<Plain>, o: Plain, k: Handle)
    requires |prefix| <= |es| && PrefixHeld(target, records, es, prefix, o) && WellFormedFlat(target) && FlatConforms(target, o)
    requires k in records ==> IsFor(target, records, k, o) || k in Matching(records, ObjectIdRequest(target, o))
    ensures k !in es[..|prefix|]
  {
    if k in es[..|prefix|] {
      var j :| 0 <= j < |prefix| && es[j] == k;
      if IsFor(target, records, k, o) {
        HoldsDecodes(target, prefix[j], records[k]);
      } else {
        MatchesSameId(target, prefix[j], o, records[k]);
      }
    }
  }

  /** An element that fails to decode is not among the first `|prefix|`, which hold objects. */
  lemma FailureAfterPrefix(target: FlatMapping, records: map<Handle, Record>, es: seq<Handle>, prefix: seq<Plain>, o: Plain, j: int)
    requires |prefix| <= |es| && PrefixHeld(target, records, es, prefix, o)
    requires 0 <= j < |es| && es[j] in records && DecodeFlat(target, records[es[j]]).Failure?
    ensures es[j] in es[|prefix|..]
  {
    if j < |prefix| {
      HoldsDecodes(target, prefix[j], records[es[j]]);
    }
    assert es[j] == es[|prefix|..][j - |prefix|];
  }

  /** Removing a handle that is not among the first `index` elements leaves them in front. */
  lemma RemoveAfter(es: seq<Handle>, k: Handle, index: nat)
    requires index <= |es| && k !in es[..index]
    ensures var rest := Without(es, {k});
              index <= |rest| && rest[..index] == es[..index] && rest[index..] == Without(es[index..], {k})
    ensures k !in es ==> Without(es[index..], {k}) == es[index..]
  {
    assert es == es[..index] + es[index..];
    WithoutAppend(es[..index], es[index..], {k});
    WithoutNone(es[..index], {k});
    if k !in es {
      assert forall x :: x in es[index..] ==> x in es;
      WithoutNone(es[index..], {k});
    }
  }

  /** Inserting a handle that is not there keeps the elements distinct. */
  lemma InsertDistinct(es: seq<Handle>, k: Handle, index: nat)
    requires Distinct(es) && k !in es && index <= |es|
    ensures Distinct(es[..index] + [k] + es[index..])
    ensures Elements(es[..index] + [k] + es[index..]) == Elements(es) + {k}
  {
    var s := es[..index] + [k] + es[index..];
    assert es == es[..index] + es[index..];
    forall i, j | 0 <= i < j < |s| ensures s[i] != s[j] {
      if i < index && j > index {
        assert s[j] == es[j - 1];
      } else if i > index {
        assert s[i] == es[i - 1] && s[j] == es[j - 1];
      }
    }
  }

  /**
   * The elements after `if managedObjects.contains(managed) { managedObjects.remove(managed) }`
   * and `managedObjects.insert(managed, at: index)`.
   */
  function MovedTo(es: seq<Handle>, k: Handle, index: nat): seq<Handle>
    requires index <= |es| && k !in es[..index]
  {
    RemoveAfter(es, k, index);
    var rest := if k in es then Without(es, {k}) else es;
    rest[..index] + [k] + rest[index..]
  }

  /** Moving `k` to position `index`: the first `index` elements, then `k`, then the others without it. */
  lemma Moved(es: seq<Handle>, k: Handle, index: nat)
    requires index <= |es| && k !in es[..index]
    ensures MovedTo(es, k, index) == es[..index] + [k] + Without(es[index..], {k})
    ensures Distinct(es) ==> Distinct(MovedTo(es, k, index))
    ensures Linked(OrderedLink(MovedTo(es, k, index))) <= Linked(OrderedLink(es)) + {k}
  {
    RemoveAfter(es, k, index);
    var rest := if k in es then Without(es, {k}) else es;
    if Distinct(es) {
      InsertDistinct(rest, k, index);
    }
  }

  /** `managedObjects` moved, then `managed.update(object)`. */
  method MoveAndUpdate(ctx: Context, owner: Handle, name: string, target: FlatMapping, k: Handle, o: Plain, index: nat)
    requires ctx.Valid() && Ready(ctx, owner, name, OrderedKind, target) && FlatConforms(target, o)
    requires k != owner && k in ctx.records && ctx.records[k].entity == target.entityName && k < ctx.next
    requires index <= |ctx.records[owner].links[name].elements| && k !in ctx.records[owner].links[name].elements[..index]
    requires forall t :: t in Linked(ctx.records[owner].links[name]) ==>
               t < ctx.next && (t in ctx.records ==> ctx.records[t].entity == target.entityName)
    modifies ctx
    ensures ctx.Valid() && Ready(ctx, owner, name, OrderedKind, target)
    ensures ctx.model == old(ctx.model) && ctx.hasCoordinator == old(ctx.hasCoordinator)
    ensures ctx.committed == old(ctx.committed) && ctx.next == old(ctx.next)
    ensures ctx.records == old(ctx.records)
              [owner := old(ctx.records[owner]).(links := old(ctx.records[owner].links)[name :=
                 OrderedLink(MovedTo(old(ctx.records[owner].links[name].elements), k, index))])]
              [k := EncodeFlat(target, o, old(ctx.records[k]))]
    ensures Holds(target, o, ctx.records[k])
  {
    var es := ctx.records[owner].links[name].elements;
    LinkedRecords(ctx.records, ctx.model, ctx.next, owner, name);
    Moved(es, k, index);
    SetLink(ctx, owner, name, OrderedLink(MovedTo(es, k, index)));
    UpdateRelated(ctx, k, target, o);
  }

  /**
   * One iteration of the first pass: find or create the record of the object
   * at `index`, move it to that position and update it. `prefix` is the
   * objects already placed, held by the first `index` elements.
   */
  method PlaceOneOrdered(ctx: Context, owner: Handle, entity: string, name: string, target: FlatMapping, o: Plain,
                         index: nat, ghost prefix: seq<Plain>)
    returns (r: Outcome<AttributeError>, ghost k: Handle)
    requires ctx.Valid() && Ready(ctx, owner, name, OrderedKind, target) && FlatConforms(target, o)
    requires index == |prefix| <= |ctx.records[owner].links[name].elements|
    requires PrefixHeld(target, ctx.records, ctx.records[owner].links[name].elements, prefix, o)
    modifies ctx
    ensures ctx.Valid() && Ready(ctx, owner, name, OrderedKind, target)
    ensures ctx.model == old(ctx.model) && ctx.hasCoordinator == old(ctx.hasCoordinator) && ctx.committed == old(ctx.committed)
    ensures old(ctx.next) <= ctx.next && old(ctx.records).Keys <= ctx.records.Keys
    ensures r.Fail? ==> ctx.records == old(ctx.records)
    ensures r.Fail? ==> FailureExplained(r.error, name, entity, target, old(ctx.records),
                                         Elements(old(ctx.records[owner].links[name].elements)[index..]),
                                         CanCreate(ctx.hasCoordinator, ctx.model, target))
    ensures r.Pass? ==> k !in old(ctx.records[owner].links[name].elements)[..index]
    ensures r.Pass? ==> ctx.records[owner] == old(ctx.records[owner]).(links := old(ctx.records[owner].links)[name :=
              OrderedLink(MovedTo(old(ctx.records[owner].links[name].elements), k, index))])
    ensures r.Pass? ==> k != owner && k in ctx.records && ctx.records[k].entity == target.entityName && Holds(target, o, ctx.records[k])
    ensures r.Pass? ==> ctx.records - {owner, k} == old(ctx.records) - {owner, k}
    ensures r.Pass? && k in old(ctx.records) ==> old(ctx.records)[k].entity == target.entityName
  {
    var es := ctx.records[owner].links[name].elements;
    LinkedRecords(ctx.records, ctx.model, ctx.next, owner, name);
    var l := FindElement(target, ctx.records, es, o);
    if l.Failed? {
      ghost var j :| 0 <= j < |es| && es[j] in ctx.records && DecodeFlat(target, ctx.records[es[j]]) == Failure(l.error);
      FailureAfterPrefix(target, ctx.records, es, prefix, o, j);
      return Fail(l.error), owner;
    }
    ghost var before := ctx.records;
    var m := Locate(ctx, owner, entity, name, OrderedKind, target, o, l);
    if m.Failure? {
      return Fail(m.error), owner;
    }
    var managed := m.value;
    k := managed;
    NotInPrefix(target, before, es, prefix, o, k);
    ghost var located := ctx.records;
    MoveAndUpdate(ctx, owner, name, target, managed, o, index);
    OthersUnchanged(before, located, ctx.records, owner, k, ctx.records[owner], ctx.records[k]);
    r := Pass;
  }

  // ---- the first pass ----

  /** The first `|placed|` objects each hold their record, the placed records, in order. */
  ghost predicate HeldInOrder(target: FlatMapping, objects: seq<Plain>, r: map<Handle, Record>, owner: Handle, placed: seq<Handle>)
    requires |placed| <= |objects|
  {
    forall j :: 0 <= j < |placed| ==>
      placed[j] != owner && placed[j] in r && r[placed[j]].entity == target.entityName && Holds(target, objects[j], r[placed[j]])
  }

  /**
   * The bookkeeping of the ordered first pass between the records `r0` before
   * it and `r` now: only the owner and the placed records changed, and the
   * placed records are distinct and hold the objects in order.
   */
  ghost predicate OrderedPlacement(target: FlatMapping, objects: seq<Plain>, r0: map<Handle, Record>, r: map<Handle, Record>,
                                   owner: Handle, placed: seq<Handle>)
  {
    && |placed| <= |objects|
    && r - ({owner} + Elements(placed)) == r0 - ({owner} + Elements(placed))
    && Distinct(placed)
    && HeldInOrder(target, objects, r, owner, placed)
    && (forall t :: t in placed && t in r0 ==> r0[t].entity == target.entityName)
  }

  /** The elements during the first pass: the placed records, then the others in their old order. */
  function During(es0: seq<Handle>, placed: seq<Handle>): seq<Handle> {
    placed + Without(es0, Elements(placed))
  }

  /** Before an iteration, the placed records are the first elements and hold objects of other identities. */
  lemma PrefixReady(target: FlatMapping, objects: seq<Plain>, r0: map<Handle, Record>, r: map<Handle, Record>,
                    owner: Handle, placed: seq<Handle>, es0: seq<Handle>)
    requires |placed| < |objects| && OrderedPlacement(target, objects, r0, r, owner, placed)
    requires DistinctIdsInOrder(target, objects)
    ensures |placed| <= |During(es0, placed)| && During(es0, placed)[..|placed|] == placed
    ensures PrefixHeld(target, r, During(es0, placed), objects[..|placed|], objects[|placed|])
  {
    var es := During(es0, placed);
    assert es[..|placed|] == placed;
  }

  /** A failure of one iteration, explained against the records before the first pass. */
  lemma OrderedFailureBeforePass(error: AttributeError, name: string, entity: string, target: FlatMapping, objects: seq<Plain>,
                                 r0: map<Handle, Record>, es0: seq<Handle>, r: map<Handle, Record>, owner: Handle, placed: seq<Handle>,
                                 creatable: bool)
    requires OrderedPlacement(target, objects, r0, r, owner, placed) && owner !in es0
    requires FailureExplained(error, name, entity, target, r, Elements(During(es0, placed)[|placed|..]), creatable)
    ensures FailureExplained(error, name, entity, target, r0, Elements(es0), creatable)
  {
    if !(error == FailedToEncodeRelation(name, entity) && !creatable) {
      var t :| t in Elements(During(es0, placed)[|placed|..]) && t in r && DecodeFlat(target, r[t]) == Failure(error);
      assert During(es0, placed)[|placed|..] == Without(es0, Elements(placed));
      FrameAt(r, r0, {owner} + Elements(placed), t);
    }
  }

  /** Moving `k` behind the placed records appends it to them. */
  lemma DuringNext(es0: seq<Handle>, placed: seq<Handle>, k: Handle)
    requires |placed| <= |During(es0, placed)| && During(es0, placed)[..|placed|] == placed && k !in placed
    ensures MovedTo(During(es0, placed), k, |placed|) == During(es0, placed + [k])
  {
    var es := During(es0, placed);
    Moved(es, k, |placed|);
    assert es[|placed|..] == Without(es0, Elements(placed));
    WithoutTwice(es0, Elements(placed), {k});
    assert Elements(placed + [k]) == Elements(placed) + {k};
  }

  /** The frame and the held objects after one successful iteration. */
  lemma OrderedPlacementStep(target: FlatMapping, objects: seq<Plain>, r0: map<Handle, Record>,
                             before: map<Handle, Record>, after: map<Handle, Record>, owner: Handle, placed: seq<Handle>, k: Handle)
    requires OrderedPlacement(target, objects, r0, before, owner, placed) && |placed| < |objects| && k !in placed
    requires after - {owner, k} == before - {owner, k}
    requires k != owner && k in after && after[k].entity == target.entityName && Holds(target, objects[|placed|], after[k])
    requires k in before ==> before[k].entity == target.entityName
    ensures OrderedPlacement(target, objects, r0, after, owner, placed + [k])
  {
    var placed' := placed + [k];
    assert Elements(placed') == Elements(placed) + {k};
    Narrow(before, r0, after, {owner} + Elements(placed), {owner, k}, {owner} + Elements(placed'));
    if k in r0 {
      FrameAt(before, r0, {owner} + Elements(placed), k);
    }
    forall j | 0 <= j < |placed'|
      ensures placed'[j] != owner && placed'[j] in after && after[placed'[j]].entity == target.entityName
              && Holds(target, objects[j], after[placed'[j]])
    {
      if j < |placed| {
        assert placed'[j] == placed[j] && placed[j] != k;
        FrameAt(after, before, {owner, k}, placed[j]);
      }
    }
  }

  /** The bookkeeping of one successful iteration: the next object placed at `k`. */
  lemma OrderedPlacedNext(target: FlatMapping, objects: seq<Plain>, r0: map<Handle, Record>, es0: seq<Handle>,
                          before: map<Handle, Record>, after: map<Handle, Record>, owner: Handle, name: string,
                          placed: seq<Handle>, k: Handle)
    requires owner in r0 && name in r0[owner].links && owner in before && owner in after
    requires before[owner] == r0[owner].(links := r0[owner].links[name := OrderedLink(During(es0, placed))])
    requires OrderedPlacement(target, objects, r0, before, owner, placed) && |placed| < |objects|
    requires |placed| <= |During(es0, placed)| && During(es0, placed)[..|placed|] == placed && k !in placed
    requires after[owner] == before[owner].(links := before[owner].links[name := OrderedLink(MovedTo(During(es0, placed), k, |placed|))])
    requires after - {owner, k} == before - {owner, k}
    requires k != owner && k in after && after[k].entity == target.entityName && Holds(target, objects[|placed|], after[k])
    requires k in before ==> before[k].entity == target.entityName
    ensures after[owner] == r0[owner].(links := r0[owner].links[name := OrderedLink(During(es0, placed + [k]))])
    ensures OrderedPlacement(target, objects, r0, after, owner, placed + [k])
  {
    DuringNext(es0, placed, k);
    var l := OrderedLink(During(es0, placed + [k]));
    assert before[owner].links[name := l] == r0[owner].links[name := l];
    OrderedPlacementStep(target, objects, r0, before, after, owner, placed, k);
  }

  /** Before the first iteration, the elements are as they were. */
  lemma NothingPlaced(r0: map<Handle, Record>, owner: Handle, name: string)
    requires owner in r0 && name in r0[owner].links && r0[owner].links[name].OrderedLink?
    ensures r0[owner] == r0[owner].(links := r0[owner].links[name := OrderedLink(During(r0[owner].links[name].elements, []))])
  {
    var es0 := r0[owner].links[name].elements;
    WithoutNone(es0, {});
    assert Elements([]) == {} && During(es0, []) == es0;
    assert r0[owner].links == r0[owner].links[name := OrderedLink(es0)];
  }

  /** One iteration of the ordered first pass, with its bookkeeping. */
  method PlaceNextOrdered(ctx: Context, owner: Handle, entity: string, name: string, target: FlatMapping, objects: seq<Plain>,
                          index: nat, ghost r0: map<Handle, Record>, ghost es0: seq<Handle>, ghost placed: seq<Handle>)
    returns (r: Outcome<AttributeError>, ghost placed': seq<Handle>)
    requires ctx.Valid() && Ready(ctx, owner, name, OrderedKind, target)
    requires index == |placed| < |objects| && FlatConforms(target, objects[index]) && DistinctIdsInOrder(target, objects)
    requires owner in r0 && name in r0[owner].links && owner !in es0
    requires ctx.records[owner] == r0[owner].(links := r0[owner].links[name := OrderedLink(During(es0, placed))])
    requires OrderedPlacement(target, objects, r0, ctx.records, owner, placed)
    modifies ctx
    ensures ctx.Valid() && Ready(ctx, owner, name, OrderedKind, target)
    ensures ctx.model == old(ctx.model) && ctx.hasCoordinator == old(ctx.hasCoordinator) && ctx.committed == old(ctx.committed)
    ensures old(ctx.next) <= ctx.next && old(ctx.records).Keys <= ctx.records.Keys
    ensures r.Pass? ==> |placed'| == index + 1
    ensures ctx.records[owner] == r0[owner].(links := r0[owner].links[name := OrderedLink(During(es0, placed'))])
    ensures OrderedPlacement(target, objects, r0, ctx.records, owner, placed')
    ensures r.Fail? ==> FailureExplained(r.error, name, entity, target, r0, Elements(es0), CanCreate(ctx.hasCoordinator, ctx.model, target))
  {
    ghost var before := ctx.records;
    PrefixReady(target, objects, r0, ctx.records, owner, placed, es0);
    ghost var k;
    r, k := PlaceOneOrdered(ctx, owner, entity, name, target, objects[index], index, objects[..index]);
    placed' := placed;
    if r.Fail? {
      OrderedFailureBeforePass(r.error, name, entity, target, objects, r0, es0, before, owner, placed,
                               CanCreate(ctx.hasCoordinator, ctx.model, target));
    } else {
      OrderedPlacedNext(target, objects, r0, es0, before, ctx.records, owner, name, placed, k);
      placed' := placed + [k];
    }
  }

  /**
   * The first pass of the ordered encode: `for (index, object) in
   * objects.enumerated()`. `placed` gives the records of the objects, in order.
   */
  method PlaceAllOrdered(ctx: Context, owner: Handle, entity: string, name: string, target: FlatMapping, objects: seq<Plain>)
    returns (r: Outcome<AttributeError>, ghost placed: seq<Handle>)
    requires ctx.Valid() && Ready(ctx, owner, name, OrderedKind, target)
    requires forall o :: o in objects ==> FlatConforms(target, o)
    requires DistinctIdsInOrder(target, objects)
    modifies ctx
    ensures ctx.Valid() && Ready(ctx, owner, name, OrderedKind, target)
    ensures ctx.model == old(ctx.model) && ctx.hasCoordinator == old(ctx.hasCoordinator) && ctx.committed == old(ctx.committed)
    ensures old(ctx.next) <= ctx.next && old(ctx.records).Keys <= ctx.records.Keys
    ensures ctx.records[owner] == old(ctx.records[owner]).(links := old(ctx.records[owner].links)[name :=
              OrderedLink(During(old(ctx.records[owner].links[name].elements), placed))])
    ensures OrderedPlacement(target, objects, old(ctx.records), ctx.records, owner, placed)
    ensures r.Fail? ==> FailureExplained(r.error, name, entity, target, old(ctx.records), Elements(old(ctx.records[owner].links[name].elements)),
                                         CanCreate(ctx.hasCoordinator, ctx.model, target))
    ensures r.Pass? ==> |placed| == |objects|
  {
    ghost var r0 := ctx.records;
    ghost var es0 := ctx.records[owner].links[name].elements;
    LinkedRecords(ctx.records, ctx.model, ctx.next, owner, name);
    assert owner !in es0;
    var index := 0;
    placed := [];
    r := Pass;
    NothingPlaced(r0, owner, name);
    while index < |objects|
      invariant r.Pass?
      invariant index == |placed| <= |objects|
      invariant ctx.Valid() && Ready(ctx, owner, name, OrderedKind, target)
      invariant ctx.model == old(ctx.model) && ctx.hasCoordinator == old(ctx.hasCoordinator) && ctx.committed == old(ctx.committed)
      invariant old(ctx.next) <= ctx.next && r0.Keys <= ctx.records.Keys
      invariant ctx.records[owner] == r0[owner].(links := r0[owner].links[name := OrderedLink(During(es0, placed))])
      invariant OrderedPlacement(target, objects, r0, ctx.records, owner, placed)
    {
      r, placed := PlaceNextOrdered(ctx, owner, entity, name, target, objects, index, r0, es0, placed);
      if r.Fail? {
        return;
      }
      index := index + 1;
    }
  }

  // ---- the second pass ----

  /** The elements of `s` the second pass removes. */
  function Unwanteds(target: FlatMapping, wanted: set<Option<Value>>, records: map<Handle, Record>, s: seq<Handle>): (u: set<Handle>)
    ensures forall t :: t in u <==> t in s && Unwanted(target, wanted, records, t)
  {
    set t | t in s && Unwanted(target, wanted, records, t)
  }

  /** An element of a distinct sequence occurs neither before nor after its position. */
  lemma DistinctSplit(copy: seq<Handle>, j: nat)
    requires Distinct(copy) && j < |copy|
    ensures copy[j] !in copy[..j] && copy[j] !in copy[j + 1..]
  {
    forall i | 0 <= i < j ensures copy[..j][i] != copy[j] {
      assert copy[..j][i] == copy[i];
    }
    var back := copy[j + 1..];
    forall i | 0 <= i < |back| ensures back[i] != copy[j] {
      assert back[i] == copy[j + 1 + i];
    }
  }

  /** Visiting element `j` of the copy keeps it or removes it. */
  lemma OrderedKeptStep(copy: seq<Handle>, j: nat, gone: set<Handle>, cur: seq<Handle>)
    requires Distinct(copy) && j < |copy| && cur == Without(copy[..j], gone) + copy[j..]
    ensures copy[j] in gone ==> Without(cur, {copy[j]}) == Without(copy[..j + 1], gone) + copy[j + 1..]
    ensures copy[j] !in gone ==> cur == Without(copy[..j + 1], gone) + copy[j + 1..]
  {
    var t, front, back := copy[j], copy[..j], copy[j + 1..];
    var kept := Without(front, gone);
    assert copy[..j + 1] == front + [t];
    assert copy[j..] == [t] + back;
    WithoutAppend(front, [t], gone);
    assert Without([t], gone) == if t in gone then [] else [t];
    if t in gone {
      DistinctSplit(copy, j);
      assert kept + copy[j..] == (kept + [t]) + back;
      WithoutAppend(kept + [t], back, {t});
      WithoutAppend(kept, [t], {t});
      WithoutNone(kept, {t});
      WithoutNone(back, {t});
      assert Without([t], {t}) == [];
    }
  }

  /** Whether the second pass removes `t` is decided on the records before it: only the owner changed since. */
  lemma UnwantedBefore(target: FlatMapping, wanted: set<Option<Value>>, r1: map<Handle, Record>, owner: Handle, rec: Record,
                       copy: seq<Handle>, t: Handle)
    requires t != owner && t in copy
    ensures Unwanted(target, wanted, r1[owner := rec], t) <==> t in Unwanteds(target, wanted, r1, copy)
  {
  }

  /** After the last element, the elements left are the copy without the unwanted ones. */
  lemma AllVisited(copy: seq<Handle>, gone: set<Handle>)
    ensures Without(copy[..|copy|], gone) + copy[|copy|..] == Without(copy, gone)
  {
    assert copy[..|copy|] == copy;
    assert copy[|copy|..] == [];
  }

  /** The remaining elements, once more. */
  lemma Relinked(r1: map<Handle, Record>, before: map<Handle, Record>, after: map<Handle, Record>,
                 owner: Handle, name: string, cur: seq<Handle>, cur': seq<Handle>)
    requires owner in r1
    requires before == r1[owner := r1[owner].(links := r1[owner].links[name := OrderedLink(cur)])]
    requires after == before[owner := before[owner].(links := before[owner].links[name := OrderedLink(cur')])]
    ensures after == r1[owner := r1[owner].(links := r1[owner].links[name := OrderedLink(cur')])]
  {
    assert before[owner].links[name := OrderedLink(cur')] == r1[owner].links[name := OrderedLink(cur')];
  }

  /** Before the second pass, nothing is removed yet. */
  lemma NothingRemoved(r1: map<Handle, Record>, owner: Handle, name: string, gone: set<Handle>)
    requires owner in r1 && name in r1[owner].links && r1[owner].links[name].OrderedLink?
    ensures var copy := r1[owner].links[name].elements;
              r1 == r1[owner := r1[owner].(links := r1[owner].links[name := OrderedLink(Without(copy[..0], gone) + copy[0..])])]
  {
    var copy := r1[owner].links[name].elements;
    assert Without(copy[..0], gone) + copy[0..] == copy;
    assert r1[owner].links == r1[owner].links[name := OrderedLink(copy)];
  }

  /** Removing elements keeps them distinct and links no new record. */
  lemma WithoutLinked(es: seq<Handle>, gone: set<Handle>)
    ensures Linked(OrderedLink(Without(es, gone))) <= Linked(OrderedLink(es))
  {
  }

  /** `managedObjects.remove(managed)` for an element of the ordered relationship that is not the owner. */
  method RemoveElement(ctx: Context, owner: Handle, name: string, target: FlatMapping, t: Handle,
                       ghost r1: map<Handle, Record>, ghost cur: seq<Handle>)
    requires ctx.Valid() && Ready(ctx, owner, name, OrderedKind, target) && owner in r1
    requires ctx.records == r1[owner := r1[owner].(links := r1[owner].links[name := OrderedLink(cur)])]
    modifies ctx
    ensures ctx.Valid() && Ready(ctx, owner, name, OrderedKind, target)
    ensures ctx.model == old(ctx.model) && ctx.hasCoordinator == old(ctx.hasCoordinator)
    ensures ctx.committed == old(ctx.committed) && ctx.next == old(ctx.next)
    ensures ctx.records == r1[owner := r1[owner].(links := r1[owner].links[name := OrderedLink(Without(cur, {t}))])]
  {
    ghost var before := ctx.records;
    LinkedRecords(ctx.records, ctx.model, ctx.next, owner, name);
    WithoutLinked(ctx.records[owner].links[name].elements, {t});
    SetLink(ctx, owner, name, OrderedLink(Without(ctx.records[owner].links[name].elements, {t})));
    Relinked(r1, before, ctx.records, owner, name, cur, Without(cur, {t}));
  }

  /**
   * The second pass of the ordered encode: over a copy of the elements, in
   * order, each element that decodes to an identity not in `wanted` is
   * removed; the others, and those that fail to decode, stay in place.
   */
  method PruneUnwantedOrdered(ctx: Context, owner: Handle, name: string, target: FlatMapping, wanted: set<Option<Value>>)
    requires ctx.Valid() && Ready(ctx, owner, name, OrderedKind, target)
    modifies ctx
    ensures ctx.Valid() && Ready(ctx, owner, name, OrderedKind, target)
    ensures ctx.model == old(ctx.model) && ctx.hasCoordinator == old(ctx.hasCoordinator)
    ensures ctx.committed == old(ctx.committed) && ctx.next == old(ctx.next)
    ensures ctx.records == old(ctx.records)[owner := old(ctx.records[owner]).(links := old(ctx.records[owner].links)[name :=
              OrderedLink(Without(old(ctx.records[owner].links[name].elements),
                                  Unwanteds(target, wanted, old(ctx.records), old(ctx.records[owner].links[name].elements))))])]
  {
    ghost var r1 := ctx.records;
    var copy := ctx.records[owner].links[name].elements;
    LinkedRecords(ctx.records, ctx.model, ctx.next, owner, name);
    ghost var gone := Unwanteds(target, wanted, r1, copy);
    NothingRemoved(r1, owner, name, gone);
    ghost var cur := Without(copy[..0], gone) + copy[0..];
    var j := 0;
    while j < |copy|
      invariant ctx.Valid() && Ready(ctx, owner, name, OrderedKind, target)
      invariant ctx.model == old(ctx.model) && ctx.hasCoordinator == old(ctx.hasCoordinator)
      invariant ctx.committed == old(ctx.committed) && ctx.next == old(ctx.next)
      invariant j <= |copy| && cur == Without(copy[..j], gone) + copy[j..] && owner !in copy
      invariant ctx.records == r1[owner := r1[owner].(links := r1[owner].links[name := OrderedLink(cur)])]
    {
      var t := copy[j];
      OrderedKeptStep(copy, j, gone, cur);
      UnwantedBefore(target, wanted, r1, owner, ctx.records[owner], copy, t);
      if Unwanted(target, wanted, ctx.records, t) {
        RemoveElement(ctx, owner, name, target, t, r1, cur);
        cur := Without(cur, {t});
      }
      j := j + 1;
    }
    AllVisited(copy, gone);
  }

  // ---- the ordered encode ----

  /** The identities of the objects being encoded (`objects.contains(where:)`). */
  function OrderedWantedIds(target: FlatMapping, objects: seq<Plain>): set<Option<Value>> {
    set o | o in objects :: Id(target.idKey, o)
  }

  /** The placed records hold encoded objects, so the second pass keeps them. */
  lemma PlacedWanted(target: FlatMapping, objects: seq<Plain>, r0: map<Handle, Record>, r1: map<Handle, Record>,
                     owner: Handle, placed: seq<Handle>, s: seq<Handle>)
    requires OrderedPlacement(target, objects, r0, r1, owner, placed)
    ensures forall x :: x in placed ==> x !in Unwanteds(target, OrderedWantedIds(target, objects), r1, s)
  {
    forall x | x in placed ensures x !in Unwanteds(target, OrderedWantedIds(target, objects), r1, s) {
      var j :| 0 <= j < |placed| && placed[j] == x;
      HoldsDecodes(target, objects[j], r1[x]);
      assert objects[j] in objects;
    }
  }

  /** What the second pass leaves, in terms of the elements and records before the first. */
  lemma OrderedPrunedElements(target: FlatMapping, objects: seq<Plain>, r0: map<Handle, Record>, r1: map<Handle, Record>,
                              owner: Handle, es0: seq<Handle>, placed: seq<Handle>)
    requires OrderedPlacement(target, objects, r0, r1, owner, placed) && owner !in es0
    ensures var wanted := OrderedWantedIds(target, objects);
              Without(During(es0, placed), Unwanteds(target, wanted, r1, During(es0, placed))) ==
              placed + Without(es0, Elements(placed) + Unwanteds(target, wanted, r0, es0))
  {
    var wanted := OrderedWantedIds(target, objects);
    var rest := Without(es0, Elements(placed));
    var g1 := Unwanteds(target, wanted, r1, During(es0, placed));
    var u0 := Unwanteds(target, wanted, r0, es0);
    WithoutAppend(placed, rest, g1);
    PlacedWanted(target, objects, r0, r1, owner, placed, During(es0, placed));
    WithoutNone(placed, g1);
    WithoutTwice(es0, Elements(placed), g1);
    forall x | x in es0 ensures x in Elements(placed) + g1 <==> x in Elements(placed) + u0 {
      if x !in placed {
        assert x in rest;
        FrameAt(r1, r0, {owner} + Elements(placed), x);
      }
    }
    WithoutSame(es0, Elements(placed) + g1, Elements(placed) + u0);
  }

  /** Two successive relinks of one relationship are one. */
  lemma Relinked2(rec0: Record, rec1: Record, rec2: Record, name: string, es1: seq<Handle>, es2: seq<Handle>)
    requires rec1 == rec0.(links := rec0.links[name := OrderedLink(es1)])
    requires rec2 == rec1.(links := rec1.links[name := OrderedLink(es2)])
    ensures rec2 == rec0.(links := rec0.links[name := OrderedLink(es2)])
  {
    assert rec1.links[name := OrderedLink(es2)] == rec0.links[name := OrderedLink(es2)];
  }

  /** The second pass changes only the owner, so the bookkeeping of the first still holds after it. */
  lemma OrderedPlacementAfterPrune(target: FlatMapping, objects: seq<Plain>, r0: map<Handle, Record>, r1: map<Handle, Record>,
                                   r2: map<Handle, Record>, owner: Handle, placed: seq<Handle>, rec: Record)
    requires OrderedPlacement(target, objects, r0, r1, owner, placed) && r2 == r1[owner := rec]
    ensures OrderedPlacement(target, objects, r0, r2, owner, placed)
  {
    assert r2 - ({owner} + Elements(placed)) == r1 - ({owner} + Elements(placed));
  }

  /**
   * The encode closure of an ordered to-many attribute. On success the
   * relationship lists the records of the objects, in their order, then the
   * old elements that were neither reused nor unwanted, in their old order;
   * on failure the changes made so far stay.
   */
  method EncodeToManyOrdered(ctx: Context, owner: Handle, entity: string, name: string, target: FlatMapping, objects: seq<Plain>)
    returns (r: Outcome<AttributeError>, ghost placed: seq<Handle>)
    requires ctx.Valid() && Ready(ctx, owner, name, OrderedKind, target)
    requires forall o :: o in objects ==> FlatConforms(target, o)
    requires DistinctIdsInOrder(target, objects)
    modifies ctx
    ensures ctx.Valid() && Ready(ctx, owner, name, OrderedKind, target)
    ensures ctx.model == old(ctx.model) && ctx.hasCoordinator == old(ctx.hasCoordinator) && ctx.committed == old(ctx.committed)
    ensures old(ctx.next) <= ctx.next && old(ctx.records).Keys <= ctx.records.Keys
    ensures OrderedPlacement(target, objects, old(ctx.records), ctx.records, owner, placed)
    ensures r.Fail? ==> FailureExplained(r.error, name, entity, target, old(ctx.records), Elements(old(ctx.records[owner].links[name].elements)),
                                         CanCreate(ctx.hasCoordinator, ctx.model, target))
    ensures r.Fail? ==> ctx.records[owner] == old(ctx.records[owner]).(links := old(ctx.records[owner].links)[name :=
              OrderedLink(During(old(ctx.records[owner].links[name].elements), placed))])
    ensures r.Pass? ==> |placed| == |objects|
    ensures r.Pass? ==> ctx.records[owner] == old(ctx.records[owner]).(links := old(ctx.records[owner].links)[name :=
              OrderedLink(placed + Without(old(ctx.records[owner].links[name].elements),
                                           Elements(placed) + Unwanteds(target, OrderedWantedIds(target, objects), old(ctx.records),
                                                                        old(ctx.records[owner].links[name].elements))))])
  {
    LinkedRecords(ctx.records, ctx.model, ctx.next, owner, name);
    ghost var es0 := ctx.records[owner].links[name].elements;
    assert owner !in es0;
    r, placed := PlaceAllOrdered(ctx, owner, entity, name, target, objects);
    if r.Fail? {
      return;
    }
    ghost var r1 := ctx.records;
    PruneUnwantedOrdered(ctx, owner, name, target, OrderedWantedIds(target, objects));
    OrderedPrunedElements(target, objects, old(ctx.records), r1, owner, es0, placed);
    Relinked2(old(ctx.records[owner]), r1[owner], ctx.records[owner], name, During(es0, placed),
              Without(During(es0, placed), Unwanteds(target, OrderedWantedIds(target, objects), r1, During(es0, placed))));
    OrderedPlacementAfterPrune(target, objects, old(ctx.records), r1, ctx.records, owner, placed, ctx.records[owner]);
  }

  /**
   * The partner of the ordered encode: after it succeeds, the relationship
   * begins with one record per object, in the objects' order, each holding its
   * object and decoding to a value that agrees with it on every attribute.
   */
  lemma ToManyOrderedRepresents(target: FlatMapping, objects: seq<Plain>, r0: map<Handle, Record>, r: map<Handle, Record>,
                                owner: Handle, placed: seq<Handle>, es: seq<Handle>)
    requires OrderedPlacement(target, objects, r0, r, owner, placed) && |placed| == |objects|
    requires |placed| <= |es| && es[..|placed|] == placed
    ensures forall j :: 0 <= j < |objects| ==>
              && es[j] in r && Holds(target, objects[j], r[es[j]])
              && DecodeFlat(target, r[es[j]]).Success? && Agrees(target, DecodeFlat(target, r[es[j]]).value, objects[j])
  {
    forall j | 0 <= j < |objects|
      ensures && es[j] in r && Holds(target, objects[j], r[es[j]])
              && DecodeFlat(target, r[es[j]]).Success? && Agrees(target, DecodeFlat(target, r[es[j]]).value, objects[j])
    {
      assert es[j] == placed[j];
      HoldsDecodes(target, objects[j], r[es[j]]);
    }
  }
}
