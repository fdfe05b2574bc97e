/**
 * Store records as the mapping layer sees them: an entity name, primitive
 * fields addressed by name, and relationship links addressed by name.
 * Also the field subscript of NSManagedObject+Decode.swift and the fetch
 * requests the layer builds.
 */
module Records {
  import opened Wrappers
  import opened Values

  /** The identity of a record in a context. */
  type Handle = nat

  datatype LinkKind = ToOneKind | ToManyKind | OrderedKind

  /** A relationship's current value: optional target, unordered set or ordered set. */
  datatype Link =
    | ToOneLink(target: Option<Handle>)
    | ToManyLink(members: set<Handle>)
    | OrderedLink(elements: seq<Handle>)

  /** A record; a field absent from `fields` holds nil. */
  datatype Record = Record(entity: string, fields: map<string, Prim>, links: map<string, Link>)

  /** A relationship of an entity in the managed object model. */
  datatype RelationshipDescription = RelationshipDescription(kind: LinkKind, destination: string)

  /** An entity of the model: its relationships by name. */
  type EntityDescription = map<string, RelationshipDescription>

  function KindOf(l: Link): LinkKind {
    match l
    case ToOneLink(_) => ToOneKind
    case ToManyLink(_) => ToManyKind
    case OrderedLink(_) => OrderedKind
  }

  function Linked(l: Link): set<Handle> {
    match l
    case ToOneLink(t) => if t.Some? then {t.value} else {}
    case ToManyLink(ms) => ms
    case OrderedLink(es) => set h | h in es
  }

  predicate Distinct<T(==)>(s: seq<T>) {
    forall i, j :: 0 <= i < j < |s| ==> s[i] != s[j]
  }

  function EmptyLink(kind: LinkKind): (l: Link)
    ensures KindOf(l) == kind && Linked(l) == {}
  {
    match kind
    case ToOneKind => ToOneLink(None)
    case ToManyKind => ToManyLink({})
    case OrderedKind => OrderedLink([])
  }

  /** A record just inserted for an entity: no field set, every relationship empty. */
  function NewRecord(entity: string, desc: EntityDescription): (r: Record)
    ensures r.entity == entity && r.fields == map[]
    ensures r.links.Keys == desc.Keys
    ensures forall n :: n in desc ==> KindOf(r.links[n]) == desc[n].kind && Linked(r.links[n]) == {}
  {
    Record(entity, map[], map n | n in desc :: EmptyLink(desc[n].kind))
  }

  /**
   * A record fits the model: it has exactly its entity's relationships, each
   * of the declared kind, an ordered relationship holds no record twice, and
   * every linked record is below `next` and, while it lives, is of the
   * relationship's destination entity.
   */
  ghost predicate Fits(r: Record, model: map<string, EntityDescription>, records: map<Handle, Record>, next: Handle) {
    && r.entity in model
    && r.links.Keys == model[r.entity].Keys
    && forall n :: n in r.links ==>
         && KindOf(r.links[n]) == model[r.entity][n].kind
         && (r.links[n].OrderedLink? ==> Distinct(r.links[n].elements))
         && forall t :: t in Linked(r.links[n]) ==>
              t < next && (t in records ==> records[t].entity == model[r.entity][n].destination)
  }

  ghost predicate Consistent(records: map<Handle, Record>, model: map<string, EntityDescription>, next: Handle) {
    && (forall h :: h in records ==> h < next)
    && (forall h {:trigger Fits(records[h], model, records, next)} :: h in records ==> Fits(records[h], model, records, next))
  }

  // ---- subscript(primitiveValue:) ----

  /** Reading `record[primitiveValue: key]`. */
  function PrimitiveValue(r: Record, key: string): Option<Prim> {
    if key in r.fields then Some(r.fields[key]) else None
  }

  /** Writing `record[primitiveValue: key] = v`; writing nil clears the field. */
  function SetPrimitiveValue(r: Record, key: string, v: Option<Prim>): (r': Record)
    ensures PrimitiveValue(r', key) == v
    ensures forall k :: k != key ==> PrimitiveValue(r', k) == PrimitiveValue(r, k)
    ensures r'.entity == r.entity && r'.links == r.links
  {
    match v
    case None => r.(fields := r.fields - {key})
    case Some(p) => r.(fields := r.fields[key := p])
  }

  // ---- fetch requests ----

  /**
   * A fetch request: all records of an entity, optionally narrowed to those
   * whose field `filter.0` equals `filter.1` (an identity comparison), and
   * optionally limited in number.
   */
  datatype Request = Request(entity: string, filter: Option<(string, Prim)>, limit: Option<nat>)

  /**
   * Whether a record answers a request: it is of the request's entity and,
   * under an identity comparison, has that field set to that value (a record
   * whose field is nil never matches).
   */
  predicate Matches(q: Request, r: Record)
    ensures Matches(q, r) <==>
              && r.entity == q.entity
              && (q.filter.Some? ==> q.filter.value.0 in r.fields && r.fields[q.filter.value.0] == q.filter.value.1)
  {
    && r.entity == q.entity
    && (q.filter.Some? ==> PrimitiveValue(r, q.filter.value.0) == Some(q.filter.value.1))
  }

  /** The records a request matches (the limit aside). */
  function Matching(records: map<Handle, Record>, q: Request): (s: set<Handle>)
    ensures forall h :: h in s <==> h in records && Matches(q, records[h])
  {
    set h | h in records && Matches(q, records[h])
  }

  /** `request.limit(n)`. */
  function Limited(q: Request, n: nat): (q': Request)
    ensures q'.entity == q.entity && q'.filter == q.filter && q'.limit == Some(n)
  {
    q.(limit := Some(n))
  }

  // ---- what keeps a working set consistent ----

  /** Changing a record's fields, and nothing else, keeps the working set consistent. */
  lemma ConsistentWithFields(records: map<Handle, Record>, model: map<string, EntityDescription>, next: Handle, h: Handle, r: Record)
    requires Consistent(records, model, next) && h in records
    requires r.entity == records[h].entity && r.links == records[h].links
    ensures Consistent(records[h := r], model, next)
  {
    var records' := records[h := r];
    forall g | g in records' ensures g < next && Fits(records'[g], model, records', next) {
      assert Fits(records[g], model, records, next);
    }
  }

  /** Removing records keeps the working set consistent (links to them dangle). */
  lemma ConsistentWithout(records: map<Handle, Record>, model: map<string, EntityDescription>, next: Handle, gone: set<Handle>)
    requires Consistent(records, model, next)
    ensures Consistent(records - gone, model, next)
  {
    var records' := records - gone;
    forall g | g in records' ensures g < next && Fits(records'[g], model, records', next) {
      assert Fits(records[g], model, records, next);
    }
  }

  /** Adding a new record of a modelled entity under the fresh handle `next` keeps it consistent. */
  lemma ConsistentWithNew(records: map<Handle, Record>, model: map<string, EntityDescription>, next: Handle, name: string)
    requires Consistent(records, model, next) && name in model
    ensures Consistent(records[next := NewRecord(name, model[name])], model, next + 1)
  {
    var records' := records[next := NewRecord(name, model[name])];
    forall g | g in records' ensures g < next + 1 && Fits(records'[g], model, records', next + 1) {
      if g != next {
        assert Fits(records[g], model, records, next);
        var r := records[g];
        forall n, t | n in r.links && t in Linked(r.links[n])
          ensures t < next + 1 && (t in records' ==> records'[t].entity == model[r.entity][n].destination)
        {
          assert t < next;
        }
      }
    }
  }

  /**
   * Replacing a relationship of the record `h` by a link of the same kind whose
   * records are below `next` and, when live, of the destination entity keeps
   * the working set consistent.
   */
  lemma ConsistentWithLink(records: map<Handle, Record>, model: map<string, EntityDescription>, next: Handle, h: Handle, n: string, l: Link)
    requires Consistent(records, model, next) && h in records
    requires n in records[h].links && KindOf(l) == KindOf(records[h].links[n])
    requires records[h].entity in model && n in model[records[h].entity]
    requires l.OrderedLink? ==> Distinct(l.elements)
    requires forall t :: t in Linked(l) ==> t < next && (t in records ==> records[t].entity == model[records[h].entity][n].destination)
    ensures Consistent(records[h := records[h].(links := records[h].links[n := l])], model, next)
  {
    var r' := records[h].(links := records[h].links[n := l]);
    var records' := records[h := r'];
    assert Fits(records[h], model, records, next);
    forall g | g in records' ensures g < next && Fits(records'[g], model, records', next) {
      assert Fits(records[g], model, records, next);
    }
  }

  /** What consistency says of one relationship of one record. */
  lemma LinkedRecords(records: map<Handle, Record>, model: map<string, EntityDescription>, next: Handle, h: Handle, n: string)
    requires Consistent(records, model, next) && h in records && n in records[h].links
    ensures records[h].entity in model && n in model[records[h].entity]
    ensures KindOf(records[h].links[n]) == model[records[h].entity][n].kind
    ensures records[h].links[n].OrderedLink? ==> Distinct(records[h].links[n].elements)
    ensures forall t :: t in Linked(records[h].links[n]) ==>
              t < next && (t in records ==> records[t].entity == model[records[h].entity][n].destination)
  {
    assert Fits(records[h], model, records, next);
  }

  /** A relationship the model declares for a record's entity is one of the record's links, of the declared kind. */
  lemma DeclaredLink(records: map<Handle, Record>, model: map<string, EntityDescription>, next: Handle, h: Handle, n: string)
    requires Consistent(records, model, next) && h in records
    requires records[h].entity in model && n in model[records[h].entity]
    ensures n in records[h].links && KindOf(records[h].links[n]) == model[records[h].entity][n].kind
  {
    assert Fits(records[h], model, records, next);
  }
}
