# SwiftyCoreData mapping layer, modelled in Dafny

SwiftyCoreData keeps plain Swift value objects in step with Core Data
records. This project models the core of that layer and proves properties of
the model:

- **Value codecs.** Primitives convert by identity. Optionals are lifted. A
  `RawRepresentable` enum converts through its raw value, throwing `badInput`
  when no case matches. Untyped decoding checks the stored value's type first
  (module `Values`).
- **Attribute descriptors.** These cover the scalar, optional scalar, to-one,
  to-many and ordered to-many attributes; their equality and hashing by name;
  and their encode and decode closures (modules `Attributes`, `Relations`,
  `OrderedRelations`, `Convertible`).
- **Relation reconciliation.** For each wanted related object, the to-many
  encoders look for its record in three places, in order:
  1. the current members of the relationship;
  2. anywhere in the store, by identity;
  3. a newly created record.

  Each encoder then adds the record to the relationship. The ordered encoder
  also moves it to the object's position. The record is then updated with the
  object. A second pass removes members whose identity is no longer wanted; it
  does not delete them. Members that fail to decode are skipped
  (`Relations.EncodeToMany`, `OrderedRelations.EncodeToManyOrdered`).
- **Whole-object encode and decode.** `encodeAttributes(to:)` and
  `init(from:)` are folds over the attribute set. `attribute(_:)` looks up an
  attribute by key path. `update(keyPath, value)` writes a single stored field
  (modules `Convertible` and `ManagedObject`).
- **Store context.** A managed object context is a class, `Store.Context`.
  It holds:
  - the working set (`records`);
  - the last persisted state (`committed`);
  - the next free handle;
  - whether a coordinator is attached;
  - the managed object model.

  Its operations are `insert(entity:)`, `fetch`, `fetchOne`,
  `delete(request)`, `save()` and `reset()`.
- **Database client.** The client's private operations are modelled over a
  context: insert as an upsert keyed by identity, the two `update` overloads,
  delete by identity, and an all-or-nothing fetch (module `Client`).
- **Unit of work.** `execute(_:)` runs the action, saves only when there are
  changes, and resets on every path (module `Execute`).
- **Test type.** `SampleEntity` models the test suite's `Entity` type and
  proves that its whole-object round trip is exact.

Records are values of type `Records.Record`: an entity name, primitive fields
by name, and relationship links by name. A context identifies its records by
handle. `Records.Consistent` is the invariant that every method of a context
keeps and that `Store.Context.Valid` wraps. It says that every record has
exactly the model's relationships for its entity, each of the declared kind,
and that each relationship points only at records of its destination entity.

The to-one encode closure (Attribute.swift:68-70) writes the related
object's attributes onto the owner's own record and never sets the
relationship. The source itself shows what was meant. The to-one decode right
beside it (Attribute.swift:71-77) reads the relationship and requires
`value(forKey: name)` to be a record. The to-many encoders (Attribute.swift:94-112)
find or create the related record and attach it. The model states the closure
as written in `Convertible.EncodeToOneAsWritten` and proves what it leads to
(see Findings). The whole-object encode (`Convertible.EncodeAttributes`) is
built on a corrected closure, `Convertible.EncodeToOne`, which finds or
creates the related record and attaches it as the to-many encoders do.

## Model

| member | source | states |
|---|---|---|
| Values.EncodePrimitive | Sources/SwiftyCoreData/Extensions/ConvertableValue+DefaultConvertation.swift:13 | a primitive's `encode()` is the identity |
| Values.DecodePrimitive | Sources/SwiftyCoreData/Extensions/ConvertableValue+DefaultConvertation.swift:14 | a primitive's `decode(value:)` returns the value and never throws |
| Values.CaseOf | Sources/SwiftyCoreData/Extensions/ConvertableValue+DefaultConvertation.swift:36 | `Self(rawValue:)` gives the first case with that raw value, and none exactly when no case has it |
| Values.Encode | Sources/SwiftyCoreData/Extensions/ConvertableValue+DefaultConvertation.swift:29-32 | every encoding is of the codec's `ValueType` (what it encodes to is pinned down by Values.RoundTrip and Values.EncodeInjective) |
| Values.DecodeValue | Sources/SwiftyCoreData/Extensions/ConvertableValue+DefaultConvertation.swift:34-40 | for a primitive, the identity; for an enum, it fails exactly when no case has the raw value, with `badInput(rawValue)`, and otherwise gives the case with that raw value |
| Values.DecodeAny | Sources/SwiftyCoreData/Extensions/ConvertableValue+DefaultConvertation.swift:43-50 | throws `badInput(some)` when the stored value is absent or not of `ValueType`; otherwise defers to `decode(value:)` |
| Values.EncodeOptional | Sources/SwiftyCoreData/Models/Attribute.swift:48-50 | `value?.encode()` is nil exactly when the value is nil |
| Values.DecodeOptional | Sources/SwiftyCoreData/Extensions/ConvertableValue+DefaultConvertation.swift:19-25 | a missing value decodes to nil without consulting the wrapped decoder; a present one has the wrapped decoder's outcome, its value or its error |
| Values.CaseOfRawValue | Sources/SwiftyCoreData/Extensions/ConvertableValue+DefaultConvertation.swift:36 | with distinct raw values, the case found for case k's raw value is k |
| Values.RoundTrip | Sources/SwiftyCoreData/Extensions/ConvertableValue+DefaultConvertation.swift:12-50 | `decode(encode(x)) == x` for every value of a primitive or enum codec |
| Values.OptionalRoundTrip | Sources/SwiftyCoreData/Extensions/ConvertableValue+DefaultConvertation.swift:19-25 | optional values round-trip, nil included |
| Values.EncodeInjective | Sources/SwiftyCoreData/Extensions/ConvertableValue+DefaultConvertation.swift:29-32 | distinct values of a codec's type have distinct encodings |
| Records.SetPrimitiveValue | Sources/SwiftyCoreData/Extensions/NSManagedObject+Decode.swift:12-23 | writing `record[primitiveValue: k]` and reading it back gives the value written (nil clears); other keys, the entity and the relationships are unchanged |
| Records.NewRecord | Sources/SwiftyCoreData/Extensions/NSManagedObjectContext+Operations.swift:16 | a record created for an entity has no field set and every relationship of the entity, each empty and of the declared kind |
| Records.Matches | Sources/SwiftyCoreData/DatabaseClient.swift:138 | a record answers a request exactly when it is of the request's entity and, under an identity comparison, has that field set to the compared value (a nil field never matches) |
| Records.Matching | Sources/SwiftyCoreData/Extensions/NSManagedObjectContext+Operations.swift:19-25 | the records a request matches, whatever its limit: exactly the live records that answer it |
| Store.Context.HasChanges | Sources/SwiftyCoreData/Extensions/NSManagedObjectContext+Execute.swift:21 | `hasChanges` holds exactly when some record was inserted, deleted or changed relative to the persisted state |
| Store.Context.InsertEntity | Sources/SwiftyCoreData/Extensions/NSManagedObjectContext+Operations.swift:12-17 | nil exactly when there is no coordinator or no such entity, and then nothing changes; otherwise a fresh record joins the working set and nothing else changes |
| Store.Context.Fetch | Sources/SwiftyCoreData/Extensions/NSManagedObjectContext+Operations.swift:19-25 | the matching records, each once; all of them without a limit, otherwise min(limit, matches) of them |
| Store.Context.FetchOne | Sources/SwiftyCoreData/Extensions/NSManagedObjectContext+Operations.swift:27-33 | a matching record of the request limited to one, nil exactly when nothing matches |
| Store.Context.DeleteObject | Sources/SwiftyCoreData/Extensions/NSManagedObjectContext+Operations.swift:41 | Core Data's `delete(_:)` of one object: exactly that record leaves the working set, and nothing else changes |
| Store.Context.DeleteAll | Sources/SwiftyCoreData/Extensions/NSManagedObjectContext+Operations.swift:40-42 | the loop over the fetched records: a live record survives exactly when it is not among them, survivors are unchanged, and as many records are removed as there are handles |
| Store.Context.Delete | Sources/SwiftyCoreData/Extensions/NSManagedObjectContext+Operations.swift:35-43 | only records the request matches are removed and the survivors are unchanged; without a limit the working set loses exactly the matches; with a limit it loses exactly min(limit, number of matches) of them, as many as `fetch` returns |
| Store.Context.Save | Sources/SwiftyCoreData/Extensions/NSManagedObjectContext+Execute.swift:22 | throws exactly when the store refuses, and then nothing is persisted; otherwise the working set is persisted |
| Store.Context.Reset | Sources/SwiftyCoreData/Extensions/NSManagedObjectContext+Execute.swift:15-17 | the working set goes back to what was persisted |
| Attributes.Equal | Sources/SwiftyCoreData/Models/Attribute.swift:210-212 | `==` compares store names only: two attributes are equal exactly when their names are, whatever their key paths and codecs; every attribute is equal to itself |
| Attributes.Hash | Sources/SwiftyCoreData/Models/Attribute.swift:216-218 | `hash(into:)` feeds the name alone to the hasher, so every attribute equal to this one gets the same hash |
| Attributes.EqualHashEqual | Sources/SwiftyCoreData/Models/Attribute.swift:210-218 | attributes that are equal by name hash equally under any hasher |
| Attributes.UnequalHashApart | Sources/SwiftyCoreData/Models/Attribute.swift:216-218 | attributes with different names are told apart by some hasher, so the hash depends on the name |
| Attributes.Insert | Sources/SwiftyCoreData/Protocols/ManagedObjectConvertible.swift:14 | inserting into an attribute `Set` keeps one attribute per name; an attribute equal to a member is not added |
| Attributes.InsertAll | Sources/SwiftyCoreData/Protocols/ManagedObjectConvertible.swift:14 | inserting a list of attributes keeps names distinct, and the names are those of the set and the list |
| Attributes.AttributeSet | Sources/SwiftyCoreData/Protocols/ManagedObjectConvertible.swift:14 | the `Set` built from an attribute list has distinct names, exactly the list's names |
| Attributes.AttributeSetKeepsFirst | Sources/SwiftyCoreData/Models/Attribute.swift:210-212 | building the set keeps the first attribute of each name, and only attributes of the list |
| Attributes.FieldEncoding | Sources/SwiftyCoreData/Models/Attribute.swift:28-50 | a required attribute always stores a value; an optional one stores nil exactly when the field is nil |
| Attributes.EncodeField | Sources/SwiftyCoreData/Models/Attribute.swift:28-30 | the scalar encode writes the field's encoding into exactly the attribute's named field, and changes no other field or relationship |
| Attributes.DecodeFieldValue | Sources/SwiftyCoreData/Models/Attribute.swift:31-57 | a scalar or optional decode succeeds exactly when the codec does, with the codec's value; any codec failure becomes `failedToDecode(name, entity)` |
| Attributes.MissingValue | Sources/SwiftyCoreData/Models/Attribute.swift:51-57 | a missing stored value decodes to nil for an optional attribute and fails with `failedToDecode` for a required one |
| Attributes.FieldRoundTrip | Sources/SwiftyCoreData/Models/Attribute.swift:28-57 | a field written by a scalar or optional encode decodes back to the same value |
| Attributes.EncodeFields | Sources/SwiftyCoreData/Extensions/ManagedObjectConvertible+Attributes.swift:17-22 | a related object's `encodeAttributes(to:)`, its attributes' encodes in turn: it writes fields only, leaving the record's entity and relationships as they were (what each field holds: Attributes.EncodeFieldsHold, Attributes.EncodeFieldsFrame) |
| Attributes.EncodeFlat | Sources/SwiftyCoreData/Extensions/ManagedObjectConvertible+Attributes.swift:16-23 | the whole flat encode: entity and relationships of the record unchanged (contents: Attributes.EncodeFlatHolds) |
| Attributes.DecodeFields | Sources/SwiftyCoreData/Extensions/ManagedObjectConvertible+Attributes.swift:24-29 | a related object's `init(from:)` (Attributes.DecodeFlat is this fold started from the type's default value): it succeeds exactly when every attribute's decode does, and then sets every attribute's key path and keeps the other keys of the starting value |
| Attributes.EncodeFieldsFrame | Sources/SwiftyCoreData/Extensions/ManagedObjectConvertible+Attributes.swift:17-22 | encoding a related object leaves every field that none of its attributes names unchanged |
| Attributes.EncodeFieldsHold | Sources/SwiftyCoreData/Extensions/ManagedObjectConvertible+Attributes.swift:17-22 | after the fields are encoded in turn, every field with a distinct name holds its own encoding |
| Attributes.EncodeFlatHolds | Sources/SwiftyCoreData/Extensions/ManagedObjectConvertible+Attributes.swift:16-23 | after `encodeAttributes`, the record holds the encoding of every attribute of the related object |
| Attributes.DecodeFieldsHeld | Sources/SwiftyCoreData/Extensions/ManagedObjectConvertible+Attributes.swift:24-29 | decoding a record that holds an object succeeds; every attribute's key path gets the object's value, and every other key path keeps its starting value |
| Attributes.HoldsDecodes | Sources/SwiftyCoreData/Extensions/ManagedObjectConvertible+Attributes.swift:24-29 | a record holding an object decodes to one with the same attribute values and the same identity |
| Attributes.FlatRoundTrip | Sources/SwiftyCoreData/Extensions/ManagedObjectConvertible+Attributes.swift:16-29 | `init(from:)` after `encodeAttributes(to:)` succeeds and restores every attribute's field |
| Attributes.HoldsMatches | Sources/SwiftyCoreData/Models/Attribute.swift:100 | a record of the entity holding an object is matched by the request for that object's identity |
| Attributes.MatchesSameId | Sources/SwiftyCoreData/Models/Attribute.swift:100 | a record holding an object is matched by the request for another object's identity only when the two share it |
| Attributes.Least | Sources/SwiftyCoreData/Models/Attribute.swift:135 | the first member visited when iterating an unordered relationship is its least handle |
| Attributes.DecodeSet | Sources/SwiftyCoreData/Models/Attribute.swift:135 | decoding a set of members succeeds exactly when every live member decodes, giving the set of decoded objects; a failure carries a failing member's error |
| Attributes.Dedup | Sources/SwiftyCoreData/Models/Attribute.swift:199-202 | `OrderedSet(array)` has no duplicates and the same elements, keeps first occurrences in order (every duplicate-free prefix of the array is a prefix of the result), and leaves a duplicate-free array as it is |
| Attributes.DecodeSeq | Sources/SwiftyCoreData/Models/Attribute.swift:199-202 | decoding the elements succeeds exactly when every live element decodes; with all elements live it decodes them position by position; a failure carries a failing element's error |
| Attributes.DecodeAttributeValue | Sources/SwiftyCoreData/Models/Attribute.swift:71-203 | each decode closure: a field is decoded by its codec; a relationship of the wrong shape (no record, not a set, not an ordered set) throws `failedToDecode(name, entity)`; a to-one gives its target's decode, value or error; a to-many succeeds exactly when its members decode, giving the set of decoded members, and otherwise rethrows their error; an ordered one succeeds exactly when its elements decode, giving `OrderedSet` of the decoded elements in order, and otherwise rethrows their error |
| Relations.FindMember | Sources/SwiftyCoreData/Models/Attribute.swift:95-96 | the search among a set's members returns one of three outcomes: a member decoding to the object's identity; a member's decode error; or, only when every member decodes to some other identity, nothing |
| Relations.FindElement | Sources/SwiftyCoreData/Models/Attribute.swift:154-155 | the first element decoding to the object's identity, if every element before it decodes; otherwise the error of the first element that fails; nothing when all decode to other identities |
| Relations.Resolve | Sources/SwiftyCoreData/Models/Attribute.swift:98-105 | lookup order after the search: the member found; else a stored record with the identity, which changes nothing; else a new record, or none without a coordinator or entity |
| Relations.Without | Sources/SwiftyCoreData/Models/Attribute.swift:190 | removing handles from an ordered set keeps exactly the other elements, in order and without duplicates |
| Relations.ReusedHasIdentity | Sources/SwiftyCoreData/Models/Attribute.swift:95-100 | a reused record, found among the members or by fetch, held only objects with the wanted identity |
| Relations.SetLink | Sources/SwiftyCoreData/Models/Attribute.swift:111 | setting a relationship changes only that relationship of that record |
| Relations.UpdateRelated | Sources/SwiftyCoreData/Models/Attribute.swift:112 | `managed.update(object)` writes the object's attributes into that record and changes no other record |
| Relations.Locate | Sources/SwiftyCoreData/Models/Attribute.swift:95-109 | a record for the object is found or created; it throws `failedToEncodeRelation(name, entity)`, changing nothing, exactly when no member has the identity, no stored record matches it and no record of the related entity can be created (no coordinator, or the model lacks the entity); only a record may be added |
| Relations.AddAndUpdate | Sources/SwiftyCoreData/Models/Attribute.swift:111-112 | `add` then `update` puts the record among the members and makes it hold the object; nothing else changes |
| Relations.PlaceOne | Sources/SwiftyCoreData/Models/Attribute.swift:95-112 | one iteration of the to-many first pass. On failure nothing changes, and the error is that of a member that failed to decode, or `failedToEncodeRelation` when no record of the related entity can be created (no coordinator, or the model lacks the entity). On success the record holding the object joins the members, and only the owner and that record change |
| Relations.PlaceNext | Sources/SwiftyCoreData/Models/Attribute.swift:94-113 | one iteration of the first pass keeps the loop's bookkeeping: placed objects, the records they hold, and the members so far |
| Relations.PlaceAll | Sources/SwiftyCoreData/Models/Attribute.swift:94-113 | after the first pass every object has a member record holding it, and only the owner and those records changed; a failure is a member's decode error from before the pass, or `failedToEncodeRelation` only when no record of the related entity can be created (no coordinator, or the model lacks the entity) |
| Relations.Kept | Sources/SwiftyCoreData/Models/Attribute.swift:119-128 | the second pass keeps exactly the members that fail to decode or decode to a wanted identity |
| Relations.PruneUnwanted | Sources/SwiftyCoreData/Models/Attribute.swift:115-128 | the second pass leaves exactly the kept members; it deletes no record and touches nothing else |
| Relations.HeldWanted | Sources/SwiftyCoreData/Models/Attribute.swift:124-125 | a record the first pass wrote an object into is never removed by the second |
| Relations.PrunedMembers | Sources/SwiftyCoreData/Models/Attribute.swift:115-128 | after both passes, the members are the objects' records plus the old members that were kept |
| Relations.EncodeToMany | Sources/SwiftyCoreData/Models/Attribute.swift:89-129 | the whole to-many encode. On success the members are the records of the objects plus the old members kept by the second pass. On failure the changes made so far stay, and the error is an old member's decode error, or `failedToEncodeRelation` only when no record of the related entity can be created (no coordinator, or the model lacks the entity), so with a coordinator and declared entity only undecodable members make it fail |
| Relations.ToManyRepresents | Sources/SwiftyCoreData/Models/Attribute.swift:89-136 | after a successful encode of objects with distinct identities, each object has a member holding it whose decode agrees with it on every attribute |
| OrderedRelations.InsertDistinct | Sources/SwiftyCoreData/Models/Attribute.swift:174 | inserting a handle that is not yet present keeps the ordered set duplicate-free and adds exactly that handle |
| OrderedRelations.Moved | Sources/SwiftyCoreData/Models/Attribute.swift:170-174 | remove-then-insert at `index` gives the prefix, the record, then the rest without it; the index is at most the count, and no record appears twice |
| OrderedRelations.NotInPrefix | Sources/SwiftyCoreData/Models/Attribute.swift:154-168 | the record found for the object at `index` is not one of the records already placed before `index` |
| OrderedRelations.MoveAndUpdate | Sources/SwiftyCoreData/Models/Attribute.swift:170-176 | the record sits at `index` exactly once and holds the object; nothing else changes |
| OrderedRelations.PlaceOneOrdered | Sources/SwiftyCoreData/Models/Attribute.swift:154-176 | one ordered iteration. On failure nothing changes and the error is an element's decode error, or `failedToEncodeRelation` only when no record of the related entity can be created (no coordinator, or the model lacks the entity). On success the record holding the object is moved to `index` |
| OrderedRelations.PrefixReady | Sources/SwiftyCoreData/Models/Attribute.swift:153-177 | before step i, the placed records are the first i elements, and with distinct identities they hold objects of other identities |
| OrderedRelations.PlaceNextOrdered | Sources/SwiftyCoreData/Models/Attribute.swift:153-177 | after step i, the records of objects 0..i are the first elements, in order |
| OrderedRelations.PlaceAllOrdered | Sources/SwiftyCoreData/Models/Attribute.swift:153-177 | after the first pass, the relationship is the objects' records in order, followed by the other old elements in their order; a failure is an old element's decode error, or `failedToEncodeRelation` only when no record of the related entity can be created (no coordinator, or the model lacks the entity) |
| OrderedRelations.Unwanteds | Sources/SwiftyCoreData/Models/Attribute.swift:183-192 | the elements the second pass removes: those that decode to an identity no object has |
| OrderedRelations.RemoveElement | Sources/SwiftyCoreData/Models/Attribute.swift:190 | `remove` takes one element out of the relationship and changes nothing else |
| OrderedRelations.PruneUnwantedOrdered | Sources/SwiftyCoreData/Models/Attribute.swift:179-192 | the ordered second pass removes exactly the unwanted elements and keeps the others in order |
| OrderedRelations.PlacedWanted | Sources/SwiftyCoreData/Models/Attribute.swift:188-189 | records placed by the first pass are never unwanted |
| OrderedRelations.OrderedPrunedElements | Sources/SwiftyCoreData/Models/Attribute.swift:179-192 | after both passes, the relationship is the objects' records in order, then the old elements that were neither reused nor unwanted, in their old order |
| OrderedRelations.EncodeToManyOrdered | Sources/SwiftyCoreData/Models/Attribute.swift:148-193 | the whole ordered encode. On success the records are in the objects' order, followed by the surviving old elements. On failure the changes made so far stay, and the error is an old element's decode error, or `failedToEncodeRelation` only when no record of the related entity can be created (no coordinator, or the model lacks the entity) |
| OrderedRelations.ToManyOrderedRepresents | Sources/SwiftyCoreData/Models/Attribute.swift:148-203 | after a successful ordered encode, element j holds object j and decodes to a value agreeing with it |
| Convertible.AttributeIndex | Sources/SwiftyCoreData/Extensions/ManagedObjectConvertible+Attributes.swift:13 | the first attribute registered for a key path |
| Convertible.AttributeFor | Sources/SwiftyCoreData/Extensions/ManagedObjectConvertible+Attributes.swift:12-14 | `attribute(keyPath)` is an attribute of the set registered for that key path |
| Convertible.AttributeForUnique | Sources/SwiftyCoreData/Extensions/ManagedObjectConvertible+Attributes.swift:12-14 | with one attribute per key path, `attribute(keyPath)` returns exactly that one |
| Convertible.EncodeToOneAsWritten | Sources/SwiftyCoreData/Models/Attribute.swift:68-70 | the to-one encode as written leaves the relationships unchanged and writes the related object's attributes onto the owner's own record |
| Convertible.ToOneAsWrittenLosesRelation | Sources/SwiftyCoreData/Models/Attribute.swift:68-77 | after that encode, an owner whose relationship pointed at no record still fails to decode the attribute, with `failedToDecode(name, entity)` |
| Convertible.ToOneAsWrittenFresh | Sources/SwiftyCoreData/Models/Attribute.swift:68-77 | the same failure on a record just made by `insert(entity:)` |
| Convertible.EncodeToOne | Sources/SwiftyCoreData/Models/Attribute.swift:68-70 | the corrected to-one encode. It reuses the current target if that has the identity, else a stored record with it, else a new record. It points the relationship at that record and updates it. A failure changes nothing, and is the current target's decode error, or `failedToEncodeRelation` only when no record of the related entity can be created (no coordinator, or the model lacks the entity) |
| Convertible.ToOneRoundTrip | Sources/SwiftyCoreData/Models/Attribute.swift:71-77 | a to-one relationship set to a record holding the object decodes to a value agreeing with it |
| Convertible.PlacementConfined | Sources/SwiftyCoreData/Models/Attribute.swift:94-113 | the to-many first pass changes only the owner and records of the related entity |
| Convertible.OrderedPlacementConfined | Sources/SwiftyCoreData/Models/Attribute.swift:153-177 | so does the ordered first pass |
| Convertible.DecodeFieldsError | Sources/SwiftyCoreData/Models/Attribute.swift:31-57 | a failing decode of a related object throws `failedToDecode` for one of its attributes |
| Convertible.ExplainedError | Sources/SwiftyCoreData/Models/Attribute.swift:95-109 | a relationship encode fails only with a related record's `failedToDecode`, or with `failedToEncodeRelation(name, entity)` when no record of the related entity can be created (no coordinator, or the model lacks the entity) |
| Convertible.EncodeFieldAttribute | Sources/SwiftyCoreData/Models/Attribute.swift:28-50 | a scalar or optional encode never throws, changes only its own field, and leaves the field holding the encoding |
| Convertible.EncodeToOneAttribute | Sources/SwiftyCoreData/Models/Attribute.swift:68-77 | the corrected to-one closure of the Findings row (not the one at 68-70) applied to one attribute: on success the relationship points at a record holding the object, so the decode at 71-77 reads it back; only the owner and records of the related entity change; a failure is a relation error, with `failedToEncodeRelation` only when no related record can be created |
| Convertible.ToManyRepresented | Sources/SwiftyCoreData/Models/Attribute.swift:94-113 | after the first pass, each object with a distinct identity has a member holding it |
| Convertible.EncodeToManyAttribute | Sources/SwiftyCoreData/Models/Attribute.swift:89-129 | on success each object has a member holding it; only the relationship itself, the owner and related records change; a failure is a relation error (`RelationError`: `failedToEncodeRelation` only when no related record can be created) |
| Convertible.OrderedRepresented | Sources/SwiftyCoreData/Models/Attribute.swift:153-177 | after the ordered first pass, element j holds object j |
| Convertible.EncodeOrderedAttribute | Sources/SwiftyCoreData/Models/Attribute.swift:148-193 | on success the ordered relationship begins with records holding the objects, in order; a failure is a relation error, with `failedToEncodeRelation` only when no related record can be created |
| Convertible.EncodeAttribute | Sources/SwiftyCoreData/Extensions/ManagedObjectConvertible+Attributes.swift:19 | one attribute's encode, by kind: on success the attribute is represented in the record; only relation attributes can fail, and only with a related record's decode error or, when no related record can be created, `failedToEncodeRelation` |
| Convertible.StepKeeps | Sources/SwiftyCoreData/Extensions/ManagedObjectConvertible+Attributes.swift:18-20 | encoding one attribute never undoes another one's representation, when the two have different related entities |
| Convertible.EncodedStep | Sources/SwiftyCoreData/Extensions/ManagedObjectConvertible+Attributes.swift:18-20 | one loop step keeps the earlier attributes encoded and the later ones untouched |
| Convertible.EncodeAttributes | Sources/SwiftyCoreData/Extensions/ManagedObjectConvertible+Attributes.swift:16-23 | every attribute's encode in turn on the same record. On success all are represented. The first failure aborts with that relation attribute's error (`failedToEncodeRelation` only when none of its records can be created): the earlier attributes stay encoded and the later ones untouched. Only the owner and records of related entities change |
| Convertible.DecodeAll | Sources/SwiftyCoreData/Extensions/ManagedObjectConvertible+Attributes.swift:24-29 | the fold of the attributes' decode closures: the keys of a success are the starting value's keys plus every attribute's key path (`KeyPaths`, the set of key paths by Convertible.KeyPathsAre); the outcome is in Convertible.DecodeAllOutcome |
| Convertible.InitFrom | Sources/SwiftyCoreData/Extensions/ManagedObjectConvertible+Attributes.swift:24-29 | `init(from:)` starts from the default value and applies every attribute's decode in turn |
| Convertible.DecodeAllOutcome | Sources/SwiftyCoreData/Extensions/ManagedObjectConvertible+Attributes.swift:24-29 | the decode succeeds exactly when every attribute's decode does; a failure is the first failing attribute's error |
| Convertible.DecodeAllValues | Sources/SwiftyCoreData/Extensions/ManagedObjectConvertible+Attributes.swift:24-29 | on success each attribute's key path holds its decoded value, and fields no attribute covers keep their default |
| Convertible.DecodeAllSucceeds | Sources/SwiftyCoreData/Extensions/ManagedObjectConvertible+Attributes.swift:26-28 | the decode succeeds exactly when every attribute of the set decodes |
| Convertible.DecodedAt | Sources/SwiftyCoreData/Extensions/ManagedObjectConvertible+Attributes.swift:24-29 | the decoded value at a key path is that key path's attribute decode, or the default when no attribute has it |
| Convertible.DecodeOrderIndependent | Sources/SwiftyCoreData/Extensions/ManagedObjectConvertible+Attributes.swift:26 | iterating the attribute `Set` in another order gives the same success and the same object |
| Convertible.DecodeSeqContains | Sources/SwiftyCoreData/Models/Attribute.swift:199-202 | a live element that decodes is among the decoded elements |
| Convertible.AttributeRoundTrip | Sources/SwiftyCoreData/Models/Attribute.swift:23-203 | what an attribute's encode represents decodes back. Field and to-one decodes always succeed and return the same value, or an agreeing object. To-many and ordered decodes, when they succeed, contain an agreeing object for each object; for ordered objects of distinct identities, element j of the decoded `OrderedSet` agrees with object j |
| Convertible.DecodeSeqPrefix | Sources/SwiftyCoreData/Models/Attribute.swift:199-202 | `compactMap` over an ordered relationship whose first k elements are live records keeps those k decoded in place |
| Convertible.AgreeingDistinct | Sources/SwiftyCoreData/Models/Attribute.swift:199-202 | decoded objects that agree with objects of distinct identities are distinct, so `OrderedSet` drops none of them |
| Convertible.OrderedPositions | Sources/SwiftyCoreData/Models/Attribute.swift:194-203 | an ordered relationship that begins with records holding objects of distinct identities decodes to an `OrderedSet` whose element j agrees with object j |
| Convertible.EncodeDecodeRoundTrip | Sources/SwiftyCoreData/Extensions/ManagedObjectConvertible+Attributes.swift:16-29 | after `encodeAttributes`, `init(from:)` gives back every field and every relationship with its own related entity; with only fields and such to-one relationships it always succeeds |
| Convertible.FieldTypeRoundTrip | Sources/SwiftyCoreData/Extensions/ManagedObjectConvertible+Attributes.swift:16-29 | for a domain type whose attributes are all fields and whose key paths are exactly the object's keys, `init(from:)` after `encodeAttributes(to:)` returns the object itself |
| ManagedObject.UpdatedValueDecodes | Sources/SwiftyCoreData/Extensions/NSManagedObject+Decode.swift:35-40 | a value written through a required attribute decodes back through it |
| ManagedObject.UpdatedOptionalDecodes | Sources/SwiftyCoreData/Extensions/NSManagedObject+Decode.swift:42-47 | an optional value written through an optional attribute decodes back, nil (a cleared field) included |
| ManagedObject.UpdateValue | Sources/SwiftyCoreData/Extensions/NSManagedObject+Decode.swift:35-40 | `update(keyPath, value)` writes `value.encode()` into the stored field of the key path's attribute only: it decodes to the value, and every other field attribute decodes as before |
| ManagedObject.UpdateOptionalValue | Sources/SwiftyCoreData/Extensions/NSManagedObject+Decode.swift:42-47 | the same for `value?.encode()`; nil clears the field |
| Client.EncodedMatches | Sources/SwiftyCoreData/DatabaseClient.swift:138-144 | once the item is encoded, its record answers the request for its identity |
| Client.UpsertMatching | Sources/SwiftyCoreData/DatabaseClient.swift:135-145 | the upsert changes the matches of the identity request only by adding its record |
| Client.UpsertLeavesOne | Sources/SwiftyCoreData/DatabaseClient.swift:135-145 | with at most one record of that identity before, exactly one is left afterwards: the record used |
| Client.Insert | Sources/SwiftyCoreData/DatabaseClient.swift:135-145 | detailed in the Client.Insert paragraph after the table |
| Client.Update | Sources/SwiftyCoreData/DatabaseClient.swift:161-173 | true exactly when a record has the id. If not, nothing changes. If so, only that one record's named field is rewritten, and it decodes to the value |
| Client.UpdateOptional | Sources/SwiftyCoreData/DatabaseClient.swift:147-159 | the same for an optional key path; nil clears the field |
| Client.Delete | Sources/SwiftyCoreData/DatabaseClient.swift:175-180 | exactly the records matching the item's identity are removed, so a later fetch by that identity is empty |
| Client.Fetch | Sources/SwiftyCoreData/DatabaseClient.swift:182-187 | each fetched record is decoded, in the fetch's order. The fetch succeeds exactly when every record decodes, and then element i is record i's decode. Otherwise it fails with the error of the first record, in fetch order, that fails to decode |
| Execute.Perform | Sources/SwiftyCoreData/Extensions/NSManagedObjectContext+Execute.swift:19 | runs one client action: what it returns and the working set it leaves are those of that client operation (`Performed`: the upsert, an update, the delete or the fetch, as their rows state); only the working set changes |
| Execute.Run | Sources/SwiftyCoreData/Extensions/NSManagedObjectContext+Execute.swift:12-26 | detailed in the Execute.Run paragraph after the table |
| SampleEntity.EntityMapping | Tests/SwiftyCoreDataTests/Models/Entity.swift:18-33 | the test type's mapping is well formed, with distinct key paths, only field attributes, and the key paths `id`, `index` and `name` |
| SampleEntity.EntityRoundTrip | Tests/SwiftyCoreDataTests/DatabaseClientTests.swift:167-178 | once an entity is encoded into a record, `init(from:)` of that record gives back exactly that entity |

**Client.Insert**, the upsert:

- It reuses the record with the item's identity if there is one, and creates a record otherwise.
- With neither a match nor a coordinator, nothing happens and nothing is thrown.
- Only the chosen record and records of the related entities change.
- On success, the matches of the identity request are the old ones plus that record. That record holds every attribute.
- With at most one match before, exactly one is left.
- A failure is a relation attribute's error; `failedToEncodeRelation` only when that attribute's related records cannot be created.

**Execute.Run**, the unit of work:

- The action's value or error (`done`) and the working set it leaves (`worked`) are those of the client operation it runs (`Performed`, as for Execute.Perform).
- The working set is reset to the persisted state on every path.
- If the action throws, its error is rethrown and nothing is persisted.
- If the action leaves no changes, nothing is saved.
- If the save is refused, the error is thrown with nothing persisted.
- Otherwise the action's value is returned and the working set it left is persisted.

## Left out

- Concurrency and notifications are not modelled:
  - the asynchronous wrappers and the `schedule`/`perform` plumbing of `DatabaseClient.swift` and `NSPersistentContainer+Perform.swift` (including the cancellation check before any work);
  - `observe` and `NotificationCenter+Async.swift`.

  The synchronous operations (DatabaseClient.swift:94-129) call the private operations on `viewContext` directly, with no `execute`, save or reset: they are the `Client` methods on a context. The asynchronous ones (DatabaseClient.swift:27-69) run the same action through `schedule`, which calls `context.execute(action)` on a new background context (NSPersistentContainer+Perform.swift:56-68): they are `Execute.Run` of that action, without the concurrency.
- Query descriptors and sorting are not modelled. `Request` is an entity plus an optional identity comparison and an optional limit. The predicate trees, sort descriptors (`SortDescriptor.swift`) and fetch-request compilation are Core Data's business.
- Store behaviour left to Core Data is not modelled: key-value observing in the primitive-value subscript, inverse relationships and delete rules (a deleted record's links dangle in the model), and store-side validation.
- Concrete Foundation values are abstracted. Primitive types (Int16 to Int64, Float, Double, Decimal, Date, URL, UUID, Data) are modelled as integer, string and boolean primitives. Floating point is left out.
- Key paths are modelled as field names, and a hasher is modelled as any function from names to integers.
- Store.Context.Fetch: the store's result order is arbitrary in the model, so the contract says which records come back, not in what order.
- Store.Context.Save: whether the store refuses a save is a parameter. The store's reasons for refusing are not modelled, and no fetch or save throws for other store reasons.
- Execute.Run: the action closure is one of the database client's five operations (`Execute.Action`), not an arbitrary closure.
- Attributes.DecodeSet: iteration over an unordered relationship is modelled as ascending handle order. When several members fail to decode, the error thrown is therefore a fixed one of them; the source's choice is set order.
- Relations.FindMember: the search visits members in an order the model leaves open, as the source's set iteration does.
- Related domain types are flat: the types that relationships point to have only scalar and optional scalar attributes, of an entity other than the owner's. Relationships nested inside related objects are not modelled.
- Convertible.AttributeFor: requires that an attribute exists for the key path. The source crashes through `unsafelyUnwrapped` otherwise.
- OrderedRelations.EncodeToManyOrdered: requires that the objects' identities are distinct (`DistinctIdsInOrder`). An `OrderedSet` of distinct objects that share an identity is not covered. The same precondition (`OrderedIdsDistinct`) carries over to Convertible.EncodeOrderedAttribute, Convertible.EncodeAttribute, Convertible.EncodeAttributes and Client.Insert.
- Relations.ToManyRepresents, Convertible.ToManyRepresented: they state that every object is represented only when the objects' identities are distinct. Otherwise the later object of an identity overwrites the earlier one's record.
- Convertible.EncodeAttributes: a relationship is stated as represented only when no other relation attribute of the set has the same related entity. Another such attribute could rewrite the same records later in the loop.
- Convertible.AttributeRoundTrip: for an ordered relationship the decoded element at each object's position is stated only when the objects' identities are distinct; otherwise `OrderedSet` can merge two equal decoded objects and shift later ones. For to-many and ordered relationships it does not state that the decode succeeds: the second pass keeps old members that fail to decode (Attribute.swift:120-122, 184-186), and their failure fails the decode.
- Convertible.EncodeDecodeRoundTrip, Convertible.DecodeAllValues, Convertible.DecodeOrderIndependent, Convertible.FieldTypeRoundTrip: they require distinct key paths across the attribute set. The source only makes names distinct; with two attributes on one key path, the later one in set order decides the value.
- Convertible.DecodedAt: requires distinct key paths as well. It does not state which attribute's decode ends up at a key path that two attributes share.
- Convertible.EncodeToOneAttribute, Convertible.EncodeAttribute, Convertible.EncodeAttributes, Client.Insert, Execute.Run: a to-one attribute is encoded with the corrected closure `Convertible.EncodeToOne`, not the one at Attribute.swift:68-70 (see Findings). What the program as written does to an item with a to-one attribute is stated for the single closure only (`Convertible.EncodeToOneAsWritten`, `Convertible.ToOneAsWrittenLosesRelation`, `Convertible.ToOneAsWrittenFresh`). The whole-object stack does not capture it: the relationship is left alone, and related fields overwrite same-named owner fields such as the identity, so the record no longer matches its identity request.
- Store.Context.HasChanges, Execute.Run: `hasChanges` is modelled as a difference between the working set and the persisted state. Core Data's flag is also set by a write that stores the value already there, for example an upsert of an unchanged item or an `update` to the current value. For such an action the source attempts `save()`, and with a refusing store throws; the model skips the save and returns the action's value.
- `AttributeError.failedToEncode` is declared but never thrown by the source, so no member produces it.

## Findings

| source | as written | input that shows it | evidently intended | confidence | as-written member | corrected member |
|---|---|---|---|---|---|---|
| Sources/SwiftyCoreData/Models/Attribute.swift:68-70 | The to-one encode calls the related object's `encodeAttributes(to: managedObject)` on the owner's own record. It never sets the relationship and never touches a related record. | An owner whose to-one relationship is nil, such as a record just created by `insert(entity:)`. After the encode, decoding the attribute throws `failedToDecode(name, entity)`. Any related field with the same name as an owner field (for example `id`) also overwrites that owner field. | Find or create the related record, as the to-many encoders do. Point the relationship at it, and encode the related object into that record. | not executed | Convertible.ToOneAsWrittenFresh | Convertible.EncodeToOne |

`Convertible.EncodeToOneAsWritten` models the as-written closure. `Convertible.ToOneAsWrittenLosesRelation` states the failure for any owner whose relationship does not point at a live record. The corrected closure `Convertible.EncodeToOne` is partnered by `Convertible.ToOneRoundTrip`. Every whole-object encode in the model (`Convertible.EncodeToOneAttribute`, `Convertible.EncodeAttributes`) uses the corrected closure.
