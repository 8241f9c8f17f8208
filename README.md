# Packed entity collection builder

This project models the write path of LensKit's packed (columnar) entity store, `PackedEntityCollectionBuilder`. The builder has:

- a fixed attribute set (schema) whose position 0 is the `long` entity identifier;
- one append-only column per attribute, where a record that lacks an attribute gets an absent slot (`skip()`);
- an optional index builder per attribute, fed `(value, position)` pairs;
- a record count, an "identifiers still strictly increasing" flag, the last identifier, and an identifier set that is built lazily once order is broken.

The model is imperative where the source is. The builder is a Dafny class with these fields:

- `columns`: one `seq<Option<Value>>` per attribute;
- `indexBuilders`: each is the kind of index plus the entries fed to it;
- `ids`, `isSorted`, `size`, `lastEntityId`.

Its invariant `Valid()` states the following:

- every column holds `size` slots (the `assert` at line 146);
- column 0 holds only identifiers, and the last of them is `lastEntityId`;
- while sorted, the identifiers are strictly increasing;
- the identifier set, once built, is the set of the identifiers stored at that moment;
- each index builder holds the backfill of the slots that existed when it was installed, followed by the values carried by later records.

Modules:

- `Entities` holds typed names, values, records, `long` bounds and the first-match position lookups of an attribute set.
- `BinarySearch` holds `Longs.compare` and the contract of the binary search the builder runs over its identifier column, plus a loop that meets it.
- `Columns` holds what the columns and index builders hold after one record, and what an index holds once its padded entries are removed.
- `PackedStore` holds the builder class, the schema checks and the duplicate-check decisions.
- `Scenarios` holds concrete runs of the builder and the corrected unsorted-mode bookkeeping.

The builder follows the code as written, including the sorted-mode test `res <= 0` and the identifier set that is never extended. Where the code departs from its evident intent, the model follows the code; see "## Findings".

## Model

| member | source | states |
|---|---|---|
| Entities.Lookup | lenskit-core/src/main/java/org/lenskit/data/store/PackedEntityCollectionBuilder.java:75 | the position of a typed name in the attribute set: -1 exactly when absent, otherwise the first position holding it |
| Entities.LookupName | lenskit-core/src/main/java/org/lenskit/data/store/PackedEntityCollectionBuilder.java:84 | the position of the first attribute with a given name, -1 exactly when no attribute has that name |
| BinarySearch.Compare | lenskit-core/src/main/java/org/lenskit/data/store/PackedEntityCollectionBuilder.java:187-190 | the identifier test: negative, zero or positive exactly when the target is below, equal to or above the stored identifier |
| BinarySearch.SearchOutcome | lenskit-core/src/main/java/org/lenskit/data/store/PackedEntityCollectionBuilder.java:125-126 | the search result over an increasing sequence: non-negative iff the target is present, and then its position; otherwise minus the insertion point minus one, with every element before that point below the target and every element from it above |
| BinarySearch.Rank | lenskit-core/src/main/java/org/lenskit/data/store/PackedEntityCollectionBuilder.java:125-126 | the insertion point of an identifier: every element before it is below the identifier, and the element at it, if any, is not |
| BinarySearch.Search | lenskit-core/src/main/java/org/lenskit/data/store/PackedEntityCollectionBuilder.java:180-190 | a binary search that compares with the identifier test returns exactly the search result |
| Columns.BackfillFeed | lenskit-core/src/main/java/org/lenskit/data/store/PackedEntityCollectionBuilder.java:99-101 | the backfill feeds one entry per stored slot, padded ones included, each with its own position |
| Columns.CarriedFeed | lenskit-core/src/main/java/org/lenskit/data/store/PackedEntityCollectionBuilder.java:137-138 | incremental indexing feeds only present values, each equal to its column's slot at its position, with positions in the given range and strictly increasing |
| Columns.CarriedFeedComplete | lenskit-core/src/main/java/org/lenskit/data/store/PackedEntityCollectionBuilder.java:137-138 | incremental indexing feeds every present slot from the install point on, with its position; with `Columns.CarriedFeed` this fixes its entries in both directions |
| Columns.Present | lenskit-core/src/main/java/org/lenskit/data/store/PackedEntityCollectionBuilder.java:99-101 | removing the padded entries of a feed leaves no more entries, all of them present |
| Columns.PresentMembers | lenskit-core/src/main/java/org/lenskit/data/store/PackedEntityCollectionBuilder.java:99-101 | removing the padded entries of a feed keeps an entry iff it is in the feed and carries a value |
| Columns.PresentBackfillIsCarried | lenskit-core/src/main/java/org/lenskit/data/store/PackedEntityCollectionBuilder.java:99-101 | a backfill without its padded entries is what incremental indexing from the first record would have fed |
| Columns.BackfillThenCarried | lenskit-core/src/main/java/org/lenskit/data/store/PackedEntityCollectionBuilder.java:137-138 | a backfill at any record count, padded entries removed, followed by the later incremental entries, equals incremental indexing from the first record |
| Columns.PresentCarried | lenskit-core/src/main/java/org/lenskit/data/store/PackedEntityCollectionBuilder.java:137-138 | incremental indexing never feeds a padded entry |
| Columns.IndexMatchesColumn | lenskit-core/src/main/java/org/lenskit/data/store/PackedEntityCollectionBuilder.java:173-175 | whenever an index was installed, its present entries are exactly the present slots of its column, in position order |
| Columns.FeedStep | lenskit-core/src/main/java/org/lenskit/data/store/PackedEntityCollectionBuilder.java:137-149 | one more record extends an index's feed by one entry if the record carries the attribute, and by nothing if the slot is padded |
| Columns.SlotMeaning | lenskit-core/src/main/java/org/lenskit/data/store/PackedEntityCollectionBuilder.java:132-136 | a record fills each schema position with the value of the attribute stored there, and leaves it absent when it carries none |
| Columns.Slot | lenskit-core/src/main/java/org/lenskit/data/store/PackedEntityCollectionBuilder.java:132-136 | the slot a record fills at a schema position: the value of the record attribute the lookup sends there, absent if none; its meaning is proved by `Columns.SlotMeaning` |
| Columns.NextColumns | lenskit-core/src/main/java/org/lenskit/data/store/PackedEntityCollectionBuilder.java:132-149 | after one record every column has grown by exactly one slot, the record's slot at that position |
| Columns.Fed | lenskit-core/src/main/java/org/lenskit/data/store/PackedEntityCollectionBuilder.java:137-138 | an index builder gains the entry (value, position) exactly when it exists and the record carries the attribute, and otherwise is left as it was |
| Columns.NextIndexes | lenskit-core/src/main/java/org/lenskit/data/store/PackedEntityCollectionBuilder.java:137-138 | after one record each index builder is fed that record's slot at its position |
| PackedStore.CheckSchema | lenskit-core/src/main/java/org/lenskit/data/store/PackedEntityCollectionBuilder.java:46-49 | an attribute set is refused iff it is empty, has 32 or more attributes, or does not start with the identifier, with the message of the first check that fails |
| PackedStore.ShardKindFor | lenskit-core/src/main/java/org/lenskit/data/store/PackedEntityCollectionBuilder.java:60-68 | a non-identifier attribute gets the long, int, double or object shard exactly when its declared type is long, integer, double or another type, never the identifier shard; the constructor states it per position |
| PackedStore.IndexKindFor | lenskit-core/src/main/java/org/lenskit/data/store/PackedEntityCollectionBuilder.java:94-98 | an index is long-keyed exactly when its attribute's raw type is long; `AddIndexAt` states it for the installed builder |
| PackedStore.SortedModeAppends | lenskit-core/src/main/java/org/lenskit/data/store/PackedEntityCollectionBuilder.java:124-128 | the as-written sorted-mode test: with replace the record always gets through; without replace it gets through only if its identifier is already stored; `Decide` states the verdict through it |
| PackedStore.IdsOf | lenskit-core/src/main/java/org/lenskit/data/store/PackedEntityCollectionBuilder.java:113 | the identifiers of the identifier column, one per slot, read in position order |
| PackedStore.SortedModeAppendsIntended | lenskit-core/src/main/java/org/lenskit/data/store/PackedEntityCollectionBuilder.java:124-128 | the corrected sorted-mode test: with replace the record gets through; without replace it gets through only if its identifier is not stored; `SortedModeIntendedDropsDuplicates` gives the converse |
| PackedStore.SortedModeDropsNewIds | lenskit-core/src/main/java/org/lenskit/data/store/PackedEntityCollectionBuilder.java:124-130 | as written, sorted mode without replace drops a record whose identifier is above every stored one |
| PackedStore.SortedModeAppendsOnlyDuplicates | lenskit-core/src/main/java/org/lenskit/data/store/PackedEntityCollectionBuilder.java:124-130 | as written, sorted mode without replace lets a record through iff its identifier is stored at a position other than 0 |
| PackedStore.SortedModeIntendedDropsDuplicates | lenskit-core/src/main/java/org/lenskit/data/store/PackedEntityCollectionBuilder.java:124-130 | with the intended test, sorted mode without replace drops a record iff its identifier is already stored |
| PackedStore.StoreCarried | lenskit-core/src/main/java/org/lenskit/data/store/PackedEntityCollectionBuilder.java:132-140 | routing a record's attributes grows each column by that position's value if the record carries it, leaves every column at most one short, and feeds the index builders as one record |
| PackedStore.StoreStep | lenskit-core/src/main/java/org/lenskit/data/store/PackedEntityCollectionBuilder.java:132-138 | each attribute fills its own position, which no earlier attribute of the record filled, and changes no other position |
| PackedStore.PadColumns | lenskit-core/src/main/java/org/lenskit/data/store/PackedEntityCollectionBuilder.java:144-149 | every column one short is padded with one absent slot, the others are unchanged, and afterwards all have the new record count |
| PackedStore.AppendSlots | lenskit-core/src/main/java/org/lenskit/data/store/PackedEntityCollectionBuilder.java:132-149 | routing then padding leaves the columns and index builders exactly as after one record |
| PackedStore.PaddedIsNext | lenskit-core/src/main/java/org/lenskit/data/store/PackedEntityCollectionBuilder.java:144-149 | storing the carried values and then padding grows every column by the record's slot |
| PackedStore.IndexesStep | lenskit-core/src/main/java/org/lenskit/data/store/PackedEntityCollectionBuilder.java:137-138 | every index builder keeps its backfill-then-carried invariant across an appended record |
| PackedStore.IdSlot | lenskit-core/src/main/java/org/lenskit/data/store/PackedEntityCollectionBuilder.java:132-136 | a record's identifier attribute fills position 0 |
| PackedStore.IdsKeep | lenskit-core/src/main/java/org/lenskit/data/store/PackedEntityCollectionBuilder.java:141-142 | appending an identifier above the last keeps the identifier column increasing, and leaves the prefix the identifier set was built from unchanged |
| PackedStore.PackedEntityCollectionBuilder.Valid | lenskit-core/src/main/java/org/lenskit/data/store/PackedEntityCollectionBuilder.java:141-149 | the builder invariant: every column holds one slot per record (the assert at :146); column 0 holds identifiers whose last is the last identifier; sorted iff no identifier set; while sorted, identifiers strictly increase; the identifier set is the identifiers stored when it was built; each index builder holds its backfill followed by the carried values |
| PackedStore.PackedEntityCollectionBuilder.constructor | lenskit-core/src/main/java/org/lenskit/data/store/PackedEntityCollectionBuilder.java:45-71 | an accepted attribute set gives the identifier shard at 0 and a long, int, double or object shard elsewhere by declared type, empty columns, no index builders, sorted, and no records |
| PackedStore.PackedEntityCollectionBuilder.Create | lenskit-core/src/main/java/org/lenskit/data/store/PackedEntityCollectionBuilder.java:45-71 | construction fails iff the attribute checks refuse, with their error, and otherwise gives an empty valid builder with the given entity type and attribute set |
| PackedStore.PackedEntityCollectionBuilder.AddIndexAt | lenskit-core/src/main/java/org/lenskit/data/store/PackedEntityCollectionBuilder.java:91-102 | installs or replaces the index builder at the position, long-keyed iff the attribute is a long, backfilled with every stored slot in position order; nothing else changes |
| PackedStore.PackedEntityCollectionBuilder.AddIndex | lenskit-core/src/main/java/org/lenskit/data/store/PackedEntityCollectionBuilder.java:73-80 | a typed name outside the attribute set changes nothing; otherwise the index at its position is installed and backfilled |
| PackedStore.PackedEntityCollectionBuilder.AddIndexNamed | lenskit-core/src/main/java/org/lenskit/data/store/PackedEntityCollectionBuilder.java:82-89 | a name no attribute has changes nothing; otherwise the index at the first attribute with that name is installed and backfilled |
| PackedStore.PackedEntityCollectionBuilder.CollectIds | lenskit-core/src/main/java/org/lenskit/data/store/PackedEntityCollectionBuilder.java:110-115 | the scan collects exactly the set of stored identifiers |
| PackedStore.PackedEntityCollectionBuilder.Add | lenskit-core/src/main/java/org/lenskit/data/store/PackedEntityCollectionBuilder.java:104-152 | the sorted flag becomes old flag and identifier above the last, even when the call fails or drops; the identifier set is built once and not extended; a failure with the unsupported-operation message iff unsorted, replacing and the identifier in the set; otherwise exactly one record appended or nothing changed, by the duplicate test of the mode; sorted mode without replace never appends |
| PackedStore.PackedEntityCollectionBuilder.CheckDuplicate | lenskit-core/src/main/java/org/lenskit/data/store/PackedEntityCollectionBuilder.java:106-130 | updates the sorted flag, builds the identifier set from the stored identifiers the first time order is broken, and decides append, drop or refuse |
| PackedStore.PackedEntityCollectionBuilder.Decide | lenskit-core/src/main/java/org/lenskit/data/store/PackedEntityCollectionBuilder.java:109-130 | refuse iff unsorted, in the set and replacing; append iff, unsorted, the identifier is not in the set, or, sorted, replace is set or the search result is positive |
| PackedStore.PackedEntityCollectionBuilder.Append | lenskit-core/src/main/java/org/lenskit/data/store/PackedEntityCollectionBuilder.java:132-149 | one record appended: columns and index builders as after that record, count up by one, last identifier set, the invariant kept |
| PackedStore.PackedEntityCollectionBuilder.AppendKeepsValid | lenskit-core/src/main/java/org/lenskit/data/store/PackedEntityCollectionBuilder.java:132-149 | an append keeps alignment, the identifier invariants and the index invariant |
| PackedStore.PackedEntityCollectionBuilder.Build | lenskit-core/src/main/java/org/lenskit/data/store/PackedEntityCollectionBuilder.java:164-178 | fails with the illegal-state message iff unsorted; otherwise store i is column i with its shard kind, the identifiers are strictly increasing, index i exists iff its builder does, and its present entries are exactly its column's present slots |
| PackedStore.PackedEntityCollectionBuilder.Entities | lenskit-core/src/main/java/org/lenskit/data/store/PackedEntityCollectionBuilder.java:154-162 | whatever the sorted flag, store i is column i with its shard kind and no index exists |
| Scenarios.FirstRecordIsDropped | lenskit-core/src/main/java/org/lenskit/data/store/PackedEntityCollectionBuilder.java:124-130 | the first record added to a fresh builder without replace is dropped; with replace it is stored |
| Scenarios.UnsortedDuplicateIsKept | lenskit-core/src/main/java/org/lenskit/data/store/PackedEntityCollectionBuilder.java:109-123 | `add(5, true)`, `add(3, true)`, `add(3, false)` on attribute set (id, score) leave three records stored; the build is refused; the listing still holds three records |
| Scenarios.UnsortedAppendsIntended | lenskit-core/src/main/java/org/lenskit/data/store/PackedEntityCollectionBuilder.java:109-123 | if appended identifiers were added to the set, unsorted mode would append exactly the incoming identifiers not seen before, each once |

## Left out

- PackedEntityCollectionBuilder.Add: requires every attribute of the record to be in the attribute set at a position no other attribute of the record has. The code reads `indexBuilders[ap]` outside the `ap >= 0` guard (line 137), so an attribute outside the set ends in an array-index exception. A repeated position would break column alignment.
- PackedEntityCollectionBuilder.Add: requires the record to carry its identifier as the `id` attribute, and the identifier to be a `long`. The code reads the identifier from `getId()` and stores whatever the `id` attribute holds.
- PackedEntityCollectionBuilder.Add: `size` is an unbounded count; the 32-bit `int` overflow after 2^31 records is not modelled.
- PackedEntityCollectionBuilder.Build: the finalised stores and indexes are the column and feed contents with their kinds. The shard and index encodings are not modelled: long, int, double and object shards, `PackIndex`, and `PackedEntityCollection` are not part of this model.
- Doubles are modelled as reals; floating-point storage is not modelled.
- The binary search is shown here by its contract (`BinarySearch.SearchOutcome`) and a loop that meets it. The library's own implementation is not part of this model.
- `AttributeSet.lookup` is not part of this model. It is modelled as the first position holding the typed name or name.
- Construction cannot fail in a Dafny constructor. The constructor requires the attribute checks to pass, and `Create` returns the illegal-argument error instead of throwing.
- The fluent `return this` of `add` and `addIndex` is not modelled. Exceptions become `Outcome`/`Result` values.
- The type-token reflection behind the shard and index choice is replaced by a declared-type enumeration.
- Iteration and queries over the finalised collection are left out, as is the immutability of the hand-off.
- The invariant tracks two ghost fields that the code does not have: the record count when each index builder was installed, and the record count when the identifier set was built.

## Findings

| source | as written | input that shows it | evidently intended | confidence | as-written member | corrected member |
|---|---|---|---|---|---|---|
| lenskit-core/src/main/java/org/lenskit/data/store/PackedEntityCollectionBuilder.java:127 | while sorted and not replacing, a record is dropped when the search result is `<= 0`; in sorted mode every new identifier is above all stored ones, so the search returns a negative value and every such record is dropped | a fresh builder, then `add(record with id 5, false)`: the search over no records gives -1 and the record is not stored | drop the record only when the search finds its identifier (`res >= 0`) | not executed | PackedStore.SortedModeDropsNewIds, Scenarios.FirstRecordIsDropped | PackedStore.SortedModeIntendedDropsDuplicates |
| lenskit-core/src/main/java/org/lenskit/data/store/PackedEntityCollectionBuilder.java:109-149 | the identifier set is built once, when order is first broken, and appended identifiers are never added to it, so an identifier first stored out of order passes the duplicate check again | attribute set (id, score), then `add(5, true)`, `add(3, true)`, `add(3, false)`: three records are stored, two of them with identifier 3 | add each appended identifier to the set, so the second 3 is dropped | not executed | Scenarios.UnsortedDuplicateIsKept | Scenarios.UnsortedAppendsIntended |

Both corrected definitions are proved with the intended property. The builder class itself keeps the code's behaviour, so that its contracts describe what the code does.
