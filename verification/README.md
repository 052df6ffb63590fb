# KeichServiceManager core, modelled in Dafny

KeichServiceManager is a topology and event store for monitoring. Feeder
scripts pull hosts, host groups and problems from a source (Zabbix's
JSON-RPC API, or a random generator). They compile them into a hierarchy of
*items* and a list of *events*, tagged with the run's source and a fresh
*source key* (a timestamp that names the generation). Each run then POSTs
the items, deletes every item of the source whose source key differs
(`bySourceAndSourceKeyNot`), and does the same for the events. The Java
service keeps items and events in an `IndexedHashMap`: a cache plus named
secondary indexes kept in step with it. It computes each item's status from
its children (default maximum, or CLUSTER threshold rules) and from the
most severe event related to it. It answers `field=op:value` queries and
writes history in batches.

This project models that core:

- **Scripts** (`feed.dfy`, `zabbix_flat.dfy`, `zabbix_tree.dfy`,
  `random_feed.dfy`).
  - The host/group grouping loops, the path-prefix tree compiler of the
    second Zabbix feeder, the counters of the random feeder, the event
    conversion and the four requests of a run.
  - The server is seen through the origin (source, source key) it stores
    per id.
  - `Feeds.PruneMatchesService` ties the prune the scripts request to the
    entity service's own prune.
- **Store** (`index_contents.dfy`, `equal_index.dfy`, `sorted_index.dfy`,
  `sorted_uniq_index.dfy`, `status_index.dfy`, `long_uniq_index.dfy`,
  `store.dfy`).
  - Each index class is a Dafny class whose map is updated in place.
  - Each is proved against a pure description of what the index must hold
    for a given cache.
  - `IndexedHashMap` keeps every index agreeing with its cache through `put`
    and `remove`.
- **Services** (`entity_service.dfy`, `entity_query.dfy`,
  `item_service.dfy`, `event_relation_service.dfy`, `event_history.dfy`,
  `history_queue.dfy`, `replication_state.dfy`).
  - The entity service's versions, deletes, prune and query.
  - The item service's status calculation and upsert.
  - Max-event tracking per item.
  - The history selection rule and the history queue's batching.
  - The replication bookkeeping.
- **Values** (`base_status.dfy`, `entity.dfy`, `item.dfy`, `item_rule.dfy`,
  `item_filter.dfy`, `aggregate_events_status.dfy`, `aggregate_status.dfy`,
  `event_relation.dfy`, `operators.dfy`, `query_filter.dfy`,
  `query_predicate.dfy`, `predicates.dfy`, `query_sort.dfy`, `decimal.dfy`,
  `wrappers.dfy`).
  - Statuses, entities, items with their rules and filters.
  - Event aggregates, relation ordering.
  - The query-string parsers and predicates.
  - Java's and Python's integer/string conversions.

Several source files come from different revisions of the repository.
Each file is modelled as written:

- `Operator.java` knows neither `GE`/`NI` nor `SORT`/`SORTDESC`, which
  `Predicates.java` and `QuerySort.java` use. `Operators.FromString` models
  `Operator.java`; `Operators.FromStringExtended` is the revision those two
  files call.
- `EventRelationService.add` calls a `put` with an equality callback that
  `IndexedHashMap.java` does not have. It is modelled as an insert, or a
  replacement when the status differs.
- `Item.status` is changed through aliased item objects in the Java code.
  The model keeps it as a side table `status` of `ItemServices.ItemService`.

The second Zabbix feeder intends one node per path prefix, but it derives
a node id by concatenating `__` and each segment, so two different group
paths can share a node: "a__b" and "a/b" both give `__a__b`
(`ZabbixTreeFeed.PathIdsCollide`). The model keeps that id scheme. Such a
shared node takes its fields from the first group whose path reaches it.

Instants are whole numbers (epoch seconds or milliseconds as the source
uses them). The clock (`Instant.now()`), the random draws
(`random.randint`) and the script's timestamp are parameters. Strings are
`seq<char>`. Java's `String.compareTo` is modelled as a lexicographic
comparison of characters. Java compares UTF-16 code units, while a Dafny
`char` is a Unicode scalar value, so strings holding characters above
U+FFFF may be ordered differently from Java.

## Model

| member | source | states |
|---|---|---|
| Status.Ordinal | src/main/java/ru/keich/mon/servicemanager/BaseStatus.java:21-30 | the integer a constant carries is below `length` (6) |
| Status.FromInteger | src/main/java/ru/keich/mon/servicemanager/BaseStatus.java:32-51 | 0 to 5 give the status carrying that integer; a negative integer gives CLEAR; anything above 5 gives CRITICAL |
| Status.FromIntegerOrdinal | src/main/java/ru/keich/mon/servicemanager/BaseStatus.java:22-51 | `fromInteger` undoes the integer a constant carries |
| Status.OrdinalInjective | src/main/java/ru/keich/mon/servicemanager/BaseStatus.java:22 | distinct constants carry distinct integers |
| Status.FromString | src/main/java/ru/keich/mon/servicemanager/BaseStatus.java:53-81 | the digit, lower-case and upper-case spellings of a status all give that status; any result other than CLEAR came from one of its own spellings (anything unknown gives CLEAR) |
| Status.FromStringMixedCase | src/main/java/ru/keich/mon/servicemanager/BaseStatus.java:53-81 | a mixed-case spelling such as "Warning" is not recognised and reads as CLEAR |
| Status.Max | src/main/java/ru/keich/mon/servicemanager/BaseStatus.java:83-90 | with no other status the result is this one; otherwise it is one of the two, at least both, and this one on a tie |
| Status.MaxCommutes | src/main/java/ru/keich/mon/servicemanager/BaseStatus.java:83-90 | the maximum of two present statuses does not depend on the order |
| Status.LessThen | src/main/java/ru/keich/mon/servicemanager/BaseStatus.java:91-96 | strict: it never holds between equal statuses |
| Status.LessThenStrictTotal | src/main/java/ru/keich/mon/servicemanager/BaseStatus.java:91-96 | asymmetric, and any two different statuses are ordered one way |
| Status.LessThenTransitive | src/main/java/ru/keich/mon/servicemanager/BaseStatus.java:91-96 | transitive |
| Status.LessThenOrEqual | src/main/java/ru/keich/mon/servicemanager/BaseStatus.java:98-106 | holds exactly when `lessThen` holds or the statuses are equal |
| Status.MoreThen | src/main/java/ru/keich/mon/servicemanager/BaseStatus.java:108-113 | holds exactly when the other status is `lessThen` this one |
| Status.Bounds | src/main/java/ru/keich/mon/servicemanager/BaseStatus.java:22 | CLEAR is the lowest status and CRITICAL the highest |
| Decimal.DigitChar | scripts/load_obj_random.py:20 | the decimal digit character of a value below ten |
| Decimal.NatToString | scripts/load_obj_random.py:20 | `str` of a natural number: non-empty, all digits, no leading zero except for 0 itself |
| Decimal.NatToStringValue | scripts/load_obj_random.py:20 | reading the digits back gives the number |
| Decimal.NatToStringInjective | scripts/load_obj_random.py:20 | different numbers give different strings |
| Decimal.IntToString | src/main/java/ru/keich/mon/servicemanager/query/QueryPredicate.java:95-100 | the decimal text of an integer, with a minus sign exactly when negative |
| Decimal.ParseInteger | src/main/java/ru/keich/mon/servicemanager/query/QuerySort.java:33 | a parsed value lies within the type's range |
| Decimal.ParseIntToString | src/main/java/ru/keich/mon/servicemanager/query/QuerySort.java:33 | parsing the text of an in-range integer gives it back |
| Decimal.IntegerValueOf | src/main/java/ru/keich/mon/servicemanager/query/QuerySort.java:33 | `Integer.valueOf` yields only 32-bit values |
| Decimal.LongValueOf | src/main/java/ru/keich/mon/servicemanager/entity/EntityService.java:89 | `Long.valueOf` yields only 64-bit values |
| Entities.SourceKeys | src/main/java/ru/keich/mon/servicemanager/entity/Entity.java:70-72 | the source is the one key an entity is filed under in the source index |
| Entities.SourceKeyKeys | src/main/java/ru/keich/mon/servicemanager/entity/Entity.java:74-76 | the source key is the one key in the source-key index |
| Entities.VersionKeys | src/main/java/ru/keich/mon/servicemanager/entity/Entity.java:78-80 | the version is the one key in the version index |
| Entities.DeletedOnKeys | src/main/java/ru/keich/mon/servicemanager/entity/Entity.java:82-87 | a live entity has no key in the deletion index; a deleted one has exactly its deletion time |
| Entities.FieldKeys | src/main/java/ru/keich/mon/servicemanager/entity/Entity.java:89-91 | one entry key per field, naming the field and its value, and nothing else |
| IndexContents.BucketAppend | src/main/java/ru/keich/mon/servicemanager/store/IndexEqual.java:50-62 | after `append` an id is filed under a key exactly when it was before or the key is one of the entity's keys and the id is the entity's; the key set grows by the entity's keys; no empty set appears |
| IndexContents.BucketRemove | src/main/java/ru/keich/mon/servicemanager/store/IndexEqual.java:65-77 | after `remove` an id is filed under a key exactly when it was before and is not the entity's id under one of its keys; untouched keys keep their sets; emptied keys are dropped |
| IndexContents.BucketGet | src/main/java/ru/keich/mon/servicemanager/store/IndexEqual.java:80-86 | the ids filed under the key, and the empty set for a missing key |
| IndexContents.BucketsOf | src/main/java/ru/keich/mon/servicemanager/store/IndexedHashMap.java:73-109 | the index that agrees with a cache: an id is filed under a key exactly when that id's cached entity maps to the key, with no empty sets |
| IndexContents.BucketsExtensional | src/main/java/ru/keich/mon/servicemanager/store/IndexEqual.java:32 | two key-to-id-set maps without empty sets are equal when they file the same ids under the same keys |
| IndexContents.BucketsInsert | src/main/java/ru/keich/mon/servicemanager/store/IndexedHashMap.java:85-93 | appending a new entity to an index that agrees with the cache gives the index of the cache with the entity added |
| IndexContents.BucketsDelete | src/main/java/ru/keich/mon/servicemanager/store/IndexedHashMap.java:102-109 | removing a cached entity from an index that agrees with the cache gives the index of the cache without it |
| IndexContents.BucketsReplace | src/main/java/ru/keich/mon/servicemanager/store/IndexedHashMap.java:75-84 | remove-then-append of the new entity gives the index of the cache with the entity replaced |
| IndexContents.AppendThenRemove | src/main/java/ru/keich/mon/servicemanager/store/IndexEqual.java:50-77 | appending an entity and removing it again restores the index, when its id was under none of its keys |
| IndexContents.IdsBefore | src/main/java/ru/keich/mon/servicemanager/store/IndexSorted.java:69-72 | `headMap(key)`: exactly the ids under keys strictly below `key` |
| IndexContents.IdsFrom | src/main/java/ru/keich/mon/servicemanager/store/IndexSorted.java:74-77 | `tailMap(key)`: exactly the ids under keys at or above `key` |
| IndexContents.UniqKeysAreUnique | src/main/java/ru/keich/mon/servicemanager/store/IndexSortedUniq.java:36-43 | in a unique index that agrees with the cache, two cached entities never share a key |
| IndexContents.UniqAppend | src/main/java/ru/keich/mon/servicemanager/store/IndexSortedUniq.java:36-43 | appending with all keys free files the entity's id under each of its keys and leaves every other key as it was |
| IndexContents.UniqFrom | src/main/java/ru/keich/mon/servicemanager/store/IndexSortedUniq.java:63-66 | exactly the ids under keys at or above `key` |
| IndexContents.UniqBefore | src/main/java/ru/keich/mon/servicemanager/store/IndexSortedUniq.java:58-61 | exactly the ids under keys strictly below `key` |
| IndexContents.UniqRanges | src/main/java/ru/keich/mon/servicemanager/store/IndexSortedUniq.java:58-66 | on a unique index that agrees with the cache, the range queries select the cached entities that have a key on that side |
| IndexContents.UniqInsert | src/main/java/ru/keich/mon/servicemanager/store/IndexSortedUniq.java:36-43 | inserting an entity whose keys are all free keeps the unique index in agreement with the cache |
| IndexContents.UniqDelete | src/main/java/ru/keich/mon/servicemanager/store/IndexSortedUniq.java:46-50 | removing a cached entity's keys keeps the unique index in agreement with the smaller cache |
| EqualIndex.IndexEqual.constructor | src/main/java/ru/keich/mon/servicemanager/store/IndexEqual.java:34-36 | a new index holds nothing and keeps the mapper |
| EqualIndex.IndexEqual.Append | src/main/java/ru/keich/mon/servicemanager/store/IndexEqual.java:50-62 | the key loop leaves exactly `BucketAppend` of the old contents |
| EqualIndex.IndexEqual.Remove | src/main/java/ru/keich/mon/servicemanager/store/IndexEqual.java:65-77 | the key loop leaves exactly `BucketRemove` of the old contents |
| EqualIndex.IndexEqual.Get | src/main/java/ru/keich/mon/servicemanager/store/IndexEqual.java:80-86 | exactly the ids under the key, none for a missing key |
| EqualIndex.IndexEqual.GetBefore | src/main/java/ru/keich/mon/servicemanager/store/IndexEqual.java:88-91 | always an error: an equality index has no order |
| EqualIndex.IndexEqual.GetAfter | src/main/java/ru/keich/mon/servicemanager/store/IndexEqual.java:93-96 | always an error, like `getBefore` |
| EqualIndex.IndexEqual.FindByKey | src/main/java/ru/keich/mon/servicemanager/store/IndexEqual.java:38-47 | a negative limit is an error; otherwise at most `limit` ids, each filed under a key the predicate accepts, and every such id when fewer than `limit` came back |
| SortedIndex.IndexSorted.constructor | src/main/java/ru/keich/mon/servicemanager/store/IndexSorted.java:32-34 | a new index holds nothing |
| SortedIndex.IndexSorted.Append | src/main/java/ru/keich/mon/servicemanager/store/IndexSorted.java:36-47 | leaves exactly `BucketAppend` of the old contents |
| SortedIndex.IndexSorted.Remove | src/main/java/ru/keich/mon/servicemanager/store/IndexSorted.java:49-60 | leaves exactly `BucketRemove` of the old contents |
| SortedIndex.IndexSorted.Get | src/main/java/ru/keich/mon/servicemanager/store/IndexSorted.java:62-67 | exactly the ids at this key |
| SortedIndex.IndexSorted.GetBefore | src/main/java/ru/keich/mon/servicemanager/store/IndexSorted.java:69-72 | exactly the ids under keys strictly below `key` |
| SortedIndex.IndexSorted.GetAfter | src/main/java/ru/keich/mon/servicemanager/store/IndexSorted.java:74-77 | exactly the ids under keys at or above `key` |
| SortedIndex.IndexSorted.RangesCover | src/main/java/ru/keich/mon/servicemanager/store/IndexSorted.java:69-77 | together the two range queries hold every filed id, and each key's ids land on its own side |
| SortedUniqIndex.IndexSortedUniq.constructor | src/main/java/ru/keich/mon/servicemanager/store/IndexSortedUniq.java:31-33 | a new index holds nothing |
| SortedUniqIndex.IndexSortedUniq.Append | src/main/java/ru/keich/mon/servicemanager/store/IndexSortedUniq.java:36-43 | succeeds exactly when none of the entity's keys is taken, and then files the id under each; on the error path the keys put before the taken one stay, and no existing key changes |
| SortedUniqIndex.IndexSortedUniq.Remove | src/main/java/ru/keich/mon/servicemanager/store/IndexSortedUniq.java:46-50 | drops every key of the entity, whatever id it names |
| SortedUniqIndex.IndexSortedUniq.Get | src/main/java/ru/keich/mon/servicemanager/store/IndexSortedUniq.java:52-56 | at most one id: the one under the key |
| SortedUniqIndex.IndexSortedUniq.GetBefore | src/main/java/ru/keich/mon/servicemanager/store/IndexSortedUniq.java:58-61 | exactly the ids under keys strictly below `key` |
| SortedUniqIndex.IndexSortedUniq.GetAfter | src/main/java/ru/keich/mon/servicemanager/store/IndexSortedUniq.java:63-66 | exactly the ids under keys at or above `key` |
| SortedUniqIndex.IndexSortedUniq.AppendThenRemove | src/main/java/ru/keich/mon/servicemanager/store/IndexSortedUniq.java:36-50 | appending an entity with free keys and removing it again restores the index |
| LongUniqIndex.IndexLongUniq.constructor | src/main/java/ru/keich/mon/servicemanager/store/IndexLongUniq.java:28-35 | a new index holds nothing and its gauge shows 0 |
| LongUniqIndex.IndexLongUniq.Append | src/main/java/ru/keich/mon/servicemanager/store/IndexLongUniq.java:37-63 | a taken key throws and changes nothing; otherwise the key names the entity's id and the gauge shows the size, one more than before |
| LongUniqIndex.IndexLongUniq.Remove | src/main/java/ru/keich/mon/servicemanager/store/IndexLongUniq.java:44-69 | the entity's key is dropped whatever id it names, and the gauge shows the new size |
| LongUniqIndex.IndexLongUniq.FindByKey | src/main/java/ru/keich/mon/servicemanager/store/IndexLongUniq.java:48-57 | exactly the ids whose key the predicate accepts |
| LongUniqIndex.IndexLongUniq.Get | src/main/java/ru/keich/mon/servicemanager/store/IndexLongUniq.java:71-78 | at most one id: the one under the key |
| LongUniqIndex.IndexLongUniq.GetBefore | src/main/java/ru/keich/mon/servicemanager/store/IndexLongUniq.java:80-87 | exactly the ids under keys strictly below `key` |
| LongUniqIndex.IndexLongUniq.GetAfterEqual | src/main/java/ru/keich/mon/servicemanager/store/IndexLongUniq.java:89-96 | exactly the ids under keys at or above `key` |
| LongUniqIndex.IndexLongUniq.GetAfterFirst | src/main/java/ru/keich/mon/servicemanager/store/IndexLongUniq.java:98-105 | nothing exactly when every key is below `key`; otherwise the single id under a key at or above it |
| LongUniqIndex.IndexLongUniq.ValueSet | src/main/java/ru/keich/mon/servicemanager/store/IndexLongUniq.java:107-110 | exactly the ids in the index |
| LongUniqIndex.IndexLongUniq.RemoveOldAndAppend | src/main/java/ru/keich/mon/servicemanager/store/IndexLongUniq.java:117-128 | an unchanged key refreshes only the gauge; a changed key is moved to the new entity's id; a taken new key throws after the old key is gone and before the gauge is refreshed |
| StatusIndex.IndexStatus.constructor | src/main/java/ru/keich/mon/servicemanager/store/IndexStatus.java:36-42 | six empty buckets, and the gauge shows 6 |
| StatusIndex.IndexStatus.Append | src/main/java/ru/keich/mon/servicemanager/store/IndexStatus.java:44-68 | the id joins exactly the buckets of the statuses the entity maps to; the other buckets are unchanged |
| StatusIndex.IndexStatus.Remove | src/main/java/ru/keich/mon/servicemanager/store/IndexStatus.java:49-73 | the id leaves exactly the buckets of the statuses the entity maps to |
| StatusIndex.IndexStatus.Get | src/main/java/ru/keich/mon/servicemanager/store/IndexStatus.java:75-79 | exactly the ids in the status's bucket |
| StatusIndex.IndexStatus.FindByKey | src/main/java/ru/keich/mon/servicemanager/store/IndexStatus.java:54-63 | exactly the ids in the buckets of the statuses the predicate accepts |
| StatusIndex.IndexStatus.GetBefore | src/main/java/ru/keich/mon/servicemanager/store/IndexStatus.java:81-89 | exactly the ids in the buckets of the statuses strictly below the given one |
| StatusIndex.IndexStatus.GetAfterEqual | src/main/java/ru/keich/mon/servicemanager/store/IndexStatus.java:91-99 | exactly the ids in the buckets of the given status and those above it |
| StatusIndex.IndexStatus.GetAfterFirst | src/main/java/ru/keich/mon/servicemanager/store/IndexStatus.java:101-109 | the bucket of the next status up, and nothing above CRITICAL |
| StatusIndex.IndexStatus.ValueSet | src/main/java/ru/keich/mon/servicemanager/store/IndexStatus.java:111-118 | exactly the ids in any bucket |
| StatusIndex.IndexStatus.RemoveOldAndAppend | src/main/java/ru/keich/mon/servicemanager/store/IndexStatus.java:125-141 | the id leaves the buckets only the old entity maps to and joins those only the new one maps to; no other id moves; an id that sat exactly in the old entity's buckets ends up exactly in the new entity's |
| Store.NewIndex | src/main/java/ru/keich/mon/servicemanager/store/IndexedHashMap.java:43-55 | `createIndex` makes an index of the requested type, and a fresh index agrees with an empty cache |
| Store.IndexAppend | src/main/java/ru/keich/mon/servicemanager/store/IndexedHashMap.java:79-91 | `append` on one index fails exactly for a unique index that already holds one of the entity's keys, and keeps the index's type |
| Store.IndexRemove | src/main/java/ru/keich/mon/servicemanager/store/IndexedHashMap.java:102-109 | `remove` on one index keeps its type |
| Store.AgreesAppend | src/main/java/ru/keich/mon/servicemanager/store/IndexedHashMap.java:85-93 | appending an entity that is not cached yet keeps an index in agreement with the larger cache |
| Store.AgreesRemove | src/main/java/ru/keich/mon/servicemanager/store/IndexedHashMap.java:102-109 | removing a cached entity keeps an index in agreement with the smaller cache |
| Store.AgreesReplace | src/main/java/ru/keich/mon/servicemanager/store/IndexedHashMap.java:75-84 | remove-then-append keeps an index in agreement with the cache where the entity is replaced |
| Store.OnlyUniqueIndexesReject | src/main/java/ru/keich/mon/servicemanager/store/IndexedHashMap.java:43-55 | equality and sorted indexes never reject an entity |
| Store.UniqReplaceRejects | src/main/java/ru/keich/mon/servicemanager/store/IndexedHashMap.java:75-84 | moving a unique index to a replacement that shares a key with another cached entity is rejected |
| Store.AllAgreeAfterInsert | src/main/java/ru/keich/mon/servicemanager/store/IndexedHashMap.java:85-93 | appending a new entity to every index keeps all of them in agreement with the larger cache |
| Store.AllAgreeAfterReplace | src/main/java/ru/keich/mon/servicemanager/store/IndexedHashMap.java:75-84 | moving every index to the replacement keeps all of them in agreement |
| Store.IndexedHashMap.constructor | src/main/java/ru/keich/mon/servicemanager/store/IndexedHashMap.java:36-41 | an empty cache and no indexes |
| Store.IndexedHashMap.CreateIndex | src/main/java/ru/keich/mon/servicemanager/store/IndexedHashMap.java:43-55 | the named index is (re)placed by a fresh one of the type; the cache is untouched; the store stays valid when the cache is empty |
| Store.IndexedHashMap.Get | src/main/java/ru/keich/mon/servicemanager/store/IndexedHashMap.java:98-100 | the cached entity exactly when the id is cached |
| Store.IndexedHashMap.IndexGet | src/main/java/ru/keich/mon/servicemanager/store/IndexedHashMap.java:57-59 | a missing index name fails; on a valid store an equality index gives exactly the cached entities filed under the key, and a sorted index gives those whose mapped numbers include it |
| Store.IndexedHashMap.IndexGetAfter | src/main/java/ru/keich/mon/servicemanager/store/IndexedHashMap.java:65-67 | only sorted indexes answer; on a valid store the ids of cached entities with a key at or above the number |
| Store.IndexedHashMap.IndexGetBefore | src/main/java/ru/keich/mon/servicemanager/store/IndexedHashMap.java:69-71 | only sorted indexes answer; on a valid store the ids of cached entities with a key strictly below the number |
| Store.IndexedHashMap.AppendToIndexes | src/main/java/ru/keich/mon/servicemanager/store/IndexedHashMap.java:89-91 | every index is appended to, and the loop fails exactly when some unique index rejects the entity |
| Store.IndexedHashMap.MoveInIndexes | src/main/java/ru/keich/mon/servicemanager/store/IndexedHashMap.java:79-82 | every index moves from the old entity to the new, and the loop fails exactly when some unique index rejects it |
| Store.IndexedHashMap.Put | src/main/java/ru/keich/mon/servicemanager/store/IndexedHashMap.java:73-96 | an absent id stores the insert trigger's entity, a present id stores the update trigger's result; a declining trigger changes nothing; a stored entity is cached under its id and every index agrees with the new cache; a unique-key clash fails after the cache is written |
| Store.IndexedHashMap.Remove | src/main/java/ru/keich/mon/servicemanager/store/IndexedHashMap.java:102-109 | returns the cached entity, which leaves the cache and every index; the store stays valid |
| Operators.ToUpper | src/main/java/ru/keich/mon/servicemanager/query/Operator.java:24 | the string with each ASCII lower-case letter turned upper-case, letter by letter, length kept |
| Operators.ToUpperIdempotent | src/main/java/ru/keich/mon/servicemanager/query/Operator.java:24 | upper-casing twice is upper-casing once |
| Operators.FromString | src/main/java/ru/keich/mon/servicemanager/query/Operator.java:23-39 | never ALL; either ERROR or one of the six comparison operators whose name is the upper-cased string, and that operator whenever the upper-cased string names one |
| Operators.FromStringName | src/main/java/ru/keich/mon/servicemanager/query/Operator.java:23-39 | each comparison operator's own name reads back as that operator |
| Operators.FromStringIgnoresCase | src/main/java/ru/keich/mon/servicemanager/query/Operator.java:24 | reading ignores letter case |
| Operators.FromStringExtended | src/main/java/ru/keich/mon/servicemanager/query/Operator.java:23-39 | the later enum's reading: never ALL, and a recognised operator is the one the upper-cased string names |
| Operators.FromStringExtendedAgrees | src/main/java/ru/keich/mon/servicemanager/query/Operator.java:23-39 | the two enum revisions read every string the older one recognises the same way |
| Operators.ReadsLowerSort | src/main/java/ru/keich/mon/servicemanager/query/Operator.java:24 | a lower-case `sort` reads as SORT |
| QueryFilter.IndexOf | src/main/java/ru/keich/mon/servicemanager/query/Filter.java:27 | the first position of the character, or none exactly when it does not occur |
| QueryFilter.SplitFirstColon | src/main/java/ru/keich/mon/servicemanager/query/Filter.java:27 | `split(":", 2)`: one part (the whole string) exactly when there is no colon, otherwise a colon-free head and the rest, joined back by the first colon |
| QueryFilter.IndexOfAfterPrefix | src/main/java/ru/keich/mon/servicemanager/query/Filter.java:27 | the first occurrence after a prefix free of the character is at the prefix's length |
| QueryFilter.SplitJoin | src/main/java/ru/keich/mon/servicemanager/query/Filter.java:27 | splitting `op:rest` with a colon-free `op` gives back `op` and `rest` |
| QueryFilter.Parse | src/main/java/ru/keich/mon/servicemanager/query/Filter.java:26-36 | the name is kept; a value without a colon gives the ERROR operator and the whole value; otherwise the value is split at its first colon |
| QueryFilter.ParseOperatorAndRest | src/main/java/ru/keich/mon/servicemanager/query/Filter.java:26-36 | `op:rest` reads as the operator `op` names and the value `rest` |
| QueryFilter.ParseKeepsLaterColons | src/main/java/ru/keich/mon/servicemanager/query/Filter.java:27-30 | only the first colon splits: `eq:a:b` has the value `a:b` |
| QueryPredicates.ContainsAt | src/main/java/ru/keich/mon/servicemanager/query/QueryPredicate.java:95-100 | `contains` holds exactly when the text occurs at some offset |
| QueryPredicates.ContainsEmpty | src/main/java/ru/keich/mon/servicemanager/query/QueryPredicate.java:100 | every string contains the empty string |
| QueryPredicates.CompareStrings | src/main/java/ru/keich/mon/servicemanager/query/QueryPredicate.java:71-72 | the sign of `String.compareTo`: in -1..1, and 0 exactly for equal strings |
| QueryPredicates.CompareStringsAntisymmetric | src/main/java/ru/keich/mon/servicemanager/query/QueryPredicate.java:71-85 | swapping the strings negates the sign |
| QueryPredicates.CompareTo | src/main/java/ru/keich/mon/servicemanager/query/QueryPredicate.java:70-85 | `compareTo` succeeds exactly on two strings or two numbers, and then gives a sign that is 0 exactly for equal values |
| QueryPredicates.CompareToFlips | src/main/java/ru/keich/mon/servicemanager/query/QueryPredicate.java:70-85 | comparing the other way round negates the sign |
| QueryPredicates.Test | src/main/java/ru/keich/mon/servicemanager/query/QueryPredicate.java:61-126 | equality, inequality and not-include never throw; contain and not-contain throw exactly when an entry filter meets a non-entry; the comparisons throw exactly when the values cannot be compared |
| QueryPredicates.Equal | src/main/java/ru/keich/mon/servicemanager/query/QueryPredicate.java:61-63 | holds of exactly the candidates equal to the value |
| QueryPredicates.NotEqual | src/main/java/ru/keich/mon/servicemanager/query/QueryPredicate.java:65-67 | holds of exactly the candidates not equal to the value |
| QueryPredicates.GreaterEqual | src/main/java/ru/keich/mon/servicemanager/query/QueryPredicate.java:69-73 | the cast to Comparable fails exactly for an entry; otherwise a GE predicate on the value |
| QueryPredicates.GreaterThan | src/main/java/ru/keich/mon/servicemanager/query/QueryPredicate.java:75-79 | the cast fails exactly for an entry; otherwise a GT predicate on the value |
| QueryPredicates.LessThan | src/main/java/ru/keich/mon/servicemanager/query/QueryPredicate.java:81-85 | the cast fails exactly for an entry; otherwise an LT predicate on the value |
| QueryPredicates.Contain | src/main/java/ru/keich/mon/servicemanager/query/QueryPredicate.java:87-103 | a CO predicate on the value |
| QueryPredicates.NotContain | src/main/java/ru/keich/mon/servicemanager/query/QueryPredicate.java:105-121 | an NC predicate on the value |
| QueryPredicates.NotInclude | src/main/java/ru/keich/mon/servicemanager/query/QueryPredicate.java:123-126 | an NI predicate on the value |
| QueryPredicates.NotEqualNegatesEqual | src/main/java/ru/keich/mon/servicemanager/query/QueryPredicate.java:61-67 | not-equal accepts exactly what equal rejects |
| QueryPredicates.NumericComparisons | src/main/java/ru/keich/mon/servicemanager/query/QueryPredicate.java:69-85 | on numbers, greater-than, less-than and greater-equal are the integer order of the candidate against the value |
| QueryPredicates.GreaterEqualIsGreaterOrEqual | src/main/java/ru/keich/mon/servicemanager/query/QueryPredicate.java:69-79 | greater-equal holds exactly when greater-than or equal holds |
| QueryPredicates.LessThanMirrorsGreaterThan | src/main/java/ru/keich/mon/servicemanager/query/QueryPredicate.java:75-85 | less-than with value a accepts b exactly when greater-than with value b accepts a |
| QueryPredicates.ContainOtherKey | src/main/java/ru/keich/mon/servicemanager/query/QueryPredicate.java:90-98 | an entry under another key is rejected by both contain and not-contain |
| QueryPredicates.ContainSameKey | src/main/java/ru/keich/mon/servicemanager/query/QueryPredicate.java:90-116 | under the same key, contain is a substring test of the values and not-contain its negation |
| QueryPredicates.NotContainNegatesContain | src/main/java/ru/keich/mon/servicemanager/query/QueryPredicate.java:99-125 | for a non-entry value, not-contain and not-include are both the negation of contain |
| QueryPredicates.ContainExample | src/main/java/ru/keich/mon/servicemanager/query/QueryPredicate.java:90-98 | the entry filter `k=ab` matches the entry `k=xaby` |
| Predicates.AsPredicateOp | src/main/java/ru/keich/mon/servicemanager/query/predicates/Predicates.java:29-48 | the switch dispatches the eight predicate operators and sends SORT, SORTDESC, ERROR and ALL to the default branch |
| Predicates.TestPred | src/main/java/ru/keich/mon/servicemanager/query/predicates/Predicates.java:54-56 | the error predicate holds of nothing; the others test as their operator says |
| Predicates.FromParam | src/main/java/ru/keich/mon/servicemanager/query/predicates/Predicates.java:25-52 | the name is kept; without a colon, equality with the converted whole value; an error predicate always carries the whole value |
| Predicates.FromParamRecognised | src/main/java/ru/keich/mon/servicemanager/query/predicates/Predicates.java:26-45 | a recognised `op:rest` gives that operator on the converted rest |
| Predicates.FromParamUnrecognised | src/main/java/ru/keich/mon/servicemanager/query/predicates/Predicates.java:46-47 | an unrecognised operator gives the error predicate on the whole value, which matches nothing |
| Predicates.SortIsNoFilter | src/main/java/ru/keich/mon/servicemanager/query/predicates/Predicates.java:46-47 | `sort:1` becomes the error predicate |
| QuerySorts.Error | src/main/java/ru/keich/mon/servicemanager/query/QuerySort.java:46-48 | the ERROR sort of order 0 |
| QuerySorts.FromParam | src/main/java/ru/keich/mon/servicemanager/query/QuerySort.java:28-38 | the name is kept, the operator is SORT, SORTDESC or ERROR, the order is a 32-bit int, and a value without a colon is the ERROR sort |
| QuerySorts.FromParamSort | src/main/java/ru/keich/mon/servicemanager/query/QuerySort.java:28-38 | `sort:n` and `sortdesc:n` carry their operator and `Integer.valueOf(n)`, failing when that throws; other operators give ERROR |
| QuerySorts.FromParamNotANumber | src/main/java/ru/keich/mon/servicemanager/query/QuerySort.java:33 | `sort:x` throws NumberFormatException |
| QuerySorts.Wrap32 | src/main/java/ru/keich/mon/servicemanager/query/QuerySort.java:53 | 32-bit int arithmetic: in range, the identity on ints, and congruent modulo 2^32 |
| QuerySorts.CompareToAsWrittenOverflows | src/main/java/ru/keich/mon/servicemanager/query/QuerySort.java:51-54 | the subtraction overflows: order IntMin compares above order 1 |
| QuerySorts.CompareToAsWrittenSmallOrders | src/main/java/ru/keich/mon/servicemanager/query/QuerySort.java:51-54 | while both orders lie within ±2^30 the written comparison has the right sign |
| QuerySorts.CompareTo | src/main/java/ru/keich/mon/servicemanager/query/QuerySort.java:51-54 | the intended comparison: negative, zero and positive exactly as the first order is below, equal to or above the second |
| QuerySorts.CompareToAntisymmetric | src/main/java/ru/keich/mon/servicemanager/query/QuerySort.java:51-54 | the intended comparison is antisymmetric and agrees with the written one wherever that one is right |
| EntityQueries.ProducerOf | src/main/java/ru/keich/mon/servicemanager/entity/EntityService.java:68-121 | the nine producers registered in the constructor, each under an ALL, EQ, GT or LT id, and the all-versions producer exactly under `PRODUCER_ID_ALL` |
| EntityQueries.RuleOf | src/main/java/ru/keich/mon/servicemanager/entity/EntityService.java:76-138 | the six filters registered in the constructor, each under an NE, CO or NC id |
| EntityQueries.ProducersAndRulesDisjoint | src/main/java/ru/keich/mon/servicemanager/entity/EntityService.java:68-138 | no query id is registered both as a producer and as a filter |
| EntityQueries.ProducerArgument | src/main/java/ru/keich/mon/servicemanager/entity/EntityService.java:88-121 | version producers read `Long.valueOf` and fail exactly when it throws; deletion-time producers read `Instant.parse` and fail exactly when it throws; the others take the string as it is |
| EntityQueries.VersionNeAsWritten | src/main/java/ru/keich/mon/servicemanager/entity/EntityService.java:103-106 | the written version filter fails exactly when `Long.valueOf` throws |
| EntityQueries.DeletedOnNeAsWritten | src/main/java/ru/keich/mon/servicemanager/entity/EntityService.java:123-130 | the written deletion filter fails exactly for an entity with a creation time and an unreadable value |
| EntityQueries.Keep | src/main/java/ru/keich/mon/servicemanager/entity/EntityService.java:76-138 | a filter fails exactly when the version filter's value is no Long, or the deletion filter meets a deleted entity and an unreadable time |
| EntityQueries.KeepNegatesProducer | src/main/java/ru/keich/mon/servicemanager/entity/EntityService.java:72-130 | each NE filter keeps exactly the entities the EQ producer of the same name does not list |
| EntityQueries.ContainsNegatesNotContains | src/main/java/ru/keich/mon/servicemanager/entity/EntityService.java:132-138 | the history NC filter keeps exactly what the CO filter drops, and neither throws |
| EntityQueries.VersionNeAsWrittenKeepsEqualVersion | src/main/java/ru/keich/mon/servicemanager/entity/EntityService.java:103-106 | as written, `version=ne:200` keeps the entity of version 200 while `version=ne:100` drops the one of version 100 |
| EntityQueries.VersionNeDropsEqualVersion | src/main/java/ru/keich/mon/servicemanager/entity/EntityService.java:103-106 | the corrected version filter drops exactly the entities of that version |
| EntityQueries.DeletedOnNeAsWrittenReadsCreation | src/main/java/ru/keich/mon/servicemanager/entity/EntityService.java:123-130 | as written, `deletedOn=ne:t` drops a live entity created at another time and keeps one created at t |
| EntityQueries.DeletedOnNeDropsEqualTime | src/main/java/ru/keich/mon/servicemanager/entity/EntityService.java:123-130 | the corrected deletion filter keeps live entities and drops exactly those deleted at t |
| EntityQueries.ProducerFilters | src/main/java/ru/keich/mon/servicemanager/entity/EntityService.java:215-217 | the query's filters that have a producer, and only those |
| EntityQueries.RuleFilters | src/main/java/ru/keich/mon/servicemanager/entity/EntityService.java:241-242 | the query's filters that have a filter rule, and only those |
| EntityQueries.Producers | src/main/java/ru/keich/mon/servicemanager/entity/EntityService.java:215-221 | at least one producer: the query's own, or the all-versions producer with an empty value when it has none |
| EntityQueries.RemoveIf | src/main/java/ru/keich/mon/servicemanager/entity/EntityService.java:243-245 | `removeIf` fails exactly when the rule throws on some entity, and otherwise keeps exactly the entities the rule keeps, unchanged |
| EntityQueries.ApplyRules | src/main/java/ru/keich/mon/servicemanager/entity/EntityService.java:241-245 | on success the survivors are exactly the entities every rule keeps, unchanged; a failure means some rule threw on some entity |
| EntityQueries.ApplyRulesSucceeds | src/main/java/ru/keich/mon/servicemanager/entity/EntityService.java:241-245 | when no rule throws on any entity the filter loop succeeds |
| EntityServices.Stale | src/main/java/ru/keich/mon/servicemanager/entity/EntityService.java:186-190 | the ids of the source whose source key differs from the given one |
| EntityServices.Prune | src/main/java/ru/keich/mon/servicemanager/entity/EntityService.java:186-197 | a prune only removes entities and leaves the survivors unchanged |
| EntityServices.PruneKeepsOtherSources | src/main/java/ru/keich/mon/servicemanager/entity/EntityService.java:186-197 | a prune never touches an entity of another source |
| EntityServices.PruneKeepsGeneration | src/main/java/ru/keich/mon/servicemanager/entity/EntityService.java:186-197 | within the source exactly the entities of the given generation survive |
| EntityServices.PruneIdempotent | src/main/java/ru/keich/mon/servicemanager/entity/EntityService.java:186-197 | pruning twice with the same arguments deletes nothing more |
| EntityServices.Removed | src/main/java/ru/keich/mon/servicemanager/entity/EntityService.java:176-184 | `deleteByIds` deletes no more ids than were listed |
| EntityServices.RemovedExact | src/main/java/ru/keich/mon/servicemanager/entity/EntityService.java:176-184 | the deleted ids are exactly the listed ids that were cached, each once |
| EntityServices.DistinctCard | src/main/java/ru/keich/mon/servicemanager/entity/EntityService.java:190-195 | a list without repeats has as many distinct ids as elements |
| EntityServices.IsEntityEqual | src/main/java/ru/keich/mon/servicemanager/entity/EntityService.java:149-156 | equal only when `equals` holds, and exactly `equals` when equal values hash alike |
| EntityServices.EntityService.constructor | src/main/java/ru/keich/mon/servicemanager/entity/EntityService.java:57-66 | an empty cache with the five indexes of their types and mappers, versions starting at 1 |
| EntityServices.EntityService.GetNextVersion | src/main/java/ru/keich/mon/servicemanager/entity/EntityService.java:141-147 | returns the counter, at least 1, and moves it on by one |
| EntityServices.EntityService.FindById | src/main/java/ru/keich/mon/servicemanager/entity/EntityService.java:164-166 | the cached entity exactly when the id is cached |
| EntityServices.EntityService.DeleteById | src/main/java/ru/keich/mon/servicemanager/entity/EntityService.java:168-174 | returns what `findById` gave before, and the id leaves the cache |
| EntityServices.EntityService.DeleteByIds | src/main/java/ru/keich/mon/servicemanager/entity/EntityService.java:176-184 | every listed id leaves the cache, and the result is the entities of the listed cached ids in list order, each once |
| EntityServices.EntityService.SourceIndexLists | src/main/java/ru/keich/mon/servicemanager/entity/EntityService.java:62 | the source index lists exactly the cached entities of a source |
| EntityServices.EntityService.SourceKeyIndexLists | src/main/java/ru/keich/mon/servicemanager/entity/EntityService.java:63 | the source-key index lists exactly the cached entities of a generation |
| EntityServices.EntityService.StaleFromIndexes | src/main/java/ru/keich/mon/servicemanager/entity/EntityService.java:188-190 | the source index's ids minus the source-key index's ids are exactly the stale ids |
| EntityServices.EntityService.CachedIds | src/main/java/ru/keich/mon/servicemanager/entity/EntityService.java:59 | every cached entity is cached under its own id |
| EntityServices.EntityService.DeleteAll | src/main/java/ru/keich/mon/servicemanager/entity/EntityService.java:191-195 | every id of the set leaves the cache, and each deleted entity is returned exactly once |
| EntityServices.EntityService.DeleteBySourceAndSourceKeyNot | src/main/java/ru/keich/mon/servicemanager/entity/EntityService.java:186-197 | the cache becomes the prune of the source down to the generation, and the result is the pruned entities, each once |
| EntityServices.EntityService.VersionIndexLists | src/main/java/ru/keich/mon/servicemanager/entity/EntityService.java:61 | the version index lists exactly the cached entities at or above, below, or at a version |
| EntityServices.EntityService.DeletedOnIndexLists | src/main/java/ru/keich/mon/servicemanager/entity/EntityService.java:64 | the deletion index lists exactly the cached entities deleted at or after, before, or at a time, and never a live one |
| EntityServices.EntityService.Produce | src/main/java/ru/keich/mon/servicemanager/entity/EntityService.java:223-225 | a producer fails exactly when its value cannot be read |
| EntityServices.EntityService.ProduceLists | src/main/java/ru/keich/mon/servicemanager/entity/EntityService.java:68-121 | a producer gives exactly the cached entities it lists |
| EntityServices.EntityService.Intersect | src/main/java/ru/keich/mon/servicemanager/entity/EntityService.java:223-229 | succeeds exactly when every producer's value can be read, and then gives exactly the cached entities every producer lists |
| EntityServices.EntityService.QueryAnswers | src/main/java/ru/keich/mon/servicemanager/entity/EntityService.java:212-247 | a query answers exactly the cached entities every producer lists and every filter keeps, unchanged |
| EntityServices.EntityService.QueryFails | src/main/java/ru/keich/mon/servicemanager/entity/EntityService.java:212-247 | a query whose producers can be read fails only when some filter throws on some cached entity |
| EntityServices.EntityService.QueryWithoutFilters | src/main/java/ru/keich/mon/servicemanager/entity/EntityService.java:219-221 | a query without filters answers every entity of version at least `VERSION_MIN` |
| ItemRules.NewItemRule | src/main/java/ru/keich/mon/servicemanager/item/ItemRule.java:70-104 | a missing result status becomes INDETERMINATE, a missing threshold CLEAR, a missing value threshold 0; everything given is kept |
| ItemRules.NewItemRuleFromFields | src/main/java/ru/keich/mon/servicemanager/item/ItemRule.java:70-104 | every rule is what the constructor builds from its own fields |
| ItemRules.NewItemRuleDefaults | src/main/java/ru/keich/mon/servicemanager/item/ItemRule.java:79-101 | leaving a field out is the same as giving its default |
| ItemRules.RuleEquals | src/main/java/ru/keich/mon/servicemanager/item/ItemRule.java:56-68 | `equals` holds exactly when all five fields agree |
| ItemFilters.NewItemFilter | src/main/java/ru/keich/mon/servicemanager/item/ItemFilter.java:70-90 | a missing result status becomes INDETERMINATE; the flag and the field map are kept |
| ItemFilters.NewItemFilterFromFields | src/main/java/ru/keich/mon/servicemanager/item/ItemFilter.java:70-90 | every filter is what the constructor builds from its own fields |
| ItemFilters.FilterEquals | src/main/java/ru/keich/mon/servicemanager/item/ItemFilter.java:54-68 | `equals` is value equality, and field maps of different sizes are never equal |
| ItemFilters.EmptyFilterMatchesAll | src/main/java/ru/keich/mon/servicemanager/item/Item.java:135-155 | a filter without equal-fields matches every field map |
| Items.NewItem | src/main/java/ru/keich/mon/servicemanager/item/Item.java:50-84 | null maps become empty, null or empty children become none with `hasChildren` false, given values are kept, and the entity starts at version 0 created and updated now |
| Items.NewItemEmptyIsNull | src/main/java/ru/keich/mon/servicemanager/item/Item.java:61-82 | giving empty maps and an empty child set is the same as giving none |
| Items.MapEquals | src/main/java/ru/keich/mon/servicemanager/item/Item.java:115-118 | `Map.equals` with an element equality that is value equality is map equality |
| Items.SubsetOfSameSize | src/main/java/ru/keich/mon/servicemanager/item/Item.java:115-118 | a subset as large as the set is the set |
| Items.ItemEquals | src/main/java/ru/keich/mon/servicemanager/item/Item.java:100-119 | `equals` holds exactly when id, source, source key, fields, rules and filters agree |
| Items.ItemEqualsEquivalence | src/main/java/ru/keich/mon/servicemanager/item/Item.java:100-119 | `equals` is reflexive, symmetric and transitive |
| Items.ItemEqualsIgnores | src/main/java/ru/keich/mon/servicemanager/item/Item.java:100-119 | name, children, version, update and deletion times and history take no part in `equals` |
| Items.Int32 | src/main/java/ru/keich/mon/servicemanager/item/Item.java:86-98 | Java `int` arithmetic: in range and congruent modulo 2^32 |
| Items.StringHash | src/main/java/ru/keich/mon/servicemanager/item/Item.java:86-98 | `String.hashCode` is a 32-bit value |
| Items.EqualItemsHashAlike | src/main/java/ru/keich/mon/servicemanager/item/Item.java:86-119 | `hashCode` is consistent with `equals`: equal items hash alike |
| Items.FiltersForIndex | src/main/java/ru/keich/mon/servicemanager/item/Item.java:125-129 | exactly the equal-field entries of the item's filters, all of them entries |
| Items.ParentsForIndex | src/main/java/ru/keich/mon/servicemanager/item/Item.java:131-133 | exactly the child ids |
| Items.MatchingFilterIsIndexed | src/main/java/ru/keich/mon/servicemanager/item/Item.java:125-155 | an item with a non-empty filter an event's fields satisfy is filed under one of the event's field entries |
| Items.FirstMatch | src/main/java/ru/keich/mon/servicemanager/item/Item.java:135-155 | a found filter is one of the item's filters and the fields satisfy it; nothing is found exactly when no filter in the order matches |
| Items.FirstMatchIsFirst | src/main/java/ru/keich/mon/servicemanager/item/Item.java:135-155 | the found filter is the first in iteration order that matches |
| Items.FirstMatchNone | src/main/java/ru/keich/mon/servicemanager/item/Item.java:135-155 | over a complete iteration order, nothing is found exactly when no filter of the item matches |
| Items.FindFiltersByEqualFields | src/main/java/ru/keich/mon/servicemanager/item/Item.java:135-155 | the nested loops return the first filter in iteration order all of whose equal-fields are present with the same value |
| ItemServices.DefaultStatus | src/main/java/ru/keich/mon/servicemanager/item/ItemService.java:138-146 | the highest status number among the cached, undeleted children, 0 when there is none: at least every such child's and equal to one of them |
| ItemServices.Qualifying | src/main/java/ru/keich/mon/servicemanager/item/ItemService.java:117-125 | exactly the cached, undeleted children at or above the rule's status threshold |
| ItemServices.ClusterStatus | src/main/java/ru/keich/mon/servicemanager/item/ItemService.java:112-136 | 0 unless the rule fires (the qualifying children are at least the threshold percentage of all children, rounded down); when it fires, the result status if the rule uses one, otherwise the lowest qualifying status number (0 when none) |
| ItemServices.RuleStatus | src/main/java/ru/keich/mon/servicemanager/item/ItemService.java:150-157 | a CLUSTER rule counts, every other rule takes the default; always a status number |
| ItemServices.StatusByChild | src/main/java/ru/keich/mon/servicemanager/item/ItemService.java:148-159 | the default without rules, otherwise the highest status any rule gives, reached by one of them |
| ItemServices.NewStatus | src/main/java/ru/keich/mon/servicemanager/item/ItemService.java:161-164 | at least the status from the children and at least the event maximum, and equal to one of them |
| ItemServices.LeafTakesEventStatus | src/main/java/ru/keich/mon/servicemanager/item/ItemService.java:158-164 | an item with no rules and no children takes its event maximum |
| ItemServices.ClusterBelowDefault | src/main/java/ru/keich/mon/servicemanager/item/ItemService.java:112-146 | a CLUSTER rule without a result status never gives more than the default over the same children |
| ItemServices.ClusterFiresWhenAllQualify | src/main/java/ru/keich/mon/servicemanager/item/ItemService.java:126-127 | when every child is live and at or above the threshold, a threshold of at most 100 percent fires |
| ItemServices.WholeIsHundredPercent | src/main/java/ru/keich/mon/servicemanager/item/ItemService.java:126 | all of n children are 100 percent of them in integer division |
| ItemServices.ReachCached | src/main/java/ru/keich/mon/servicemanager/item/ItemService.java:321-334 | the walk collects only cached items |
| ItemServices.ReachClosed | src/main/java/ru/keich/mon/servicemanager/item/ItemService.java:321-334 | the walk is closed under cached children not on the starting path |
| ItemServices.ReachLeast | src/main/java/ru/keich/mon/servicemanager/item/ItemService.java:321-334 | the walk collects no more than any set that holds the start and is closed under children |
| ItemServices.ReachAllAdd | src/main/java/ru/keich/mon/servicemanager/item/ItemService.java:325-331 | one more child adds its own share of the walk |
| ItemServices.UpShape | src/main/java/ru/keich/mon/servicemanager/item/ItemService.java:168-175 | the walk up the parents never enters the path, stays among cached items, and past its start meets only live ones |
| ItemServices.UpRank | src/main/java/ru/keich/mon/servicemanager/item/ItemService.java:168-175 | with a rank that falls from each item to its children, walking up the parents never lowers the rank |
| ItemServices.UpAvoidsChildren | src/main/java/ru/keich/mon/servicemanager/item/ItemService.java:168-175 | without cycles, nothing the walk reaches from a parent of an item is a child of that item |
| ItemServices.DefaultStatusLocal | src/main/java/ru/keich/mon/servicemanager/item/ItemService.java:138-146 | the default status reads the status table only at the item's children |
| ItemServices.ClusterStatusLocal | src/main/java/ru/keich/mon/servicemanager/item/ItemService.java:112-136 | a CLUSTER rule reads the status table only at the item's children |
| ItemServices.RuleStatusLocal | src/main/java/ru/keich/mon/servicemanager/item/ItemService.java:150-157 | a rule's status reads the status table only at the item's children |
| ItemServices.StatusByChildLocal | src/main/java/ru/keich/mon/servicemanager/item/ItemService.java:148-159 | the status from the children, the default or the highest over the rules, reads the table only at the item's children |
| ItemServices.NewStatusLocal | src/main/java/ru/keich/mon/servicemanager/item/ItemService.java:148-164 | the new status of an item reads the status table only at its children |
| ItemServices.SettledKept | src/main/java/ru/keich/mon/servicemanager/item/ItemService.java:168-176 | an item already settled stays settled through a recalculation that visits every live parent of what it changes |
| ItemServices.SkippedParent | src/main/java/ru/keich/mon/servicemanager/item/ItemService.java:169-172 | passing over a deleted parent, or one on the path, keeps the loop's invariant |
| ItemServices.RecalculatedNothing | src/main/java/ru/keich/mon/servicemanager/item/ItemService.java:161-164 | when the item's recomputed status equals its stored one, the call returns with the table unchanged, having visited only the item, which is settled |
| ItemServices.RecalculatedParent | src/main/java/ru/keich/mon/servicemanager/item/ItemService.java:173-175 | recalculating a live parent off the path keeps the loop's invariant, adding what that call visited |
| ItemServices.CalculatedAll | src/main/java/ru/keich/mon/servicemanager/item/ItemService.java:165-178 | after the loop over the parents, the status table meets every promise of `calculateStatus`: the item's new status, the path unchanged, changes only at visited items, each changed item's live parents visited or on the path, and the visited items settled when there is no cycle |
| ItemServices.CalculatedUp | src/main/java/ru/keich/mon/servicemanager/item/ItemService.java:165-178 | the item and every item the loop over its parents reached lie on the walk up from the item, off the path |
| ItemServices.CalculatedChanges | src/main/java/ru/keich/mon/servicemanager/item/ItemService.java:165-178 | after the loop, items on the path keep their status, only the item and what the loop reached changed, and each changed item's live parents are on the path, the item itself or reached |
| ItemServices.CalculatedSettled | src/main/java/ru/keich/mon/servicemanager/item/ItemService.java:161-178 | without cycles, the item stays settled in the final table, because nothing the loop changed is one of its children |
| ItemServices.ItemService.constructor | src/main/java/ru/keich/mon/servicemanager/item/ItemService.java:54-60 | the entity service's five indexes plus the filter, parent and name indexes over an empty cache |
| ItemServices.ItemService.CalculateStatus | src/main/java/ru/keich/mon/servicemanager/item/ItemService.java:161-179 | the item's status becomes the new status; when that equals the old one nothing changes; nothing on the path changes; the items visited are the item and live items reached upwards from it off the path; only visited items change status; every live parent of an item that changed is on the path or visited (the change is propagated upwards); when the items form no cycle, every visited item ends holding the status its children and events give it; the store stays valid |
| ItemServices.ItemService.FindChildren | src/main/java/ru/keich/mon/servicemanager/item/ItemService.java:286-293 | each child id once, exactly the cached ones, with their cached items |
| ItemServices.ItemService.FindAllItemsById | src/main/java/ru/keich/mon/servicemanager/item/ItemService.java:321-334 | adds to `out` exactly the items the walk from the id reaches without re-entering the path |
| ItemServices.ItemService.Inserted | src/main/java/ru/keich/mon/servicemanager/item/ItemService.java:211-226 | the stored new item equals the given one, keeps its children, name and time stamps, and carries the next version and the history plus this node |
| ItemServices.ItemService.Updated | src/main/java/ru/keich/mon/servicemanager/item/ItemService.java:228-247 | the replacement equals the given item, keeps the cached creation time, is updated now, and carries the next version and the history plus this node |
| ItemServices.ItemService.AddOrUpdate | src/main/java/ru/keich/mon/servicemanager/item/ItemService.java:205-254 | a new id is inserted with the next version and status CLEAR then recalculated; an equal item changes nothing, not even the version; any other replaces the cached one and is recalculated from the cached status; on both storing paths the whole status table is what `CalculateStatus` promises (`Recalculated`): only items upward from the id change, every changed item's live parents are recomputed, and without cycles every recomputed item is settled in the final table |
| ItemServices.ItemService.Insert | src/main/java/ru/keich/mon/servicemanager/item/ItemService.java:211-249 | the cache gains the item, the version moves on, and its status is recalculated from CLEAR, with the change carried up to its live parents and nothing else changed (`Recalculated` from the table with the id at CLEAR) |
| ItemServices.ItemService.PutInserted | src/main/java/ru/keich/mon/servicemanager/item/ItemService.java:211-226 | the store takes the new item and stays indexed; the version moves on |
| ItemServices.ItemService.StoreInsert | src/main/java/ru/keich/mon/servicemanager/item/ItemService.java:211 | `put` of a new item under the next version succeeds and keeps every index |
| ItemServices.ItemService.Replace | src/main/java/ru/keich/mon/servicemanager/item/ItemService.java:228-250 | the cache holds the replacement, the version moves on, and its status is recalculated, with the change carried up to its live parents and nothing else changed (`Recalculated` from the old table) |
| ItemServices.ItemService.PutReplacement | src/main/java/ru/keich/mon/servicemanager/item/ItemService.java:228-247 | the store takes the replacement and stays indexed; the version moves on |
| ItemServices.ItemService.StoreReplacement | src/main/java/ru/keich/mon/servicemanager/item/ItemService.java:211-247 | `put` of a replacement under the next version succeeds and keeps every index |
| ItemServices.ItemService.IndexesAccept | src/main/java/ru/keich/mon/servicemanager/item/ItemService.java:212-213 | every index, the unique version index included, takes an item carrying the next version |
| ItemServices.ItemService.IndexesAcceptReplacement | src/main/java/ru/keich/mon/servicemanager/item/ItemService.java:232-233 | every index takes a replacement carrying the next version |
| ItemServices.ItemIndexesAdded | src/main/java/ru/keich/mon/servicemanager/item/ItemService.java:56-60 | adding the three item indexes keeps the five entity indexes |
| ItemServices.VersionsBelowAfterPut | src/main/java/ru/keich/mon/servicemanager/item/ItemService.java:211-247 | storing an item of the next version keeps every cached version below the counter |
| ItemServices.ItemsEqualIffEntityEqual | src/main/java/ru/keich/mon/servicemanager/item/ItemService.java:229 | for items, `isEntityEqual` is `equals` |
| AggregateEvents.MaxLive | src/main/java/ru/keich/mon/servicemanager/item/AggregateEventsStatus.java:91-95 | at least every live entry's status, and CLEAR or the status of some live entry |
| AggregateEvents.MaxLiveUnique | src/main/java/ru/keich/mon/servicemanager/item/AggregateEventsStatus.java:91-95 | a status that bounds the live entries and is carried by one of them (or CLEAR) is the maximum |
| AggregateEvents.MaxOfWithLive | src/main/java/ru/keich/mon/servicemanager/item/AggregateEventsStatus.java:91-97 | adding a live entry raises the maximum to its status exactly when that is more severe, and adds its id to the live ids |
| AggregateEvents.MaxOfWithDeleted | src/main/java/ru/keich/mon/servicemanager/item/AggregateEventsStatus.java:87-97 | adding a removed entry changes neither the maximum nor the live ids |
| AggregateEvents.Empty | src/main/java/ru/keich/mon/servicemanager/item/AggregateEventsStatus.java:63-67 | no entries, no active ids, maximum CLEAR, and consistent |
| AggregateEvents.Update | src/main/java/ru/keich/mon/servicemanager/item/AggregateEventsStatus.java:81-101 | the loop copies every entry except the event and those removed more than 300 seconds ago, and collects exactly their live ids and their most severe live status |
| AggregateEvents.KeptStep | src/main/java/ru/keich/mon/servicemanager/item/AggregateEventsStatus.java:83-98 | one loop step copies the entry exactly when it is not the event and not expired |
| AggregateEvents.AddEventStatus | src/main/java/ru/keich/mon/servicemanager/item/AggregateEventsStatus.java:103-111 | the event becomes live with the given status, the other entries are purged, the live ids and the maximum are consistent, and the maximum is at least the new status |
| AggregateEvents.RemoveEvent | src/main/java/ru/keich/mon/servicemanager/item/AggregateEventsStatus.java:113-118 | fails exactly for an event the aggregate does not hold; otherwise the event stays at its last status stamped removed now, leaves the live ids, and the aggregate is consistent |
| AggregateEvents.GetAggEventsStatus | src/main/java/ru/keich/mon/servicemanager/item/AggregateEventsStatus.java:124-134 | the loop reports the status of exactly the entries not removed more than 300 seconds ago |
| AggregateEvents.ShownAfterPurge | src/main/java/ru/keich/mon/servicemanager/item/AggregateEventsStatus.java:81-134 | the purge of `update` hides nothing the report would show at the same time |
| AggregateEvents.ShownAfterAdd | src/main/java/ru/keich/mon/servicemanager/item/AggregateEventsStatus.java:103-134 | after adding, the report is the old one with the event at its new status |
| AggregateEvents.ShownAfterRemove | src/main/java/ru/keich/mon/servicemanager/item/AggregateEventsStatus.java:113-134 | a removed event is still reported, at its last status, for 300 seconds |
| AggregateEvents.RemovedExpires | src/main/java/ru/keich/mon/servicemanager/item/AggregateEventsStatus.java:113-134 | after 300 seconds a removed event is no longer reported |
| AggregateStatuses.RecentMax | src/main/java/ru/keich/mon/servicemanager/item/AggregateStatus.java:46-56 | the highest index whose stamp is within the window, 0 when there is none |
| AggregateStatuses.MaxAtNotBelowLast | src/main/java/ru/keich/mon/servicemanager/item/AggregateStatus.java:45-58 | the report is never below the status entered last |
| AggregateStatuses.RecentStatusHeld | src/main/java/ru/keich/mon/servicemanager/item/AggregateStatus.java:45-58 | a status entered within the last ten seconds is reported at least as that status |
| AggregateStatuses.MaxAtIsLastOrRecent | src/main/java/ru/keich/mon/servicemanager/item/AggregateStatus.java:45-58 | the report is the last status or a higher one entered within the window, and settles on the last status once nothing higher is recent |
| AggregateStatuses.SetStatusHeld | src/main/java/ru/keich/mon/servicemanager/item/AggregateStatus.java:40-58 | a status just set is reported at least as that status for the next ten seconds while its stamp stands |
| AggregateStatuses.AggregateStatus.constructor | src/main/java/ru/keich/mon/servicemanager/item/AggregateStatus.java:36-38 | CLEAR entered now and no other stamp |
| AggregateStatuses.AggregateStatus.Copy | src/main/java/ru/keich/mon/servicemanager/item/AggregateStatus.java:29-34 | the same stamps in a fresh array and the same last status |
| AggregateStatuses.AggregateStatus.Set | src/main/java/ru/keich/mon/servicemanager/item/AggregateStatus.java:40-43 | the status becomes the last one and only its stamp changes, to now |
| AggregateStatuses.AggregateStatus.GetMax | src/main/java/ru/keich/mon/servicemanager/item/AggregateStatus.java:45-58 | the scan over the stamps reports the higher of the last status and the highest recently entered one |
| EventRelations.CompareTo | src/main/java/ru/keich/mon/servicemanager/eventrelation/EventRelation.java:53-63 | item ids ascending, then the more severe status first, then event ids ascending; 0 exactly for identical relations |
| EventRelations.CompareToAntisymmetric | src/main/java/ru/keich/mon/servicemanager/eventrelation/EventRelation.java:53-63 | comparing the other way round negates the sign |
| EventRelations.MoreSevereFirst | src/main/java/ru/keich/mon/servicemanager/eventrelation/EventRelation.java:56-57 | within one item a more severe relation sorts first |
| EventRelationServices.StatusOf | src/main/java/ru/keich/mon/servicemanager/eventrelation/EventRelationService.java:64-76 | the stored status of the relation, CLEAR when there is none |
| EventRelationServices.SameItemView | src/main/java/ru/keich/mon/servicemanager/eventrelation/EventRelationService.java:61-92 | two caches that hold the same relations of an item agree on whether its max entry is right |
| EventRelationServices.AddMaxUpdateAsWritten | src/main/java/ru/keich/mon/servicemanager/eventrelation/EventRelationService.java:61-83 | as written: an item without a max entry points at the added event, and re-adding the max event at its stored status keeps the max entry |
| EventRelationServices.AddAsWrittenLosesMax | src/main/java/ru/keich/mon/servicemanager/eventrelation/EventRelationService.java:61-107 | lowering the max event from CRITICAL to CLEAR while another event is WARNING keeps the lowered event as the max, so the item reports CLEAR |
| EventRelationServices.AddMaxUpdate | src/main/java/ru/keich/mon/servicemanager/eventrelation/EventRelationService.java:61-83 | as intended: an item without a max entry points at the added event; lowering the max event rescans; raising another event above the max rescans |
| EventRelationServices.Stored | src/main/java/ru/keich/mon/servicemanager/eventrelation/EventRelationService.java:94-99 | the cache gains exactly the relation, stored under its own id |
| EventRelationServices.AddKeepsTracking | src/main/java/ru/keich/mon/servicemanager/eventrelation/EventRelationService.java:94-107 | after the intended decision every item's max entry names a most severe relation of the new cache |
| EventRelationServices.Dropped | src/main/java/ru/keich/mon/servicemanager/eventrelation/EventRelationService.java:110-111 | the cache loses exactly the relation |
| EventRelationServices.RemoveLastRelation | src/main/java/ru/keich/mon/servicemanager/eventrelation/EventRelationService.java:112-116 | removing an item's last relation and its max entry keeps every max entry right |
| EventRelationServices.RemoveMaxEvent | src/main/java/ru/keich/mon/servicemanager/eventrelation/EventRelationService.java:85-92 | removing the max event and pointing at a rescanned most severe one keeps every max entry right |
| EventRelationServices.RemoveOtherEvent | src/main/java/ru/keich/mon/servicemanager/eventrelation/EventRelationService.java:85-92 | removing another event while relations remain keeps every max entry right as it is |
| EventRelationServices.ItemDroppedStep | src/main/java/ru/keich/mon/servicemanager/eventrelation/EventRelationService.java:125-127 | each step of `itemRemoved` drops one more relation of the item |
| EventRelationServices.EventDroppedStep | src/main/java/ru/keich/mon/servicemanager/eventrelation/EventRelationService.java:135-137 | each step of `eventRemoved` drops one more relation of the event |
| EventRelationServices.EventRelationService.constructor | src/main/java/ru/keich/mon/servicemanager/eventrelation/EventRelationService.java:35-45 | no relations and no max entries |
| EventRelationServices.EventRelationService.FindEventIdWithMaxStatus | src/main/java/ru/keich/mon/servicemanager/eventrelation/EventRelationService.java:47-59 | a most severe event of the item, or "" when it has no relation |
| EventRelationServices.EventRelationService.Add | src/main/java/ru/keich/mon/servicemanager/eventrelation/EventRelationService.java:94-107 | the relation is stored; other items' max entries are untouched; an item's first relation becomes its max; re-adding the same status changes no max entry; every max entry stays right |
| EventRelationServices.EventRelationService.Remove | src/main/java/ru/keich/mon/servicemanager/eventrelation/EventRelationService.java:110-120 | the relation is dropped; an item left without relations loses its max entry; removing a non-max event keeps the max entry; every max entry stays right |
| EventRelationServices.EventRelationService.ItemRemoved | src/main/java/ru/keich/mon/servicemanager/eventrelation/EventRelationService.java:122-130 | every relation of the item goes, and so does its max entry |
| EventRelationServices.EventRelationService.EventRemoved | src/main/java/ru/keich/mon/servicemanager/eventrelation/EventRelationService.java:132-140 | every relation of the event goes, and no max entry names it afterwards |
| EventRelationServices.EventRelationService.GetItemIds | src/main/java/ru/keich/mon/servicemanager/eventrelation/EventRelationService.java:142-146 | exactly the items related to the event |
| EventRelationServices.EventRelationService.GetEventIds | src/main/java/ru/keich/mon/servicemanager/eventrelation/EventRelationService.java:148-152 | exactly the events related to the item |
| EventRelationServices.EventRelationService.GetMaxStatus | src/main/java/ru/keich/mon/servicemanager/eventrelation/EventRelationService.java:154-162 | CLEAR without a max entry; with the max entries right, at least every relation's status of the item and carried by one of them |
| EventHistory.Merge | src/main/java/ru/keich/mon/servicemanager/history/EventHistoryService.java:131-136 | one of the two copies wins, and the winner is deleted exactly when either copy is |
| EventHistory.MergeHits | src/main/java/ru/keich/mon/servicemanager/history/EventHistoryService.java:114-136 | an id with hits yields one of them, deleted exactly when some hit is deleted; an id without hits yields nothing |
| EventHistory.HitsFor | src/main/java/ru/keich/mon/servicemanager/history/EventHistoryService.java:117-126 | exactly the stored documents of the id |
| EventHistory.Existing | src/main/java/ru/keich/mon/servicemanager/history/EventHistoryService.java:144-158 | an entry for exactly the requested ids that have a stored document, each one of that id's documents |
| EventHistory.Selected | src/main/java/ru/keich/mon/servicemanager/history/EventHistoryService.java:194-208 | exactly the incoming events the filter keeps, never more than came in |
| EventHistory.Ids | src/main/java/ru/keich/mon/servicemanager/history/EventHistoryService.java:186-188 | exactly the ids of the incoming events |
| EventHistory.MaxVersion | src/main/java/ru/keich/mon/servicemanager/history/EventHistoryService.java:184 | an upper bound of the batch's versions that one of its events carries |
| EventHistory.NewEventSent | src/main/java/ru/keich/mon/servicemanager/history/EventHistoryService.java:196-199 | an event with no stored document is written |
| EventHistory.NothingAfterDeletion | src/main/java/ru/keich/mon/servicemanager/history/EventHistoryService.java:200-202 | once a deleted document of an event is stored, that event is never written again |
| EventHistory.OnlyDeletionAfterLive | src/main/java/ru/keich/mon/servicemanager/history/EventHistoryService.java:196-207 | while only live documents of an event are stored, the event is written exactly when it comes in deleted |
| EventHistory.EventHistoryService.constructor | src/main/java/ru/keich/mon/servicemanager/history/EventHistoryService.java:66 | the version starts at 0 |
| EventHistory.EventHistoryService.SendHistoryInternal | src/main/java/ru/keich/mon/servicemanager/history/EventHistoryService.java:176-212 | an empty batch changes nothing and writes nothing; otherwise the version becomes the batch's highest and the filtered events are written |
| HistoryQueues.BatchSize | src/main/java/ru/keich/mon/servicemanager/history/HistoryQueueImp.java:36 | the list size at which a list is handed over: the limit, or 1 when the limit is below 1 |
| HistoryQueues.FlattenAppend | src/main/java/ru/keich/mon/servicemanager/history/HistoryQueueImp.java:29-48 | handing over two runs of lists in order gives their elements in order |
| HistoryQueues.BatchesConcatenate | src/main/java/ru/keich/mon/servicemanager/history/HistoryQueueImp.java:29-48 | the lists handed over, joined in order, are exactly the queue in FIFO order |
| HistoryQueues.BatchesSized | src/main/java/ru/keich/mon/servicemanager/history/HistoryQueueImp.java:36-44 | no list handed over is empty; every list but the last has exactly the batch size, and the last has at most that many elements |
| HistoryQueues.BatchesCount | src/main/java/ru/keich/mon/servicemanager/history/HistoryQueueImp.java:29-48 | the number of lists is the queue length divided by the batch size, rounded up |
| HistoryQueues.BatchesSplit | src/main/java/ru/keich/mon/servicemanager/history/HistoryQueueImp.java:36-39 | a full list splits off the front of the queue |
| HistoryQueues.HistoryQueue.constructor | src/main/java/ru/keich/mon/servicemanager/history/HistoryQueueImp.java:18-20 | an empty queue with the given limit |
| HistoryQueues.HistoryQueue.Add | src/main/java/ru/keich/mon/servicemanager/history/HistoryQueueImp.java:22-26 | the value is appended at the tail |
| HistoryQueues.HistoryQueue.Poll | src/main/java/ru/keich/mon/servicemanager/history/HistoryQueueImp.java:28-48 | the queue is drained and the lists handed over are the batches of what it held |
| ReplicationStates.EntityReplicationState.constructor | src/main/java/ru/keich/mon/servicemanager/entity/EntityReplicationState.java:21-34 | not active, first run, no neighbour start time, versions 0 and Long.MAX_VALUE, counters 0, both instants now |
| ReplicationStates.EntityReplicationState.SetNeighborStartTime | src/main/java/ru/keich/mon/servicemanager/entity/EntityReplicationState.java:36-38 | only the neighbour start time changes |
| ReplicationStates.EntityReplicationState.SetFirstRunTrue | src/main/java/ru/keich/mon/servicemanager/entity/EntityReplicationState.java:44-50 | first run, neighbour start time cleared, versions back to 0 and Long.MAX_VALUE, counters 0; activity and instants kept |
| ReplicationStates.EntityReplicationState.SetFirstRunFalse | src/main/java/ru/keich/mon/servicemanager/entity/EntityReplicationState.java:52-54 | only the first-run flag is cleared |
| ReplicationStates.EntityReplicationState.SetActiveTrue | src/main/java/ru/keich/mon/servicemanager/entity/EntityReplicationState.java:64-67 | active, with the start instant now; nothing else changes |
| ReplicationStates.EntityReplicationState.SetActiveFalse | src/main/java/ru/keich/mon/servicemanager/entity/EntityReplicationState.java:69-72 | not active, with the end instant now; nothing else changes |
| ReplicationStates.EntityReplicationState.UpdateVersion | src/main/java/ru/keich/mon/servicemanager/entity/EntityReplicationState.java:74-81 | the lowest version is the least received since the reset and the highest the greatest since the first run; both include the new version |
| ReplicationStates.EntityReplicationState.IncrementCounters | src/main/java/ru/keich/mon/servicemanager/entity/EntityReplicationState.java:99-105 | a live entity counts as added and a deleted one as deleted, one at a time |
| ReplicationStates.EntityReplicationState.Reset | src/main/java/ru/keich/mon/servicemanager/entity/EntityReplicationState.java:107-111 | the lowest version and the counters restart; the highest version is kept |
| Feeds.ItemIds | scripts/load_obj_zabbix.py:106-118 | exactly the ids of the posted items |
| Feeds.EventIds | scripts/load_obj_zabbix.py:133 | exactly the ids of the posted events |
| Feeds.ItemIdsConcat | scripts/load_obj_zabbix.py:106-118 | the ids of two batches joined are the union of their ids |
| Feeds.ChildrenWithinConcat | scripts/load_obj_zabbix.py:106-118 | two batches whose children lie in two id sets have, joined, children within the union |
| Feeds.ItemOrigins | scripts/load_obj_zabbix.py:137 | each posted item stores its own source and generation under its id, in order |
| Feeds.EventOrigins | scripts/load_obj_zabbix.py:151 | each posted event stores its own source and generation under its id, in order |
| Feeds.PostedKeys | scripts/load_obj_zabbix.py:137 | exactly the ids a post writes |
| Feeds.PostAll | scripts/load_obj_zabbix.py:137 | the post adds every posted id, keeps every other stored id as it was, and a batch of one origin stores that origin everywhere it wrote |
| Feeds.PruneOrigins | scripts/load_obj_zabbix.py:144 | a prune keeps exactly the ids of other sources and those of the given generation, unchanged |
| Feeds.OriginsOf | scripts/load_obj_zabbix.py:144 | the origin view of a store holds the source and generation of every stored entity |
| Feeds.PruneMatchesService | scripts/load_obj_zabbix.py:144 | the prune the script requests is the entity service's `deleteBySourceAndSourceKeyNot` seen through origins |
| Feeds.PostThenPrune | scripts/load_obj_zabbix.py:135-147 | after a post and a prune of one kind, the source holds exactly the posted ids and other sources keep what the post did not overwrite (with the entity service's empty removal hook; see "Left out" on `entityRemoved`) |
| Feeds.ItemKeys | scripts/load_obj_zabbix.py:137 | an item post writes exactly the item ids |
| Feeds.EventKeys | scripts/load_obj_zabbix.py:151 | an event post writes exactly the event ids |
| Feeds.RunPublish | scripts/load_obj_zabbix.py:135-161 | the four requests leave the items posted then pruned and the events posted then pruned, independently |
| Feeds.FeedConverges | scripts/load_obj_zabbix.py:135-161 | with a fresh generation, a run leaves the source holding exactly the items and events it posted, and other sources' entries it did not overwrite untouched (with the entity service's empty removal hook; the item service's tombstone re-put is listed under "Left out") |
| Feeds.SeverityStatuses | scripts/load_obj_zabbix.py:23 | the six Zabbix severity codes and the status each maps to |
| Feeds.SeverityNeverClear | scripts/load_obj_zabbix.py:23 | no severity maps to CLEAR; codes 2 to 5 map to the status with that number |
| Feeds.EventOf | scripts/load_obj_zabbix.py:122-133 | a problem becomes an event exactly when every key it reads is present, the severity is known and there is a first host; the event carries the problem's fields plus summary, hostid and node; otherwise KeyError or IndexError |
| Feeds.EventsFor | scripts/load_obj_zabbix.py:122-133 | one event per problem, in order, all of the run's source and generation |
| Feeds.BuildEvents | scripts/load_obj_zabbix.py:120-133 | the events of all problems when none raises; otherwise the error of the first problem that raises |
| Feeds.HostPairs | scripts/load_obj_zabbix.py:95-103 | one (group, host) pair per group of the host, in order |
| Feeds.GroupingOf | scripts/load_obj_zabbix.py:92-103 | the dict's key order lists each group once and exactly the dict's keys |
| Feeds.GroupingOfSnoc | scripts/load_obj_zabbix.py:97-103 | one more pair met updates the dict by one insertion |
| Feeds.MembersOf | scripts/load_obj_zabbix.py:97-103 | exactly the host ids met paired with the group |
| Feeds.GroupingIsMembership | scripts/load_obj_zabbix.py:97-103 | the dict holds a group exactly when some pair names it, keeps the first group object met, and lists as its children the hosts paired with it, in order |
| Feeds.FirstGroupIsFirst | scripts/load_obj_zabbix.py:99-103 | a group object is kept exactly when the group is met, and it is the one of the earliest pair naming it |
| Feeds.MembershipsOf | scripts/load_obj_zabbix.py:94-97 | every (group, host) membership of the hosts is met by the nested loop |
| Feeds.MembershipSource | scripts/load_obj_zabbix.py:94-97 | every pair the nested loop meets comes from some host and one of its groups |
| Feeds.HostListedInItsGroups | scripts/load_obj_zabbix.py:94-103 | every host is a child of each group it belongs to |
| Feeds.GroupsOfHosts | scripts/load_obj_zabbix.py:94-103 | the dict holds exactly the groups some host belongs to |
| Feeds.PairOfMember | scripts/load_obj_zabbix.py:100-103 | a child of a group was met paired with it |
| Feeds.GroupChildrenAreHosts | scripts/load_obj_zabbix.py:94-103 | every child of a group is the id of one of the hosts |
| Feeds.GroupingListsHosts | scripts/load_obj_zabbix.py:94-103 | the dict lists every host under each of its groups |
| Feeds.GroupingChildrenAreHosts | scripts/load_obj_zabbix.py:94-103 | the dict lists no child that is not a host |
| Feeds.HostItems | scripts/load_obj_zabbix.py:94-106 | one host item per host, in order |
| Feeds.HostItemsIds | scripts/load_obj_zabbix.py:105-106 | the host items carry exactly the host ids and name no children |
| Feeds.AddHostGroups | scripts/load_obj_zabbix.py:95-103 | the inner loop leaves the dict as built from the pairs met so far plus this host's pairs |
| Feeds.GroupHosts | scripts/load_obj_zabbix.py:94-106 | the dict built from all hosts' memberships, and one host item per host |
| Feeds.HostItemShape | scripts/load_obj_zabbix.py:104-106 | a host item has the host's id, the byHostId filter on it, the fields hostid, name and description, no children, and a name exactly when named |
| ZabbixFlatFeed.GroupFields | scripts/load_obj_zabbix.py:113-115 | a group item's fields keep the group's id and name and drop the `children` key |
| ZabbixFlatFeed.GroupItems | scripts/load_obj_zabbix.py:110-115 | one group item per dict key, in key order |
| ZabbixFlatFeed.Assemble | scripts/load_obj_zabbix.py:94-118 | one object per host and per group, plus `zabbix` and the root |
| ZabbixFlatFeed.EmitGroups | scripts/load_obj_zabbix.py:108-115 | the loop over the dict yields the group items and the group ids in key order |
| ZabbixFlatFeed.Feed | scripts/load_obj_zabbix.py:92-161 | the run posts the flat items and the events, then prunes both, exactly when no problem raises |
| ZabbixFlatFeed.FlatItemsOfRun | scripts/load_obj_zabbix.py:106-118 | every posted item carries the run's source and generation |
| ZabbixFlatFeed.AssembledAt | scripts/load_obj_zabbix.py:94-118 | the posted objects are the hosts, then the groups in key order, then `zabbix`, then the root |
| ZabbixFlatFeed.FlatShape | scripts/load_obj_zabbix.py:108-118 | `zabbix` lists every group once, the root lists `zabbix`, and a group is listed exactly when a host belongs to it |
| ZabbixFlatFeed.AssembledGroupAt | scripts/load_obj_zabbix.py:110-115 | a group item has the group's id and name and its collected children, with no `children` field |
| ZabbixFlatFeed.GroupItemChildren | scripts/load_obj_zabbix.py:97-115 | a group item lists every host that belongs to the group |
| ZabbixFlatFeed.GroupItemsChildren | scripts/load_obj_zabbix.py:110-115 | group items name only hosts as children |
| ZabbixFlatFeed.GroupItemsIds | scripts/load_obj_zabbix.py:110-115 | group items carry exactly the dict's group ids |
| ZabbixFlatFeed.AssembledChildrenPosted | scripts/load_obj_zabbix.py:94-118 | every child any posted item names is itself posted in the same batch |
| ZabbixFlatFeed.FlatChildrenPosted | scripts/load_obj_zabbix.py:94-118 | the script's batch names no child it does not post |
| ZabbixTreeFeed.Split | scripts/load_obj_zabbix_v2.py:115 | at least one piece, none containing the separator |
| ZabbixTreeFeed.JoinSplit | scripts/load_obj_zabbix_v2.py:115 | joining the pieces with the separator gives back the name |
| ZabbixTreeFeed.PathIdSnoc | scripts/load_obj_zabbix_v2.py:119-120 | each prefix id is the previous one extended by `__` and the next segment |
| ZabbixTreeFeed.SplitCons | scripts/load_obj_zabbix_v2.py:115 | splitting a name one character longer extends the first piece or starts a new one |
| ZabbixTreeFeed.SplitThreeSegments | scripts/load_obj_zabbix_v2.py:115 | "A/B/C" splits into three segments |
| ZabbixTreeFeed.PrefixIdsExample | scripts/load_obj_zabbix_v2.py:115-120 | the group "A/B/C" gets the nodes "__A", "__A__B" and "__A__B__C" |
| ZabbixTreeFeed.SplitTwoSegments | scripts/load_obj_zabbix_v2.py:115 | "a/b" splits into two segments |
| ZabbixTreeFeed.SplitNoSlash | scripts/load_obj_zabbix_v2.py:115 | a name without "/" is one segment |
| ZabbixTreeFeed.PathIdsCollide | scripts/load_obj_zabbix_v2.py:115-120 | the groups "a__b" and "a/b" have different paths but the same node id |
| ZabbixTreeFeed.AddChild | scripts/load_obj_zabbix_v2.py:123 | a dict key set: the child is added once, and no child appears twice |
| ZabbixTreeFeed.GrowsTrans | scripts/load_obj_zabbix_v2.py:112-127 | the tree only grows, step after step |
| ZabbixTreeFeed.LinkKeeps | scripts/load_obj_zabbix_v2.py:123 | linking a child keeps the tree well formed, only grows it, and lists the child |
| ZabbixTreeFeed.CreateKeeps | scripts/load_obj_zabbix_v2.py:121-122 | creating a new node keeps the tree well formed and only grows it |
| ZabbixTreeFeed.LinkedGrows | scripts/load_obj_zabbix_v2.py:119-125 | a linked path stays linked as the tree grows |
| ZabbixTreeFeed.PlacedGrows | scripts/load_obj_zabbix_v2.py:112-127 | a placed group stays placed as the tree grows |
| ZabbixTreeFeed.LinkedExtend | scripts/load_obj_zabbix_v2.py:119-125 | linking the next prefix below its parent extends the linked path by one |
| ZabbixTreeFeed.WalkStep | scripts/load_obj_zabbix_v2.py:119-125 | one step of the walk creates the prefix node if needed and links it below its parent |
| ZabbixTreeFeed.LinkChildren | scripts/load_obj_zabbix_v2.py:123 | after linking, a node's children are its old ones plus the child when it is the parent |
| ZabbixTreeFeed.PrefixStep | scripts/load_obj_zabbix_v2.py:119-124 | one more prefix adds exactly its node and its link below the previous prefix |
| ZabbixTreeFeed.WalkChildrenOld | scripts/load_obj_zabbix_v2.py:121-123 | a node that existed before a turn of the walk gains at most the turn's link |
| ZabbixTreeFeed.WalkChildrenNew | scripts/load_obj_zabbix_v2.py:121-123 | a node a turn of the walk creates starts with no children |
| ZabbixTreeFeed.WalkFields | scripts/load_obj_zabbix_v2.py:121-122 | a node the walk added holds the segment and the group name of the turn that created it |
| ZabbixTreeFeed.WalkKeys | scripts/load_obj_zabbix_v2.py:120-123 | a turn of the walk adds exactly the next prefix id to the dict's keys |
| ZabbixTreeFeed.WalkNodeExact | scripts/load_obj_zabbix_v2.py:119-124 | after a turn, each node's children are those it started with plus exactly the path's links so far |
| ZabbixTreeFeed.WalkChildrenExact | scripts/load_obj_zabbix_v2.py:119-124 | the same, for every node at once |
| ZabbixTreeFeed.WalkFieldsExact | scripts/load_obj_zabbix_v2.py:121-122 | after a turn, each added node holds the fields of the turn that created it |
| ZabbixTreeFeed.WalkKeysExact | scripts/load_obj_zabbix_v2.py:120-123 | after the walk has reached one more prefix, the keys are the old ones plus exactly the prefix ids so far |
| ZabbixTreeFeed.WalkExact | scripts/load_obj_zabbix_v2.py:119-124 | a turn of the walk adds exactly the next prefix node and its link, and nothing else |
| ZabbixTreeFeed.LinkHostExact | scripts/load_obj_zabbix_v2.py:126-127 | linking the next host adds exactly that child to the last node |
| ZabbixTreeFeed.LinkHostStep | scripts/load_obj_zabbix_v2.py:126-127 | linking the next host keeps the tree well formed and only grows it, and the last node's children are the old ones plus exactly the hosts so far |
| ZabbixTreeFeed.HostsBelow | scripts/load_obj_zabbix_v2.py:126-127 | once the hosts are linked, every host of the group is a child of the last node |
| ZabbixTreeFeed.GroupChildrenExact | scripts/load_obj_zabbix_v2.py:119-127 | after a group, a node's children are its old ones, the path's links from it, and the hosts when it ends the path |
| ZabbixTreeFeed.GroupHostLinksAt | scripts/load_obj_zabbix_v2.py:126-127 | a host link of a group runs from the last node of its path to one of its hosts, and every such pair is one |
| ZabbixTreeFeed.GroupNodesExact | scripts/load_obj_zabbix_v2.py:119-127 | after a group, every node's children are the old ones plus exactly the path links and host links leaving it |
| ZabbixTreeFeed.GroupLinksFrom | scripts/load_obj_zabbix_v2.py:119-127 | every path link and host link of a placed group leaves a node of the tree |
| ZabbixTreeFeed.GroupKeys | scripts/load_obj_zabbix_v2.py:119-122 | after a group, the keys are the old ones plus exactly the prefix ids of its path |
| ZabbixTreeFeed.GroupFields | scripts/load_obj_zabbix_v2.py:121-122 | each node a group adds holds the segment and the name of that group |
| ZabbixTreeFeed.GroupExact | scripts/load_obj_zabbix_v2.py:113-127 | the group adds exactly its nodes, links and fields: after a group, the nodes are the old ones plus the path's prefixes, the new children are exactly the path's and the hosts' links, and new nodes hold the group's fields |
| ZabbixTreeFeed.PlaceGroup | scripts/load_obj_zabbix_v2.py:113-127 | the group's whole path is linked from `zabbix` down and its hosts hang below the last node; exactly the path's prefix nodes are added, exactly the path's links and the hosts' links are added as children, and each node it creates holds `{name: segment, fromGroup: group name}` |
| ZabbixTreeFeed.LinkAll | scripts/load_obj_zabbix_v2.py:126-127 | every host of the group becomes a child of the node, and nothing else changes |
| ZabbixTreeFeed.HostLinksCover | scripts/load_obj_zabbix_v2.py:126-127 | every host of every group is paired with the last node of the group's path |
| ZabbixTreeFeed.PlacedUpToStep | scripts/load_obj_zabbix_v2.py:112-127 | placing the next group keeps the earlier groups placed |
| ZabbixTreeFeed.PlacedAll | scripts/load_obj_zabbix_v2.py:112-127 | after the loop every group is placed |
| ZabbixTreeFeed.BuiltInitially | scripts/load_obj_zabbix_v2.py:110 | before any group, the dict is the `zabbix` node with no children |
| ZabbixTreeFeed.BuiltChildrenStep | scripts/load_obj_zabbix_v2.py:112-127 | after one more group, a node's children are exactly the links of the groups so far |
| ZabbixTreeFeed.BuiltFieldsStep | scripts/load_obj_zabbix_v2.py:121-122 | after one more group, every node but `zabbix` holds the fields of the first group whose path reached it |
| ZabbixTreeFeed.BuiltStep | scripts/load_obj_zabbix_v2.py:112-127 | one more group keeps the dict exactly the nodes and links of the groups so far |
| ZabbixTreeFeed.BuildTree | scripts/load_obj_zabbix_v2.py:110-127 | starting from `zabbix` alone, a well-formed tree in which every group is placed; its nodes are exactly `zabbix` and the prefixes of the groups' paths, each node's children are exactly the links of those paths and the hosts below each path's end, and every other node holds the fields of the first group (in key order) whose path reached it |
| ZabbixTreeFeed.NodeItems | scripts/load_obj_zabbix_v2.py:129-133 | one item per node, in insertion order |
| ZabbixTreeFeed.EmitTree | scripts/load_obj_zabbix_v2.py:129-133 | the loop over `kGroups` yields one item per node, in order |
| ZabbixTreeFeed.Feed | scripts/load_obj_zabbix_v2.py:93-178 | the run posts the hosts, the tree's nodes and the root, then the events, and prunes both, exactly when no problem raises; the tree is exactly the one its groups determine (see `BuildTree` and `TreeOfUnique`) |
| ZabbixTreeFeed.NodeItemsKeys | scripts/load_obj_zabbix_v2.py:129-133 | the node items carry exactly the node ids |
| ZabbixTreeFeed.NodeItemsChildren | scripts/load_obj_zabbix_v2.py:129-133 | node items name only nodes and hosts as children |
| ZabbixTreeFeed.LinksToHosts | scripts/load_obj_zabbix_v2.py:95-127 | every host below a node is one of the hosts |
| ZabbixTreeFeed.AssembledTreeClosed | scripts/load_obj_zabbix_v2.py:107-135 | every child any posted item names is itself posted in the same batch |
| ZabbixTreeFeed.TreeChildrenPosted | scripts/load_obj_zabbix_v2.py:93-135 | the script's batch names no child it does not post |
| ZabbixTreeFeed.GroupPlaced | scripts/load_obj_zabbix_v2.py:95-127 | every host hangs below the last node of each of its groups' paths |
| ZabbixTreeFeed.HostsOnlyAtTheirNode | scripts/load_obj_zabbix_v2.py:119-127 | a child that is not a node is a host of a group whose path ends at that very node |
| ZabbixTreeFeed.TreeTop | scripts/load_obj_zabbix_v2.py:110-135 | the root's only child is `zabbix`, whose fields stay as initialised |
| ZabbixTreeFeed.NodesUpToMember | scripts/load_obj_zabbix_v2.py:112-122 | a node of the first groups is a prefix of one of their paths, and each such prefix is one |
| ZabbixTreeFeed.LinksUpToMember | scripts/load_obj_zabbix_v2.py:112-127 | a link of the first groups is on one of their paths or below one path's end, and each such link is one |
| ZabbixTreeFeed.GroupsByKey | scripts/load_obj_zabbix_v2.py:112 | ranging over the dict's keys in order covers exactly its groups |
| ZabbixTreeFeed.TreeNodes | scripts/load_obj_zabbix_v2.py:110-122 | a node of the tree is `zabbix` or a prefix of some group's path, and every such prefix is a node |
| ZabbixTreeFeed.TreeChildren | scripts/load_obj_zabbix_v2.py:119-127 | a node's children are exactly the next prefixes of the paths through it and the hosts of the groups whose path ends there |
| ZabbixTreeFeed.PrefixIdLonger | scripts/load_obj_zabbix_v2.py:120 | a longer prefix of a path has a longer id |
| ZabbixTreeFeed.CreatedByUnique | scripts/load_obj_zabbix_v2.py:119-122 | a group creates a node of its path with one set of fields only |
| ZabbixTreeFeed.FirstCreatedUnique | scripts/load_obj_zabbix_v2.py:112-122 | only one group is the first to reach a node, and it gives the node one set of fields |
| ZabbixTreeFeed.TreeOfUnique | scripts/load_obj_zabbix_v2.py:110-127 | the groups determine the tree up to the order of its dicts: the same nodes, each with the same fields and the same children |
| RandomFeed.ParentNumberStep | scripts/load_obj_random.py:24-38 | each parent's number is the previous parent's plus the children per parent plus one, never below 2 |
| RandomFeed.ParentNumberPrev | scripts/load_obj_random.py:24-38 | the step read backwards, from parent n to parent n - 1 |
| RandomFeed.ParentNumberGrows | scripts/load_obj_random.py:24-38 | a later parent's number lies beyond an earlier parent's whole block |
| RandomFeed.Ids | scripts/load_obj_random.py:18-22 | the next count counter values as decimal strings, in order |
| RandomFeed.ChildItems | scripts/load_obj_random.py:28-34 | one child item per id, in order |
| RandomFeed.ParentIds | scripts/load_obj_random.py:24-27 | the parents' ids in order, each its parent number as a string |
| RandomFeed.AddChildren | scripts/load_obj_random.py:28-34 | the inner loop takes the next c counter values as children, appends their items, and advances the counter by c |
| RandomFeed.LoopStep | scripts/load_obj_random.py:24-38 | one more outer iteration appends one block, one parent id, and advances the counter past the block |
| RandomFeed.BuildItems | scripts/load_obj_random.py:14-42 | the posted items are the blocks and the root, and the counter ends at the number after the last block |
| RandomFeed.RandomStatusMeaning | scripts/load_obj_random.py:53-65 | a draw from 1 to 5 yields the name of the status with that number, never CLEAR; any other draw yields CLEAR |
| RandomFeed.RandomEvents | scripts/load_obj_random.py:67-71 | one event per number below the counter, whose id and `itemId` are that number and whose status comes from the i-th draw |
| RandomFeed.BuildRandomEvents | scripts/load_obj_random.py:44-71 | the event loop yields exactly those events |
| RandomFeed.Feed | scripts/load_obj_random.py:14-100 | the run posts the items and the events, then prunes both |
| RandomFeed.RunSizes | scripts/load_obj_random.py:24-71 | a run posts 11001 items and 11002 events |
| RandomFeed.BlocksLength | scripts/load_obj_random.py:24-38 | the blocks hold one item per counter value from 2 up to the final counter |
| RandomFeed.BlockIds | scripts/load_obj_random.py:24-38 | a block carries exactly the counter values it took |
| RandomFeed.NumberIdsSplit | scripts/load_obj_random.py:18-22 | adjacent ranges of counter values join |
| RandomFeed.BlocksIds | scripts/load_obj_random.py:24-38 | the blocks carry exactly the counter values from 2 up to the final counter |
| RandomFeed.IdsStep | scripts/load_obj_random.py:24-38 | adjacent batches of consecutive ids join into one range |
| RandomFeed.NumberIdsDisjoint | scripts/load_obj_random.py:18-22 | disjoint ranges of counter values give disjoint ids |
| RandomFeed.ItemIdsAtMost | scripts/load_obj_random.py:24-42 | a batch has no more distinct ids than items |
| RandomFeed.CountedIdsUnique | scripts/load_obj_random.py:24-42 | a batch with as many distinct ids as items has no id twice |
| RandomFeed.NumberIdsCount | scripts/load_obj_random.py:18-22 | a range of counter values gives as many distinct ids as values |
| RandomFeed.AppendRoot | scripts/load_obj_random.py:41-42 | the root adds the id "1", which no block has |
| RandomFeed.RandomItemsIds | scripts/load_obj_random.py:14-42 | the posted ids are the counter values from 2 on plus "1", each posted once |
| RandomFeed.IndexOf | scripts/load_obj_random.py:24-42 | an item of a batch sits at some position |
| RandomFeed.InBlocks | scripts/load_obj_random.py:24-38 | every block item sits at some position of some block |
| RandomFeed.BlockItemChildren | scripts/load_obj_random.py:28-38 | a child item names no children and the parent names its block's children |
| RandomFeed.ChildrenWithinMore | scripts/load_obj_random.py:24-42 | naming children within a set holds for any larger set |
| RandomFeed.ChildItemsWithin | scripts/load_obj_random.py:28-38 | a block names only its parent's children |
| RandomFeed.IdsWithin | scripts/load_obj_random.py:28-30 | a block's children lie within the block's counter range |
| RandomFeed.BlockChildrenWithin | scripts/load_obj_random.py:24-38 | a block names only ids of its own counter range |
| RandomFeed.BlocksChildrenWithin | scripts/load_obj_random.py:24-38 | the blocks name only ids of the counter values they took |
| RandomFeed.WithinStep | scripts/load_obj_random.py:24-38 | naming children within adjacent ranges joins |
| RandomFeed.RootChildrenWithin | scripts/load_obj_random.py:41 | the root names only parent ids |
| RandomFeed.RandomChildrenPosted | scripts/load_obj_random.py:14-42 | every child any posted item names is itself posted |
| RandomFeed.BlockChildNumber | scripts/load_obj_random.py:28-38 | a child named in a block is the parent's and lies strictly between the block's parent number and the next |
| RandomFeed.ChildNumber | scripts/load_obj_random.py:24-42 | a named child is a parent of the root, or a child of exactly one block's parent |
| RandomFeed.OneParent | scripts/load_obj_random.py:24-42 | no item is named as a child by two different items |
| RandomFeed.ParentNumbersApart | scripts/load_obj_random.py:24-38 | no parent's number lies strictly inside another parent's block |
| RandomFeed.EveryItemHasParent | scripts/load_obj_random.py:24-42 | every item of the blocks is named as a child by some posted item |
| RandomFeed.BlockInBlocks | scripts/load_obj_random.py:24-38 | each block's items are among all blocks' items |
| RandomFeed.EventsMatchItems | scripts/load_obj_random.py:67-71 | every posted item has an event whose `itemId` is its id |
| RandomFeed.EventZeroNamesNoItem | scripts/load_obj_random.py:45-71 | the first event names item "0", which no posted item has |
| RandomFeed.NoClearEvents | scripts/load_obj_random.py:53-71 | with draws from 1 to 5, no event is posted as CLEAR |

## Left out

- HTTP and JSON-RPC traffic of the scripts (the Zabbix fetch functions, the `requests` sessions, status codes, `print` and timing). The Zabbix answers are inputs. The four requests are `Feeds.Step` values applied to the server's origin view. As in the code, each request is sent whatever the previous one answered.
- OpenSearch search and bulk calls of `EventHistoryService`. The stored documents are a parameter. The bulk write is the returned sequence. The grouping of ids in chunks of 1000 and the 10000-hit search limit are not modelled; duplicate hits of one id merge the same way in any chunk.
- Locks, `synchronized`, `transaction` (`IndexedHashMap.java:111-115`) and `volatile`. Every operation is atomic and sequential.
- Metrics counters other than `IndexLongUniq`'s size counter.
- `IndexedHashMap.findByKey` (`IndexedHashMap.java:61-63`) only forwards to the index. The indexes' own `findByKey` methods are modelled.
- The index objects are values inside `Store.IndexedHashMap`, so aliasing of an index object from outside the map is not modelled.
- `EntityService.findByFields` and the `entityRemoved` hooks, including `ItemService`'s tombstone re-put (`ItemService.java:76-110`). The model uses the base class's empty hook.
- `ItemService`'s `name` CO producer, `eventAdded`/`eventRemoved`, `findParents`, `findChildrenById` and `findAllEventsById` beyond the item walk `FindAllItemsById`.
- `Item.getNameForIndex`, which belongs to a later revision of `Item.java`.
- The clock. `AggregateEventsStatus` reads `Instant.now()` twice within one call; the model uses one `now` for both.
- Java's 64-bit `Long` limits on counters. Versions, replication counters and event counters are unbounded, since no run reaches 2^63.
- Python's `random.randint`. The draws are a function `draw` given as a parameter.
- RandomFeed.RandomItems is stated for any number of parents and children per parent. `RandomFeed.Feed` fixes them at 1000 and 10, as the script does.
- QueryPredicates.CompareStrings: returns only the sign of Java's `String.compareTo`, not the character or length difference. Every caller uses only the sign.
- EventRelationServices.EventRelationService.FindEventIdWithMaxStatus: states that the result is a most severe event of the item, not which of several equally severe ones. The code keeps the one scanned last, and the scan order of the index's hash set is unspecified.
- EventRelationServices.EventRelationService.Add: uses the corrected max-entry decision `AddMaxUpdate` (see Findings). The decision as written is `AddMaxUpdateAsWritten`.
- EntityQueries.Keep: uses the corrected `version` and `deletedOn` NE filters (see Findings). The filters as written are `VersionNeAsWritten` and `DeletedOnNeAsWritten`.
- QuerySorts.CompareTo: is the corrected comparison (see Findings). The subtraction as written is `CompareToAsWritten`.
- ItemServices.ItemService.CalculateStatus: promises that every visited item ends settled (holding the status its children and events give it) only when the items form no cycle. With a cycle the history set cuts the recursion, and which statuses remain then depends on the iteration order of the parents' hash set.
- ZabbixTreeFeed.BuildTree: pins the nodes, each node's fields and each node's set of children, but not the order of the dict's keys or of each node's children.
- Operators.ToUpper and Decimal.ParseInteger: model ASCII text under the root locale only. Java's `toUpperCase` also maps non-ASCII letters (the long s "ſ" to "S", the dotless "ı" to "I") and depends on the default locale. `Integer.valueOf`/`Long.valueOf` also accept non-ASCII decimal digits such as "٣".
- Store.IndexedHashMap.Put: when a unique index rejects the new entity, Java has already removed the old entity from that index and appended some of the new keys (`IndexedHashMap.java:73-96`). The model leaves that index as it was and pins only the cache on that path.
- HistoryQueues.HistoryQueue.Poll: an exception thrown by the consumer is caught and printed (`HistoryQueueImp.java:45-47`), which ends that poll. The consumer is modelled as never throwing.

## Findings

| source | as written | input that shows it | evidently intended | confidence | as-written member | corrected member |
|---|---|---|---|---|---|---|
| src/main/java/ru/keich/mon/servicemanager/query/QuerySort.java:51-54 | `compareTo` returns `this.order - o.order` in 32-bit `int` arithmetic | orders Integer.MIN_VALUE and 1: the difference wraps to a positive value, so the smaller order sorts after the larger | ascending by order for every pair (`Integer.compare`) | not executed | QuerySorts.CompareToAsWrittenOverflows | QuerySorts.CompareTo |
| src/main/java/ru/keich/mon/servicemanager/entity/EntityService.java:123-130 | the `deletedOn=ne:t` filter compares the entity's `createdOn` with t and keeps it when they are equal | a live entity created at 5: `ne:7` drops it and `ne:5` keeps it, although it was never deleted | keep the entities whose `deletedOn` differs from t | not executed | EntityQueries.DeletedOnNeAsWrittenReadsCreation | EntityQueries.DeletedOnNeDropsEqualTime |
| src/main/java/ru/keich/mon/servicemanager/eventrelation/EventRelationService.java:61-83 | `addCalculateMaxStatus` keeps the max entry whenever the max event itself is re-added with a lower status | item i with e1 CRITICAL (the max) and e2 WARNING; e1 is lowered to CLEAR: the max entry stays on e1 and the item reports CLEAR | rescan for the most severe event when the max event is lowered | not executed | EventRelationServices.AddAsWrittenLosesMax | EventRelationServices.AddMaxUpdate |
| src/main/java/ru/keich/mon/servicemanager/entity/EntityService.java:103-106 | the `version=ne:v` filter compares a boxed `Long` with a boxed `Long` by `!=`, that is by reference | version 200: the two boxes differ, so `ne:200` keeps the entity of version 200, while `ne:100` (a cached box) drops version 100 | keep the entities whose version differs from v | not executed | EntityQueries.VersionNeAsWrittenKeepsEqualVersion | EntityQueries.VersionNeDropsEqualVersion |
