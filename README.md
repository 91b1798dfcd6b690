# EventStore: a verified model

The EventStore is an in-memory index of events. An event is a value
`(type, timestamp)`. The store keeps one C++ `unordered_multimap` named
`event_mmap`, from event type to timestamp. It offers three operations:

- `insert` adds one pair and keeps duplicates;
- `removeAll` erases every pair of one type;
- `query` walks the entries of one type and returns fresh `Event` copies
  whose timestamp lies in the half-open interval `[startTime, endTime)`.

The repository has two copies of the store. `src/main/EventStore.cpp` is the
serial one. `src/main/EventStoreSharedMutex.cpp` has the same method bodies,
each wrapped in a reader/writer lock: writers lock exclusively, `query` locks
shared. Both are modelled.

Files:

- `event_model.dfy`, module `EventModel`: the shared part.
  - Types: the `Event` value, and `Index = map<string, seq<Int32>>`. An
    `Index` is the multimap grouped by key: each present key maps to its
    bucket, the timestamps stored under it.
  - Operations as pure functions: `Inserted`, `Erased`, and `QueryResult`
    (built from `Matching` and `Events`).
  - Lemmas relating the operations to each other.
  - A history of writer calls (`Op`, `Apply`). This is the sequence
    into which the lock serialises concurrent writers.
- `event_store.dfy`, module `EventStoreSerial`: the serial class. Its field
  `eventMmap` is updated in place by `Insert` and `RemoveAll`. `Query` is a
  `while` loop over the bucket that appends to a local sequence. `Test6`
  models the driver `test_6`.
- `event_store_shared_mutex.dfy`, module `EventStoreSharedMutex`: the same
  class for the locked version. The lock is treated as a transparent
  wrapper, so every call acts atomically.
- `test_scenario.dfy`, module `TestScenario`: the data `test_6` builds (the
  labels `event_label_k`, the labelled insert loops) and the lemmas that fix
  the results of its two queries.

The C++ types are kept:

- Event timestamps and query bounds are `long int`, modelled as `Int64`.
- The values stored in `event_mmap` are `int`, modelled as `Int32`.

Where the declared types and the comments disagree, the declaration decides. The header comment of both files
speaks of a `long int` multimap (line 76 and line 82 respectively). The
declaration (`src/main/EventStore.cpp:114`, `src/main/EventStoreSharedMutex.cpp:123`)
is `unordered_multimap<std::string, int>`, so `insert` narrows the timestamp.
The model follows the declaration. `Insert` requires a timestamp that fits in
an `int`, so the narrowing never loses information.

## Model

| member | source | states |
|---|---|---|
| EventModel.Inserted | src/main/EventStore.cpp:119-121 | inserting `(ty, t)` adds exactly one entry under `ty`, even when `(ty, t)` is already stored: the bucket grows by one and the count of `t` by one. The key becomes present, every other key's bucket is unchanged, and no key is left with an empty bucket |
| EventModel.Erased | src/main/EventStore.cpp:123-125 | after erasing `ty`, the key is absent and no entry of `ty` is left. Every other key's bucket is unchanged, with its multiplicities. Erasing an absent key returns the multimap unchanged. The no-empty-bucket invariant is kept |
| EventModel.MatchingCount | src/main/EventStore.cpp:135-141 | the bucket filter keeps each stored occurrence of a timestamp in `[startTime, endTime)` and drops every timestamp outside it (lower bound inclusive, upper bound exclusive) |
| EventModel.EventsCount | src/main/EventStore.cpp:137-138 | each kept timestamp yields one `Event` that carries the queried type, and no other event |
| EventModel.ScanStep | src/main/EventStore.cpp:135-141 | one loop step appends the event for the current entry exactly when its timestamp is in range |
| EventModel.QueryResultSpec | src/main/EventStore.cpp:128-149 | as a multiset, the query result is exactly the stored `(ty, t)` with `startTime <= t < endTime`, each once per stored occurrence. Every returned event has the queried type. An absent type or an empty interval gives the empty sequence |
| EventModel.InsertThenQueryMultiset | src/main/EventStoreSharedMutex.cpp:130-156 | after an insert, a query of the same type returns, as a multiset, what it returned before plus the new event when its timestamp is in range, wherever the new entry sits among those of its type. Queries of other types are unchanged |
| EventModel.InsertThenQuery | src/main/EventStoreSharedMutex.cpp:130-156 | the same fact in the model's insertion order: the new event, when in range, comes last in the result |
| EventModel.RemoveAllThenQuery | src/main/EventStoreSharedMutex.cpp:135-164 | after `removeAll(ty)`, a query of `ty` is empty and queries of other types are unchanged |
| EventModel.CountAfterWriters | src/main/EventStoreSharedMutex.cpp:130-138 | take any serialised sequence of writers that contains no `removeAll(ty)`. It adds exactly one entry `(ty, t)` per `insert(ty, t)` it contains, so no update is lost |
| EventModel.InsertedStaysVisible | src/main/EventStoreSharedMutex.cpp:130-156 | an inserted event with a timestamp in `[s, e)` is returned by every later `query(ty, s, e)`, as long as no `removeAll` of its type comes in between |
| EventStoreSerial.EventStore.constructor | src/main/EventStore.cpp:112-114 | the store starts with an empty multimap |
| EventStoreSerial.EventStore.Insert | src/main/EventStore.cpp:119-121 | the new multimap is `Inserted(old, type, timestamp)`: the bucket of the type grows by one and every other bucket is unchanged. The timestamp must fit in `int` |
| EventStoreSerial.EventStore.RemoveAll | src/main/EventStore.cpp:123-125 | the new multimap is `Erased(old, type)`: no entry of the type is left and every other bucket is unchanged. On an absent type the store is unchanged |
| EventStoreSerial.EventStore.Query | src/main/EventStore.cpp:128-149 | the loop returns `QueryResult` of the unchanged store. As a multiset of events this is the stored pairs of the type with timestamp in `[startTime, endTime)`, with multiplicity. Every event carries the queried type. The result is empty for an absent type or an empty interval |
| EventStoreSerial.Test6 | src/main/EventStore.cpp:280-318 | after the driver's inserts and `removeAll("event_label_1")`, `query("event_label_0", 3, 7)` returns the events at 3 and 6. `query("event_label_0", 370, 400)` returns the nine events at 375, 378, ..., 399 |
| EventStoreSharedMutex.EventStore.constructor | src/main/EventStoreSharedMutex.cpp:121-127 | the store starts with an empty multimap |
| EventStoreSharedMutex.EventStore.Insert | src/main/EventStoreSharedMutex.cpp:130-133 | as a single atomic step: the new multimap is `Inserted(old, type, timestamp)`, with one more entry under the type, duplicates kept and other keys untouched |
| EventStoreSharedMutex.EventStore.RemoveAll | src/main/EventStoreSharedMutex.cpp:135-138 | as a single atomic step: the new multimap is `Erased(old, type)`, with the type's entries gone, other keys untouched, and no change for an absent type |
| EventStoreSharedMutex.EventStore.Query | src/main/EventStoreSharedMutex.cpp:141-164 | read-only (no `modifies`). It returns exactly the bucket's timestamps in `[startTime, endTime)` as events of the queried type, with multiplicity. The result is empty for an absent type or an empty interval |
| EventStoreSharedMutex.Test6 | src/main/EventStoreSharedMutex.cpp:444-482 | the same scenario as the serial driver: the events at 3 and 6, then the nine events at 375, 378, ..., 399 |
| TestScenario.LabelledRunBucket | src/main/EventStore.cpp:283-288 | the driver loop that inserts `(event_label_{i % 3}, i)` appends to bucket `event_label_k` exactly the `i` with `i % 3 == k`, in increasing order |
| TestScenario.Test6Contents | src/main/EventStore.cpp:283-301 | after both loops and the removal, bucket `event_label_0` holds 0, 3, 6, 9 and 375, 378, ..., 408, each once |
| TestScenario.Test6FirstQuery | src/main/EventStore.cpp:305 | on that bucket, the query over `[3, 7)` gives exactly the events at 3 and 6 |
| TestScenario.Test6SecondQuery | src/main/EventStore.cpp:311 | on that bucket, the query over `[370, 400)` gives exactly the events at 375, 378, ..., 399 |

## Left out

- Locking: `sh_mutex_`, `unique_lock` and `shared_lock` are not modelled.
  Each method is one atomic step. Concurrent callers are covered only as a
  serialised sequence of writers (`Op`, `Apply`). Fairness, blocking and
  reader/writer overlap are about timing, which a sequential model cannot
  express.
- The thread drivers `thread_fun_0`, `thread_fun_1`, `parallel_test_0` and
  `parallel_test_1` are left out. They exist to exercise concurrency with
  threads, sleeps and random numbers.
- `print_mmap` and every console output in the drivers are left out, because
  they are output only. No snapshot operation is modelled.
- `main`, `test_0` to `test_5`, and the `Event` copy constructor and
  destructor are left out. The tests are drivers, and the copy constructor
  and destructor do nothing beyond a value copy. `Event` is a datatype whose
  destructors `Type` and `Timestamp` are the getters.
- Iteration order of `std::unordered_multimap`: the model keeps each bucket
  in insertion order, so `Query` returns matches in that order. The real
  order among entries of one key is unspecified. Three facts are about the
  model's insertion order, not the program's: `InsertThenQuery` (the new
  event comes last), the first ensures of both `Query` methods
  (`vect == QueryResult(...)`, which fixes bucket order) and
  `LabelledRunBucket` (the bucket in increasing order). The order-free
  facts are stated as multisets: `QueryResultSpec`, `InsertThenQueryMultiset`,
  the other ensures of `Query`, `Test6Contents`, the two query lemmas and
  `Test6`.
- EventStoreSerial.EventStore.Insert: does not model the `long` to `int`
  narrowing of an out-of-range timestamp. It requires the timestamp to fit
  in `int`, because that conversion is implementation-defined before C++20.
- EventStoreSharedMutex.EventStore.Insert: the same precondition, for the
  same reason.
- Hashing and buckets of the hash table are left out. The model walks only
  the entries of the queried type, as `equal_range` does, but the cost of
  any operation is not stated.
- Allocation failure (`std::bad_alloc` on insert) is left out. Memory is
  unbounded in the model.
