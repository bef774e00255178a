# Proofs about the vendored Realm accessor and RxFoundation

A Dafny model of the algorithms that the repository carries as complete source: Realm's
object accessor with its lists, RxFoundation's read/write lock, Realm's event-loop
dispatcher, RxFoundation's byte buffer and key-value observing, and three smaller cores
(index-set iteration, date conversion, the byte-string hash).
`dafny verify dfyconfig.toml` checks everything.

**Upsert engine.** `RealmModel` has schemas, boxed values and tables (rows of scalar, link
and list cells). `ObjectAccessor.Realm` is `Object::create` and what it calls, written as
methods that change the tables in place; `UpsertSpec` has the function that each of these
methods computes: the tables it leaves (also when it fails midway), its result, and the
number of writes it issues. `UpsertInvariant`, `UpsertFrame`, `UpsertReadBack` and
`UpsertModes` each prove one property by induction over the value tree, `UpsertLists` is
about lists on their own, `UpsertOutcomes`, `UpsertSuccess` and `UpsertSets` about what is
refused, when a create succeeds, and sets of single properties; `UpsertTheorems` collects the
results and `UpsertLimits` shows where they stop. The context is `CppContext`, which has no
default values, and the branches are those without sync.

* Full overwrite and `update_only_diff` return the same object and end in the same tables, if
  every type has a primary key and no key comes back inside its own subtree; siblings may name
  the same object. The proof passes the pending list items of diff mode past every nested
  upsert, which needs that upserts of other keys commute with writing the cell. Neither
  condition can be dropped: without a key the two modes return different objects, and with a
  key that comes back below itself a concrete store ends differently.
* If no key occurs twice in the tree, the created object reads back with all supplied
  properties. This covers plain creates and upserts, except the plain create in a migration,
  and in full mode also types without a key, whose objects are new rows. In diff mode a row
  without a key is written in place, and two list entries that share one do not read back.
* After such a create an upsert of the same value writes nothing, if every type has a key.
* A create succeeds exactly when the tables accept the value: the key is given, and free in a
  plain create; every required property of a new row is there; no required property is null;
  and every value fits (up to managed rows and lists in the value). An omitted property of a
  new row reads null or is an empty list, and a plain create under an existing key is refused
  without a trace.
* `List::assign` ends with exactly the input, entry by entry, also when the input names one
  object several times: in full mode always, in diff mode if every type has a key.
* Over any run of creates and property sets, failing or not, links and list entries keep
  pointing at rows of their target table, and primary keys stay unique unless a migration
  creates without `try_update` or sets a primary key.
* Old rows whose key is not in the tree are untouched, in full mode also all old rows without
  a key, and each table of a type with a key grows by exactly the tree keys that it lacked.

**Read/write lock.** Any number of threads, one statement at a time, with the mutex explicit,
so that a waiting thread can be awake and still queue for the mutex, and with spurious
wakeups. Exact counters and exclusion, no lost wakeup, no stuck lock, and writer preference
are proved over whole runs. `ReadWriteLockMethods` gives the atomic effect of every method run
alone, and shows that among other threads a try method is decided when it takes the mutex.

**Dispatcher.** Producers and loop as interleaved statements; a notification sets a flag that
the loop clears when it starts the callback, so notifications coalesce. A producer's calls
are delivered exactly once and in its order, and queued work always has a callback coming,
under way, or about to be requested. Once the producers are idle, the loop alone delivers
everything. Calls on the loop thread can be removed from any run without a trace. The methods
of the class are runs of the state machine by one thread alone.

**Byte buffer.** `replaceBytes` over an array, with memmove and reallocation. A source inside
the buffer is saved only when the buffer grows. When it does not grow, the result is the splice
for every content of the buffer if and only if the source does not reach into the place that
the tail moves to (`AliasedSpliceIff`).

**Key-value observing.** The comment on `KeyValueObserverInterface.cpp:235` says that the new
value is kept as the next old value, but line 234 has already reset the change record, so what
is kept is nil. The proofs follow the code. `KeyValueHistories` is about any run of
registrations, removals and changes of any keys, in which the value of a key changes only when
the key or one that it depends on does. What a listener hears is given operation by operation.
It is the history of its key without repeats if and only if no single operation tells it too
much or too little, and it is so in every run if and only if the listener asked for old values
and its key depends on no other: a key that depends on another is told its value, changed or
not, once for every dependency path, and an observer without old values is told again by
others' registrations. More than one notice of one change comes exactly when there is a value
and there are two paths; a diamond shows it. `KeyValueRegistration` ties this to the
registration itself, and shows that a removed observer hears nothing more.

**Date conversion.** Over exact reals. The code subtracts the 1970 offset in the lower bound
check (`RLMUtil.hpp:154`) where the upper check has it on the other side, so dates in the first
62 years of the range are clamped though they could be represented; `TimestampRoundTrip` gives
the exact condition.

## Model

| member | source | states |
|---|---|---|
| UpsertTheorems.DiffRefinesFull | Example/Pods/Realm/include/object_accessor.hpp:191-306 | With a primary key on every type and no key coming back inside its own subtree, full and diff mode give the same result, and on success the same tables; diff mode issues no more writes. For creates with and without try_update, but for the plain create in a migration. |
| UpsertTheorems.UpsertIsIdempotent | Example/Pods/Realm/include/object_accessor.hpp:206-306 | After a successful create or upsert in either mode, upserting the same value returns the same row and leaves all tables alone, and in diff mode issues no write at all. |
| UpsertTheorems.StoreInvariant | Example/Pods/Realm/include/object_accessor.hpp:205-298 | Over any run of creates and property sets, including those that fail midway, cells keep their types and links and list entries point at existing rows; primary keys stay unique if no call in a migration creates without try_update or sets a primary key. |
| UpsertTheorems.StoreInvariantFromEmpty | Example/Pods/Realm/include/object_accessor.hpp:205-298 | The same for every run that starts with empty tables. |
| UpsertTheorems.ApplySafe | Example/Pods/Realm/include/object_accessor.hpp:45-57 | One call, create or set, keeps the store well formed and loses no row; a create keeps every row's key, and so does a set that is not of a primary key in a migration. |
| UpsertTheorems.UpsertReadsBack | Example/Pods/Realm/include/object_accessor.hpp:274-305 | A create or upsert leaves old rows whose key is not in the tree untouched, and old rows without a key; on success the object holds every supplied property, recursively, as the first row with its key or, if its type has none, as a new row. |
| UpsertTheorems.ReadProperty | Example/Pods/Realm/include/object_accessor.hpp:145-179 | What holding means to a reader: each supplied scalar, null or link comes back equal, and a supplied dictionary comes back as an object that holds it. |
| UpsertTheorems.ReadItem | Example/Pods/Realm/include/list.hpp:181-185 | The same for each entry of a list. |
| UpsertTheorems.UpsertGrowth | Example/Pods/Realm/include/object_accessor.hpp:217-272 | Each table of a type with a key grows by the number of tree keys that it did not hold before, for creates and upserts. |
| UpsertInvariant.CreateSafe | Example/Pods/Realm/include/object_accessor.hpp:191-306 | One create, in any mode and with any current row, keeps the store invariant, also when it fails; a returned row exists. |
| UpsertFrame.CreateFrame | Example/Pods/Realm/include/object_accessor.hpp:191-306 | A create or upsert, other than a plain create in a migration or in diff mode with types without a key, writes only old rows whose key occurs in its tree, adds keyed rows only for keys of the tree, and on success every key of the tree has a row. |
| UpsertReadBack.ReadCreate | Example/Pods/Realm/include/object_accessor.hpp:274-305 | A successful create or upsert of a tree with distinct keys holds every supplied property, objects of types without a key in new rows. |
| UpsertReadBack.ReadSetProp | Example/Pods/Realm/include/object_accessor.hpp:104-143 | Setting one property to a value with distinct keys, with or without try_update, in full mode or in diff mode with a key on every type, ends with the property holding it, recursively, and no other cell of the row changes. |
| UpsertReadBack.NoOpCreate | Example/Pods/Realm/include/object_accessor.hpp:206-306 | A diff-mode create of a value that a store already holds returns that row and issues no write. |
| UpsertOutcomes.CreateRefuses | Example/Pods/Realm/include/object_accessor.hpp:206-258 | For a type with a key: a value that is no dictionary, or does not give the key, is refused with its error, and so is a plain create under an existing key outside a migration; in each case nothing is written. |
| UpsertOutcomes.PlainCreateIsNew | Example/Pods/Realm/include/object_accessor.hpp:217-272 | A plain create that succeeds outside a migration returns a new row, and no row had its key; in full mode so does every create of a type without a key. |
| UpsertOutcomes.NewRowDefaults | Example/Pods/Realm/include/object_accessor.hpp:278-298 | In a new row every required property was supplied and is not null, and every omitted one reads null or is an empty list. |
| UpsertOutcomes.FailureLeavesRow | Example/Pods/Realm/include/object_accessor.hpp:217-298 | A create that fails after its key was found free leaves the new row with its key. |
| UpsertOutcomes.FailureLeavesNested | Example/Pods/Realm/include/object_accessor.hpp:278-298 | A row that a nested create has made stays, whatever fails later. |
| UpsertSuccess.CreateSucceedsIff | Example/Pods/Realm/include/object_accessor.hpp:191-306 | With distinct keys, a create succeeds if the tables accept the value, and for values without managed rows and lists only then; in general only if they accept it but for those. |
| UpsertSets.SetReadsBack | Example/Pods/Realm/include/object_accessor.hpp:45-57 | A named set of a property succeeds for accepted values; then the property reads back the value, no other cell of the row changes, and no other row but those that the value names. |
| UpsertSets.SetScalar | Example/Pods/Realm/include/object_accessor.hpp:45-57 | A scalar property takes a value of its kind, or null if it may, in one write and reads it back, and refuses all else without a trace; the primary key does so in a migration, and outside one refuses everything. |
| UpsertReadBack.RemoveTailIs | Example/Pods/Realm/include/list.hpp:272-274 | The closing loop of a diff assignment cuts the list to the input's length, one write an entry. |
| UpsertModes.CommuteCreate | Example/Pods/Realm/include/object_accessor.hpp:191-306 | A create or upsert does the same whatever a cell of a row with a key outside its tree holds: it commutes with writing that cell. |
| UpsertModes.AgreeCreate | Example/Pods/Realm/include/object_accessor.hpp:191-306 | The two modes agree for every pair of current rows and every tree in which no key comes back inside its own subtree. |
| UpsertModes.AgreeStep | Example/Pods/Realm/include/list.hpp:236-281 | One list element: comparing and replacing in place amounts to adding to the cleared list, up to the items still to be compared. |
| UpsertLists.AssignIsInput | Example/Pods/Realm/include/list.hpp:249-282 | In full mode, and in diff mode with a key on every type, a successful assignment, whatever the list held, ends with a list as long as the input whose entries are, one by one, the scalars, the managed rows, the first rows with the keys of the elements, or new rows for types without a key; null empties the list, the same list changes nothing, and no other cell of the row changes. Elements may repeat; only the object that owns the list must not come back inside it. |
| UpsertLimits.UnkeyedModesDiffer | Example/Pods/Realm/include/object_accessor.hpp:260-272 | For a type without a key and an existing current row, full mode returns a new row and diff mode the current one. |
| UpsertLimits.ReusedRowReadsBackWrong | Example/Pods/Realm/include/list.hpp:236-246 | In diff mode, assigning two different leaves to a list that names one leaf without a key twice writes both into it, so that the first entry reads back as the second. |
| UpsertLimits.RepeatedKeyModesDiffer | Example/Pods/Realm/include/list.hpp:260-281 | A tree whose key comes back inside its own list ends in different tables in the two modes. |
| UpsertLimits.MigrationDuplicatesKeys | Example/Pods/Realm/include/object_accessor.hpp:245-253 | For every type with a key: in a migration a plain create under an existing key that succeeds makes a second row with that key. |
| ListAssign.AssignScalars | Example/Pods/Realm/include/list.hpp:249-282 | The list becomes the input; diff mode sets exactly the mismatched slots of the common prefix and adds or removes the difference in length, full mode clears and adds all. |
| ListAssign.AssignIff | Example/Pods/Realm/include/list.hpp:249-282 | In either mode an assignment to a list of scalars succeeds exactly for the same list, null, and scalars of its kind; the list then is as before, empty, or the input, nothing else changes, and assigning again is a no-op. |
| ListAssign.AssignStops | Example/Pods/Realm/include/list.hpp:249-282 | An assignment that meets an element of another kind fails there: the elements before it are in the list, and in diff mode the old items after them. |
| RealmModel.FindFrom | Example/Pods/Realm/include/object_accessor.hpp:335-351 | The lookup finds the first row with the key, and finds none only if there is none. |
| ObjectAccessor.Realm.Create | Example/Pods/Realm/include/object_accessor.hpp:191-306 | Leaves exactly the tables, result and write count of the create that the theorems are about. |
| ObjectAccessor.Realm.Populate | Example/Pods/Realm/include/object_accessor.hpp:274-298 | The loop over the persisted properties does, with the missing-value errors in the order of the source. |
| ObjectAccessor.Realm.SetNamedProperty | Example/Pods/Realm/include/object_accessor.hpp:45-57 | A named set never writes the primary key outside a migration, and otherwise overwrites. |
| ObjectAccessor.Realm.SetPropertyValue | Example/Pods/Realm/include/object_accessor.hpp:83-143 | Null, array and single-value branches with their comparisons in diff mode. |
| ObjectAccessor.Realm.UnboxItem | Example/Pods/Realm/include/impl/object_accessor_impl.hpp:179-191 | A managed row is taken as it is; anything else in a link is created or upserted with the current row. |
| ObjectAccessor.Realm.Assign | Example/Pods/Realm/include/list.hpp:249-282 | List assignment in both modes, including what is left after a failure. |
| ObjectAccessor.Realm.RemoveTail | Example/Pods/Realm/include/list.hpp:272-274 | Removes the slots that the input did not reach. |
| ObjectAccessor.Realm.Enumerate | Example/Pods/Realm/include/impl/object_accessor_impl.hpp:78-83 | Replaces the slots below the old size and adds the rest, stopping at the first failure. |
| ObjectAccessor.Realm.SetIfDifferent | Example/Pods/Realm/include/list.hpp:236-246 | Upserts against the current entry and sets the slot only if it names another item. |
| ObjectAccessor.Realm.Add | Example/Pods/Realm/include/list.hpp:193-197 | Appends the unboxed item. |
| ReadWriteLockModel.ReadWriteLock.Execute | Example/Pods/RxFoundation/RxFoundation/src/Atomic.cpp:82-132 | Executing a thread's next statement is the step of the state machine. |
| ReadWriteLockModel.Exclusion | Example/Pods/RxFoundation/RxFoundation/src/Atomic.cpp:82-132 | In every state of every run no unlock assertion has failed in any thread, a thread with the write lock excludes any other holder, and two threads are never both inside a critical section. |
| ReadWriteLockModel.ExactCounters | Example/Pods/RxFoundation/RxFoundation/src/Atomic.cpp:82-132 | The three counters are the numbers of threads with a read lock, with the write lock (at most one), and waiting to write. |
| ReadWriteLockModel.NoLostWakeup | Example/Pods/RxFoundation/RxFoundation/src/Atomic.cpp:84-122 | With the mutex free, a thread asleep and not notified still has a true wait condition. |
| ReadWriteLockModel.HolderReleases | Example/Pods/RxFoundation/RxFoundation/src/Atomic.cpp:82-132 | Whoever holds the mutex releases it within five of its own statements. |
| ReadWriteLockModel.NoStuckLock | Example/Pods/RxFoundation/RxFoundation/src/Atomic.cpp:82-116 | If nobody has the lock and a thread is inside lockRead or lockWrite, some awake thread gets its lock by going on alone. |
| ReadWriteLockModel.WriterPreference | Example/Pods/RxFoundation/RxFoundation/src/Atomic.cpp:82-116 | While a writer is between its increment of the pending count and its grant, the reader count only falls and whoever reads at the end has read all along. |
| ReadWriteLockModel.WindowCloses | Example/Pods/RxFoundation/RxFoundation/src/Atomic.cpp:108-116 | That window ends only with this writer's own grant. |
| ReadWriteLockMethods.TryReadAlone | Example/Pods/RxFoundation/RxFoundation/src/Atomic.cpp:99-106 | Alone with a free mutex, tryLockRead gives a read lock if nobody writes or waits to, and otherwise returns with nothing changed. |
| ReadWriteLockMethods.TryWriteAlone | Example/Pods/RxFoundation/RxFoundation/src/Atomic.cpp:125-132 | tryLockWrite gives the write lock if nobody reads or writes, and otherwise returns with nothing changed. |
| ReadWriteLockMethods.LockReadAlone | Example/Pods/RxFoundation/RxFoundation/src/Atomic.cpp:82-88 | lockRead gives a read lock, or sleeps with the counters unchanged. |
| ReadWriteLockMethods.LockWriteAlone | Example/Pods/RxFoundation/RxFoundation/src/Atomic.cpp:108-116 | lockWrite gives the write lock, or sleeps and is counted as pending. |
| ReadWriteLockMethods.LockWriteWoken | Example/Pods/RxFoundation/RxFoundation/src/Atomic.cpp:111-115 | After a wakeup it gives the write lock and is no longer pending, or sleeps again. |
| ReadWriteLockMethods.UnlockReadAlone | Example/Pods/RxFoundation/RxFoundation/src/Atomic.cpp:90-97 | unlockRead gives one read lock back and wakes all sleepers if it was the last, and otherwise none. |
| ReadWriteLockMethods.UnlockWriteAlone | Example/Pods/RxFoundation/RxFoundation/src/Atomic.cpp:118-123 | unlockWrite gives the write lock back and wakes all sleepers. |
| ReadWriteLockMethods.TryNeverSleeps | Example/Pods/RxFoundation/RxFoundation/src/Atomic.cpp:99-132 | In no run is a try method ever asleep. |
| ReadWriteLockMethods.TryDecides | Example/Pods/RxFoundation/RxFoundation/src/Atomic.cpp:99-132 | In any run a try method ends with the lock if and only if it was free when the method took the mutex, whatever other threads do meanwhile. |
| EventLoopDispatcherModel.ExactlyOnceInOrder | Example/Pods/Realm/include/util/event_loop_dispatcher.hpp:67-105 | In every state of every run the pushed calls are the delivered ones followed by the queued ones, and the pushed calls of each producer are its invocations in order, but for the one in flight. |
| EventLoopDispatcherModel.NeverStrandsWork | Example/Pods/Realm/include/util/event_loop_dispatcher.hpp:67-105 | A nonempty queue has its keep-alive signal set and a callback signalled, running, or about to be requested by a producer past its push. |
| EventLoopDispatcherModel.DirectCalls | Example/Pods/Realm/include/util/event_loop_dispatcher.hpp:94-97 | In every state of every run the calls made on the loop thread are exactly those moves' arguments in order, and the run without these moves is a run that ends in the same state but for them. |
| EventLoopDispatcherModel.DrainsAlone | Example/Pods/Realm/include/util/event_loop_dispatcher.hpp:67-76 | With the producers idle, the loop alone delivers everything pushed and comes to rest, in a number of statements that depends on the queue. |
| EventLoopDispatcherModel.CallbackAlone | Example/Pods/Realm/include/util/event_loop_dispatcher.hpp:67-76 | One run of the callback delivers the whole queue in order and drops the signal. |
| EventLoopDispatcherModel.CallIs | Example/Pods/Realm/include/util/event_loop_dispatcher.hpp:99-104 | A producer that runs alone from its call to its notify queues the call last, keeps the signal alive, notifies, and changes nothing else. |
| EventLoopDispatcherModel.EventLoopDispatcher.CallElsewhere | Example/Pods/Realm/include/util/event_loop_dispatcher.hpp:92-105 | A call on another thread is the invocation and the five producer steps of the state machine. |
| EventLoopDispatcherModel.EventLoopDispatcher.CallHere | Example/Pods/Realm/include/util/event_loop_dispatcher.hpp:94-97 | A call on the loop thread is the direct move of the state machine. |
| EventLoopDispatcherModel.EventLoopDispatcher.RunCallback | Example/Pods/Realm/include/util/event_loop_dispatcher.hpp:67-76 | The drain loop is the loop of the state machine running alone until it is idle, and delivers the whole queue in order. |
| DataCapacity.CapacityRegimes | Example/Pods/RxFoundation/RxFoundation/src/Data.cpp:44-59 | The rounded capacity is at least what was asked for up to the maximum size, and at most 4x, 2x or one chunk above it in the three regimes; below 2^32 it is a power of two. |
| DataCapacity.CapacityMonotone | Example/Pods/RxFoundation/RxFoundation/src/Data.cpp:44-59 | Rounding is monotone, also across the regimes. |
| DataCapacity.ExactCapacity | Example/Pods/RxFoundation/RxFoundation/src/Data.cpp:44-59 | The capacity is the least power of four above the request below 2^20, the least power of two below 2^32, and from there the least multiple of the chunk size, up to the maximum. |
| DataCapacity.AmortisedCost | Example/Pods/RxFoundation/RxFoundation/src/Data.cpp:197-214 | Any run of appends from 16 bytes to a length n below 2^32 moves fewer than 2n bytes in reallocations. |
| DataBuffer.ShiftedIsSplice | Example/Pods/RxFoundation/RxFoundation/src/Data.cpp:205-210 | Moving the tail and then writing the new bytes is the splice. |
| DataBuffer.AliasedSpliceIff | Example/Pods/RxFoundation/RxFoundation/src/Data.cpp:205-210 | Without growth, a source inside the buffer is spliced correctly for every content if and only if it does not reach into the place that the tail moves to. |
| DataBuffer.AliasedInsertGoesWrong | Example/Pods/RxFoundation/RxFoundation/src/Data.cpp:205-210 | Inserting the last two of four bytes after the first, with room to spare, gives a wrong result. |
| DataBuffer.Data.constructor | Example/Pods/RxFoundation/RxFoundation/src/Data.cpp:89-90 | An empty buffer with capacity 16. |
| DataBuffer.Data.From | Example/Pods/RxFoundation/RxFoundation/src/Data.cpp:92-111 | Wraps the caller's bytes, copies them, or allocates a cleared block of length zero. |
| DataBuffer.Data.Grow | Example/Pods/RxFoundation/RxFoundation/src/Data.cpp:279-311 | A fresh block of the rounded capacity that begins with the old one, exactly when the maximum size allows. |
| DataBuffer.Data.ReplaceBytes | Example/Pods/RxFoundation/RxFoundation/src/Data.cpp:182-215 | Succeeds exactly on valid ranges within the maximum size; the contents become the splice unless the source is inside a buffer that does not grow and reaches into the moved tail, and that case too is given byte for byte. |
| DataBuffer.Data.AppendData | Example/Pods/RxFoundation/RxFoundation/src/Data.cpp:170-172 | Appends the contents of any buffer, also of itself. |
| DataBuffer.Data.DeleteBytes | Example/Pods/RxFoundation/RxFoundation/src/Data.cpp:217-219 | Removes exactly a valid range. |
| KeyValueObserving.DidDelivers | Example/Pods/RxFoundation/RxFoundation/src/KeyValueObserverInterface.cpp:127-245 | A will/did pair terminates, leaves the registrations as they were, and tells the key's own observers and then those of affected keys, once a path, exactly the listed notices. |
| KeyValueObserving.AddedDelivers | Example/Pods/RxFoundation/RxFoundation/src/KeyValueObserverInterface.cpp:53-69 | Registration replaces an earlier one and appends the observer, which if it asked for it gets exactly one initial notice with the current value, last among those on its key. |
| KeyValueObserving.RunQuiescent | Example/Pods/RxFoundation/RxFoundation/src/KeyValueObserverInterface.cpp:53-245 | After any run of registrations, removals and changes no observer remembers a value and none still waits for its initial notice, if so at the start. |
| KeyValueHistories.ChangeHeard | Example/Pods/RxFoundation/RxFoundation/src/KeyValueObserverInterface.cpp:177-245 | What one change tells one listener: its own key once if the value differs from the old value it asked for, an affected key once for every path if the value is not nil. |
| KeyValueHistories.MoreThanOnceIff | Example/Pods/RxFoundation/RxFoundation/src/KeyValueObserverInterface.cpp:239-244 | A listener of an affected key is told more than once exactly when the key has a value and two different paths lead to it. |
| KeyValueHistories.AtMostOnceIff | Example/Pods/RxFoundation/RxFoundation/src/KeyValueObserverInterface.cpp:239-244 | Every change notifies a listener of an affected key at most once, if and only if no two paths lead to the key. |
| KeyValueHistories.DiamondNotifiesTwice | Example/Pods/RxFoundation/RxFoundation/src/KeyValueObserverInterface.cpp:239-244 | It happens in a diamond of four keys. |
| KeyValueHistories.RunHeard | Example/Pods/RxFoundation/RxFoundation/src/KeyValueObserverInterface.cpp:53-245 | In any run of registrations, removals and changes of any keys, a listener hears the notices of the single operations, one after another. |
| KeyValueHistories.StepHeard | Example/Pods/RxFoundation/RxFoundation/src/KeyValueObserverInterface.cpp:53-245 | What one operation, on any key, tells one listener: how often it is told the value of its key. |
| KeyValueHistories.HistoryHeard | Example/Pods/RxFoundation/RxFoundation/src/KeyValueObserverInterface.cpp:53-245 | In any run in which the key's value changes only when the key or one it depends on does, a listener hears the key's history without repeats if and only if every single operation tells it neither too much nor too little. |
| KeyValueHistories.FaithfulIff | Example/Pods/RxFoundation/RxFoundation/src/KeyValueObserverInterface.cpp:53-245 | A listener hears the history of its key without repeats in every such run, if and only if it asked for old values and no other key leads to its key. |
| KeyValueRegistration.AddedListens | Example/Pods/RxFoundation/RxFoundation/src/KeyValueObserverInterface.cpp:53-69 | A registration for new values, or without an initial notice, makes a listener with the flags that were asked for, which hears the current value at once if it asked to. |
| KeyValueRegistration.RegisteredHears | Example/Pods/RxFoundation/RxFoundation/src/KeyValueObserverInterface.cpp:53-245 | What an observer hears in a run that begins with its registration: the initial value if asked for, and then the notices of the operations. |
| KeyValueRegistration.RegisteredFaithfulIff | Example/Pods/RxFoundation/RxFoundation/src/KeyValueObserverInterface.cpp:53-245 | After registering, an observer hears the key's history without repeats in every run, if and only if it registered for old values and the key depends on no other. |
| KeyValueRegistration.RemovedDrops | Example/Pods/RxFoundation/RxFoundation/src/KeyValueObserverInterface.cpp:71-90 | Removal drops the first registration of the observer that asked for something, keeps the others in order, and forgets a key with its last one. |
| KeyValueRegistration.RunOrderly | Example/Pods/RxFoundation/RxFoundation/src/KeyValueObserverInterface.cpp:53-90 | In any run from nothing whose registrations ask for something, an observer has at most one registration on a key. |
| KeyValueRegistration.RemovedHearsNothing | Example/Pods/RxFoundation/RxFoundation/src/KeyValueObserverInterface.cpp:71-90 | A removed observer hears nothing more of the key in any run in which it does not register again. |
| KeyValueObserving.KeyValueObserver.WillChange | Example/Pods/RxFoundation/RxFoundation/src/KeyValueObserverInterface.cpp:127-146 | Records the current value as old value for the observers that asked for it. |
| KeyValueObserving.KeyValueObserver.NotifyObserver | Example/Pods/RxFoundation/RxFoundation/src/KeyValueObserverInterface.cpp:190-235 | What one observer is sent, and the record that it keeps. |
| KeyValueObserving.KeyValueObserver.NotifyObservers | Example/Pods/RxFoundation/RxFoundation/src/KeyValueObserverInterface.cpp:186-237 | The loop over a key's observers, in registration order. |
| KeyValueObserving.KeyValueObserver.DidChange | Example/Pods/RxFoundation/RxFoundation/src/KeyValueObserverInterface.cpp:177-245 | The recursion through affected keys sends exactly the notices that the lemmas are about. |
| KeyValueObserving.KeyValueObserver.RemoveObserver | Example/Pods/RxFoundation/RxFoundation/src/KeyValueObserverInterface.cpp:71-90 | Removes the first matching registration, and the key with its last one. |
| KeyValueObserving.KeyValueObserver.AddObserver | Example/Pods/RxFoundation/RxFoundation/src/KeyValueObserverInterface.cpp:53-69 | Replaces an earlier registration, registers, and sends the notices of AddedDelivers. |
| KeyValueObserving.KeyValueObserver.ChangeValues | Example/Pods/RxFoundation/RxFoundation/src/KeyValueObserverInterface.cpp:123-150 | A caller's change between willChange and didChange. |
| IndexSetIteration.RangeIterator.Begin | Example/Pods/Realm/include/index_set.hpp:108 | Stands at the first range of all chunks. |
| IndexSetIteration.RangeIterator.End | Example/Pods/Realm/include/index_set.hpp:109 | Stands behind the last range. |
| IndexSetIteration.RangeIterator.Current | Example/Pods/Realm/include/index_set.hpp:47 | Gives the range of the flat sequence at the iterator's place. |
| IndexSetIteration.RangeIterator.Next | Example/Pods/Realm/include/index_set.hpp:277-284 | Moves one place on in the flat sequence, over chunk borders. |
| IndexSetIteration.RangeIterator.NextChunk | Example/Pods/Realm/include/index_set.hpp:315-320 | Moves to the first range of the next chunk, or to the end. |
| IndexSetIteration.RangeIterator.Previous | Example/Pods/Realm/include/index_set.hpp:294-305 | Moves one place back, also from the end. |
| IndexSetIteration.OnePosition | Example/Pods/Realm/include/index_set.hpp:263-267 | Two iterators at the same place of the flat sequence are equal. |
| IndexSetIteration.NextThenPrevious | Example/Pods/Realm/include/index_set.hpp:277-305 | Moving back undoes moving on. |
| IndexSetIteration.VisitRanges | Example/Pods/Realm/include/index_set.hpp:108-109 | From begin to end the ranges come in the order of the flat sequence. |
| IndexSetIteration.IndicesAreTheSet | Example/Pods/Realm/include/index_set.hpp:192-219 | The indices of sorted, disjoint ranges are exactly the contained ones, strictly increasing. |
| IndexSetIteration.IndexIterator.Next | Example/Pods/Realm/include/index_set.hpp:199-207 | Yields exactly one more index. |
| IndexSetIteration.VisitIndices | Example/Pods/Realm/include/index_set.hpp:227-228 | From begin to end every index of the set comes once, in order, and the iteration terminates. |
| TimestampConversion.ForDate | Example/Pods/Realm/include/RLMUtil.hpp:144-167 | The stepwise conversion gives the timestamp of the truncated nanoseconds, with no overflow of the 64-bit and 32-bit casts and additions. |
| TimestampConversion.TimestampOf | Example/Pods/Realm/include/RLMUtil.hpp:144-167 | The result never has opposite signs, and unless clamped stands for the nanoseconds of the date truncated towards 2001. |
| TimestampConversion.TimestampRoundTrip | Example/Pods/Realm/include/RLMUtil.hpp:137-167 | Timestamp to date to timestamp is the identity exactly on null, on the two extremes, and between the two clamping bounds. |
| TimestampConversion.DateRoundTrip | Example/Pods/Realm/include/RLMUtil.hpp:137-167 | Date to timestamp to date loses less than a nanosecond, towards 2001, unless clamped. |
| TimestampConversion.ConversionIsMonotone | Example/Pods/Realm/include/RLMUtil.hpp:144-167 | Conversion keeps the order of dates, clamped or not. |
| TimestampConversion.ReferenceDate | Example/Pods/Realm/include/RLMUtil.hpp:137-167 | The offset is 31 years with eight leap days, and the reference date and 1970 convert to each other's numbers. |
| TimestampConversion.ClampedToExtremes | Example/Pods/Realm/include/RLMUtil.hpp:148-155 | Clamped dates become the last and the first of all valid timestamps, and what is not a number the start of 1970. |
| ElfHash.ElfStep | Example/Pods/RxFoundation/RxFoundation/src/HashableInterface.cpp:13 | The macro is one step of the ELF hash with 32-bit wrap-around. |
| ElfHash.StepMasked | Example/Pods/RxFoundation/RxFoundation/src/HashableInterface.cpp:13 | The branch on the top nibble amounts to masking with constants. |
| ElfHash.TopNibbleIsZero | Example/Pods/RxFoundation/RxFoundation/src/HashableInterface.cpp:15-34 | The four top bits of a hash are zero. |
| ElfHash.ShortHash | Example/Pods/RxFoundation/RxFoundation/src/HashableInterface.cpp:15-34 | Up to five bytes hash to the number that they write to base 16. |
| ElfHash.PrintfHash | Example/Pods/RxFoundation/RxFoundation/src/HashableInterface.cpp:15-34 | The hash of "printf" is 0x077905A6. |
| ElfHash.UnrolledHash | Example/Pods/RxFoundation/RxFoundation/src/HashableInterface.cpp:15-34 | Four bytes a turn and the fall-through tail give the hash of the bytes taken one at a time. |

## Left out

- Sync branches, partial-sync roles, permissions, notifications and the KVO hooks of the accessor; `CppContext` leaves the hooks empty.
- Arrays of optional elements, linking objects, `Mixed`, and NaN in float properties.
- A null given for a required property or list element by a set is a failing cast here; for strings and data the source gets as far as the storage core before it is refused.
- A managed row given to a link is checked by its index only, as in the source, while a list also compares tables; the storage core's refusal of rows that do not exist is the error `InvalidRow`.
- Deletion of rows: a row index identifies a row for good, so invalidated accessors do not occur.
- UpsertLimits.UnkeyedModesDiffer: does not compare the tables of the two modes up to renaming of rows.
- UpsertLists.AssignIsInput: excludes diff mode with types without a key and the plain create in a migration, like UpsertReadsBack; lists of scalars in any mode are in ListAssign.
- UpsertTheorems.UpsertReadsBack: excludes diff mode with types without a key, where it is false (ReusedRowReadsBackWrong), and the plain create in a migration, which makes a second row with an old key (MigrationDuplicatesKeys).
- UpsertTheorems.DiffRefinesFull: compares the tables of successful calls only, because after a failure full mode has already cleared lists that diff mode has not.
- The lock's threads follow its discipline: they unlock only what they hold and do not lock again while they hold it. Counter overflow, destruction, pthread error codes, `isReading`, `isWriting`, `SpinLock` and `Semaphore` are not part of this model.
- ReadWriteLockModel.ReadWriteLock.Execute: calls into the lock and spurious wakeups are moves of the state machine only.
- The dispatcher's platform signal, exceptions from the callback, and object lifetimes while the signal is dropped.
- EventLoopDispatcherModel.EventLoopDispatcher.RunCallback: runs without interruption, like the other methods of the class; the interleavings are in the state machine.
- `Data`: copy and move constructors, `setLength`, the deallocation flag, description and file output, the 32-bit constants, and failing allocation. A halt is the result false with nothing changed, and the bytes that a reallocation adds are arbitrary.
- KeyValueObserving.KeyValueObserver.AddObserver: excludes replacing the only registration on a key, because the source then goes on through an iterator of the map entry that it has just erased.
- Observing: observers that change the registry or the values when notified, cyclic dependencies, the histories of observers that asked for an initial notice but not for new values, contexts and locks.
- `IndexSet` operations other than iteration, whose bodies are not in the repository.
- Rounding of doubles in the date conversion.
- `IdGenerator`, `ProcessorInfo`, `CallStackArray`, `ObjectMeta`, `Port` and the Objective-C interfaces.
