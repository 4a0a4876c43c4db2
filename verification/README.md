# Hirpdag: a verified model

Hirpdag is a hash-consing runtime. Immutable nodes are interned through tables of weak
references, reference counted, numbered in the order of their creation, rewritten, and
written to archives as DAGs. This project models those parts in Dafny and proves what users
of the runtime rely on.

* **Reference counting** (`Deferred.dfy`, `RefProtocol.dfy`, `RefSafety.dfy`,
  `RefTheorems.dfy`, `RefEffects.dfy`, `SlotPool.dfy`). One machine of atomic steps, for any
  number of threads that clone, drop, downgrade, upgrade, hand handles around and exit in any
  order. A thread with a buffer defers its decrements (`RefTlc`); without one it works on the
  shared counters (`RefTlc` during thread exit, `RefSepGeneric` always). Addresses are used
  again after they are freed. Faults are explicit outcomes and proved unreachable.
* **Interning tables** (`World.dfy`, `RefWorld.dfy`, `VecTables.dfy`, `HashTables.dfy`,
  `ShardRuns.dfy`). The vector tables, the hash map with a fallback and the eight shards are
  classes working on a world of nodes in which an adversary creates nodes and lets any node
  die that nobody holds, before every operation on a reference. All meet one specification: a
  partial map from values to live nodes. The hash function is arbitrary. The counting machine
  is shown to be such a world, and calls on different shards may overlap.
* **Tables read without a lock** (`ConcurrentTables.dfy`, `ConcurrentCalls.dfy`). Copy-and-store
  and build-then-try-insert as step machines that refine one atomic map, what their callers
  get, and that they get it.
* **Nodes and trees** (`Fields.dfy`, `Meta.dfy`, `Dag.dfy`, `DagTheorems.dfy`, `DagRuns.dfy`).
  Struct fields are a nested datatype of numbers, strings, references, options, vectors and
  enums. The heap of nodes is a machine again: lookup, `creation_meta`, allocation, publishing,
  cloning, dropping and dying. That the tables answer lookups correctly, and that a parent
  keeps its children alive, are properties of the parts above. A node's meaning is the tree it
  unfolds to.
* **Archives** (`Collect.dfy`, `Archive.dfy`, `Decode.dfy`, `RoundTrip.dfy`, `Header.dfy`). The
  collect walk, writing, the re-interning single-pass reader, round trips and canonicity; and
  the header in front of binary archives.
* **Rewriting** (`Rewrite.dfy`). `default_rewrite` with its shortcut against rewriting of
  trees, and the substitution lemma.

`dafny verify dfyconfig.toml` checks everything.

## Where code and documentation differ

The model follows the code.

* `hirpdag_hashconsing/src/table.rs:95` promises that `creation_meta` runs exactly once if an
  entry is inserted. The optimistic table can run it twice for one entry
  (`ConcurrentTables.RunsTwice`). `ConcurrentTables.RunsOnce` says exactly when it does not, and
  `ConcurrentTables.RunsOnceWithoutOverlap` what callers can do about it.
* `hirpdag/src/base/meta.rs:5` calls height the distance to the deepest leaf. It is one more: a
  leaf has height 1 (`Metadata.HeightAndDeepestLeaf`).
* `hirpdag_hashconsing/src/table/vec_linear_threadunsafe.rs:8-9` speaks of evicting dead
  entries; no code does. The memory bound is proved for the hash map only.
* `hirpdag_flags` can be overridden in principle, but the generated code never does. The model
  lets it be any function of a struct without its references.

## Model

| member | source | states |
|---|---|---|
| Deferred.DeferredDecs.TakePending | hirpdag_hashconsing/src/reference/tlc.rs:88-91 | empties the map and hands out every entry exactly once, in some order nobody chooses |
| Deferred.DeferredDecs.Defer | hirpdag_hashconsing/src/reference/tlc.rs:95-110 | buffers one decrement, keeps the release function first stored for the address, hands nothing out exactly as long as fewer than 4096 operations and fewer than 1024 objects result, drains otherwise, and leaves the retention bound intact |
| Deferred.DeferredDecs.Consume | hirpdag_hashconsing/src/reference/tlc.rs:114-124 | cancels one buffered decrement if there is one, forgetting the address with the last, and says whether it did |
| Deferred.CountedExactly | hirpdag_hashconsing/src/reference/tlc.rs:100-105 | a buffered drop adds one decrement at its address and nothing anywhere else, counts as one operation, and is one too many exactly at 4096 operations or 1024 objects |
| Deferred.ConsumedExactly | hirpdag_hashconsing/src/reference/tlc.rs:115-119 | a cancelled one takes one away at its address and nothing anywhere else, and does not give the operation back |
| Deferred.DrainKeepsAmounts | hirpdag_hashconsing/src/reference/tlc.rs:88-91 | draining moves every buffered decrement of every address into the list: none lost, none doubled, whatever the order |
| Deferred.CountedBounded | hirpdag_hashconsing/src/reference/tlc.rs:100-109 | the retention bound survives every buffered drop: counts sum to at most the operations since the flush, fewer than 4096, over fewer than 1024 objects |
| Deferred.ConsumedBounded | hirpdag_hashconsing/src/reference/tlc.rs:114-124 | and every cancelled one |
| RefSafety.CloneGood | hirpdag_hashconsing/src/reference/tlc.rs:225-234 | cloning, by cancelling a buffered decrement or by counting up, never touches freed memory and keeps all conservation laws; what it hands out is in `RefEffects.ActionsMoveHandles` |
| RefSafety.DropStep | hirpdag_hashconsing/src/reference/tlc.rs:197-203 | dropping a handle trades it for a deferred or drained decrement, flush and all, and keeps the laws |
| RefSafety.ConsumeStep | hirpdag_hashconsing/src/reference/tlc.rs:154-160 | taking over a buffered decrement keeps the laws |
| RefSafety.BufferedMeansIntact | hirpdag_hashconsing/src/reference/tlc.rs:272-277 | a decrement buffered on a thread proves the object at that address alive |
| RefSafety.ApplyStep | hirpdag_hashconsing/src/reference/tlc.rs:52-59 | applying a drained decrement finds the object still there, of the type whose release function was stored, with a large enough count; only the thread that takes the count to zero gets to drop the data |
| RefSafety.KidStep | hirpdag_hashconsing/src/reference/tlc.rs:60-60 | dropping the next field of dropped data, re-entering the map, keeps the laws |
| RefSafety.WeakStep | hirpdag_hashconsing/src/reference/tlc.rs:254-264 | giving up a weak count never touches freed memory and keeps the laws |
| RefSafety.ExitStep | hirpdag_hashconsing/src/reference/tlc.rs:136-143 | the flush at thread exit keeps the laws, with drops after it going to the shared counters |
| RefSafety.BeginUpgradeStep | hirpdag_hashconsing/src/reference/tlc.rs:270-283 | the first step of an upgrade, by a buffered decrement or by loading the count, never touches freed memory and keeps the laws |
| RefSafety.UpgradeWins | hirpdag_hashconsing/src/reference/tlc.rs:284-290 | the compare-exchange of an upgrade, however long it stalled, keeps the laws when it succeeds; when it does succeed is in `RefEffects.ExchangeSucceeds` |
| RefSafety.UpgradeFails | hirpdag_hashconsing/src/reference/tlc.rs:280-292 | a failed, or spuriously failed, compare-exchange never touches freed memory and keeps the laws |
| RefSafety.StepSafe | hirpdag_hashconsing/src/reference/tlc.rs:197-302 | no step of any thread, from any state that satisfies the laws, faults (freed memory, double drop, double free, wrong type, negative count), and the laws hold after it |
| RefSafety.RunSafe | hirpdag_hashconsing/src/reference/tlc.rs:49-51 | so no interleaving of any number of threads ever faults |
| RefTheorems.Conservation | hirpdag_hashconsing/src/reference/tlc.rs:52-71 | in every reachable state the shared strong count is the live handles, including those in data not yet dropped, plus decrements deferred or drained; the weak count is the weak handles plus one until the strong side has given up its share; every strong handle refers to data that is there; buffers are within bounds |
| RefTheorems.StepLivesOn | hirpdag_hashconsing/src/reference/tlc.rs:54-69 | an object is created, dropped and freed in that order, dropped only when no strong handle is left, freed only when no handle is left, and a count that is zero stays zero |
| RefTheorems.BeginAnswers | hirpdag_hashconsing/src/reference/tlc.rs:270-283 | the first step of an upgrade, if it ends it, gives a handle if and only if the data is alive at that moment; else it changes no counter |
| RefTheorems.LoopAnswers | hirpdag_hashconsing/src/reference/tlc.rs:280-293 | whenever a turn of the compare-exchange loop ends the upgrade, however long the thread stalled before it, it gives a handle if and only if the data is alive at that moment; that turns do end it is in `RefEffects.UpgradeEndsInTwo` |
| RefTheorems.EnteredOnce | hirpdag_hashconsing/src/reference/tlc.rs:60-68 | along any run data is dropped at most once and memory freed at most once, and as often as the final state shows |
| RefTheorems.DeadStaysDead | hirpdag_hashconsing/src/reference.rs:31-34 | once no strong handle and no deferred decrement keeps an object, nothing ever brings it back |
| RefTheorems.TickProgress | hirpdag_hashconsing/src/reference/tlc.rs:127-143 | every step of a drop in progress decreases: first objects not yet dropped, then work listed |
| RefTheorems.Settle | hirpdag_hashconsing/src/reference/tlc.rs:84-87 | a flush whose drops re-enter the map ends, for any order the maps drain in, and leaves the laws intact |
| RefTheorems.NothingLeaks | hirpdag_hashconsing/src/reference/tlc.rs:136-143 | once all maps are flushed and no thread holds a strong handle, every object has been dropped, and it is freed exactly if no weak handle is left |
| RefEffects.ActionsMoveHandles | hirpdag_hashconsing/src/reference/tlc.rs:197-302 | every action of the machine gives and takes exactly the handles it is meant to, strong and weak: a clone is one more handle of the acting thread, a drop one less, a hand-over one from here to there, an upgrade that succeeds one strong handle; no other thread gains or loses any |
| RefEffects.NewObjectHoldsItsFields | hirpdag_hashconsing/src/reference/tlc.rs:209-219 | a new object has both counts at one and the handles that went into it; no other object changes |
| RefEffects.HandlesAreConserved | hirpdag_hashconsing/src/reference/tlc.rs:197-302 | strong handles, in threads, in data and in data being dropped, are made by creating, cloning and upgrading and ended by dropping, one at a time, and by nothing else |
| RefEffects.CancelsBeforeCounting | hirpdag_hashconsing/src/reference/tlc.rs:225-234 | a clone, or the first step of an upgrade, takes over a buffered decrement of its thread whenever there is one, and then touches no shared counter; a clone counts up otherwise |
| RefEffects.DropOwesOne | hirpdag_hashconsing/src/reference/tlc.rs:197-203 | a dropped handle becomes exactly one decrement owed by the thread, of that address, and touches no shared counter; below the limits 4096 and 1024 nothing is drained |
| RefEffects.ExitFlushes | hirpdag_hashconsing/src/reference/tlc.rs:136-143 | after its exit step a thread has no buffer, and its stack owes all that the buffer owed |
| RefEffects.ExchangeSucceeds | hirpdag_hashconsing/src/reference/tlc.rs:284-290 | an exchange that finds the count it loaded and does not fail spuriously ends the upgrade with one more handle and one more count |
| RefEffects.UpgradeEndsInTwo | hirpdag_hashconsing/src/reference/tlc.rs:279-293 | an upgrade that nobody disturbs is over after at most two turns of the loop, with a handle exactly if the data is alive |
| RefEffects.TickIsPossible | hirpdag_hashconsing/src/reference/tlc.rs:127-134 | a thread inside a drop or an upgrade can always take its next step |
| RefEffects.HandlesAreUsable | hirpdag_hashconsing/src/reference/tlc.rs:197-234 | a thread that is inside nothing can clone, downgrade, drop, hand over and store what it holds, and exit |
| RefEffects.WeakHandlesAreUsable | hirpdag_hashconsing/src/reference/tlc.rs:252-294 | and upgrade, drop and hand over weak handles |
| SlotPool.RefilledCovers | hirpdag_hashconsing/src/reference/sepcount.rs:86-92 | a pool is refilled exactly when all its slots are in use, with slots nobody has |
| SlotPool.AllocatedCovers | hirpdag_hashconsing/src/reference/sepcount.rs:84-98 | a slot handed out was free, and all slots remain either free once or in use |
| SlotPool.ReleasedCovers | hirpdag_hashconsing/src/reference/sepcount.rs:100-103 | a slot put back is free once |
| SlotPool.ReleasedIsNext | hirpdag_hashconsing/src/reference/sepcount.rs:84-103 | the slot put back last is the one handed out next |
| SlotPool.SlotPool.Alloc | hirpdag_hashconsing/src/reference/sepcount.rs:84-98 | refills an empty free list with a whole chunk and hands out the slot at its end |
| SlotPool.SlotPool.Free | hirpdag_hashconsing/src/reference/sepcount.rs:100-103 | puts the slot at the end of the free list |
| SepProtocol.CreateSafe | hirpdag_hashconsing/src/reference/sepcount.rs:246-253 | creating an object never gets a slot that any object still uses |
| SepProtocol.CoreSafe | hirpdag_hashconsing/src/reference/sepcount.rs:226-316 | every other step keeps the counting laws and returns a slot to the pool exactly when its object is freed |
| SepProtocol.SlotsNeverAlias | hirpdag_hashconsing/src/reference/sepcount.rs:84-103 | in every run: the counters are exact and handles valid; free slots and slots in use add up to all slots, no more chunks than the peak made necessary; no two objects share a slot; and a slot that any handle, any decrement not yet made, any drop under way or any stalled upgrade still names is in use and not free |
| SepProtocol.StepReturns | hirpdag_hashconsing/src/reference/sepcount.rs:226-239 | a step puts a slot back exactly when it frees the object the slot belongs to |
| SepProtocol.StepsArePossible | hirpdag_hashconsing/src/reference/sepcount.rs:226-316 | the pool takes no step away: whatever the counting machine can do, threads with pooled counters can |
| SepProtocol.PeakIsAttained | hirpdag_hashconsing/src/reference/sepcount.rs:84-98 | the peak that bounds the pool is the most slots that were really in use at once |
| SepProtocol.ProjectedRun | hirpdag_hashconsing/src/reference/sepcount.rs:112-184 | every run with pooled counters is a run of the counting machine, so what is proved of that holds here |
| SepProtocol.ReturnedOnce | hirpdag_hashconsing/src/reference/sepcount.rs:226-291 | over any run the data of an object is dropped at most once, and its slot goes back to the pool at most once, and as often as the object is freed in the end |
| World.World.Upgrade | hirpdag_hashconsing/src/reference.rs:31-34 | a strong handle if and only if the node is not dead at that moment, whatever has died since |
| World.World.Create | hirpdag_hashconsing/src/table.rs:93-95 | a fresh node with this data, held by the caller, after one run of creation_meta |
| RefWorld.StepIsWorldMove | hirpdag_hashconsing/src/reference.rs:23-37 | every step of the counting machine is a legal move of the world the tables work in, a node being dead when its strong count is zero: dead stays dead, nothing held is dead, nodes keep their data |
| RefWorld.RunIsWorldMove | hirpdag_hashconsing/src/reference.rs:23-37 | and so is every run |
| RefWorld.UpgradeIsWorldUpgrade | hirpdag_hashconsing/src/reference.rs:31-34 | the step that ends an upgrade in the machine answers what an upgrade answers in that world |
| TableSpec.LiveNodeIs | hirpdag_hashconsing/src/table.rs:12-15 | the specification map is single valued: a live node is what its value is mapped to |
| TableSpec.FoundInterned | hirpdag_hashconsing/src/table.rs:17-21 | finding a live node and forgetting only dead ones meets the specification of get_or_insert |
| TableSpec.FreshInterned | hirpdag_hashconsing/src/table.rs:17-21 | so does adding a fresh node when every node of that value is dead |
| VecTables.GetData | hirpdag_hashconsing/src/table/weak_entry.rs:33-40 | upgrades an entry and keeps the handle exactly if the data is equal |
| VecTables.TableVecLinear.Get | hirpdag_hashconsing/src/table/vec_linear_threadunsafe.rs:31-34 | finds the live node of a value if and only if there is one, under collisions and deaths between looks |
| VecTables.TableVecLinear.GetOrInsert | hirpdag_hashconsing/src/table/vec_linear_threadunsafe.rs:36-51 | returns the live node, or one fresh node with creation_meta run once; no other value is affected |
| VecTables.BinarySearch | hirpdag_hashconsing/src/table/vec_sorted_threadunsafe.rs:78-81 | some index with this hash, if there is one, else where it belongs |
| VecTables.TableVecSorted.LinearSearch | hirpdag_hashconsing/src/table/vec_sorted_threadunsafe.rs:28-47 | one direction of the scan: nothing alive with this data is left behind in the run of equal hashes |
| VecTables.TableVecSorted.LinearSearchAround | hirpdag_hashconsing/src/table/vec_sorted_threadunsafe.rs:48-58 | from any index of the run the two-way scan finds the live node if and only if one exists anywhere in the vector |
| VecTables.TableVecSorted.Get | hirpdag_hashconsing/src/table/vec_sorted_threadunsafe.rs:78-88 | the same answer as the linear table |
| VecTables.TableVecSorted.GetOrInsert | hirpdag_hashconsing/src/table/vec_sorted_threadunsafe.rs:90-114 | the same contract as the linear table, and the vector stays sorted |
| VecTables.SortedInsert | hirpdag_hashconsing/src/table/vec_sorted_threadunsafe.rs:95-111 | inserting where the search pointed, hit or miss, keeps the order and loses no entry |
| HashTables.TableHashmapFallback.ProbeSlot | hirpdag_hashconsing/src/table/hashmap_fallback_threadunsafe.rs:71-85 | finds the node, or that the slot is free or dead, or that it holds another value |
| HashTables.TableHashmapFallback.Get | hirpdag_hashconsing/src/table/hashmap_fallback_threadunsafe.rs:55-64 | finds the live node wherever it is, map or fallback, if and only if there is one |
| HashTables.TableHashmapFallback.GetOrInsert | hirpdag_hashconsing/src/table/hashmap_fallback_threadunsafe.rs:66-114 | meets the specification across map and fallback together: never two live entries of a value, a fresh node with creation_meta run once only if none was alive |
| HashTables.TableHashmapFallback.Purge | hirpdag_hashconsing/src/table/hashmap_fallback_threadunsafe.rs:97-97 | drops only dead entries, and every entry that was dead when it began |
| HashTables.TableHashmapFallback.PurgeIfDue | hirpdag_hashconsing/src/table/hashmap_fallback_threadunsafe.rs:96-99 | keeps the length below the limit, which is 64 or twice what the purge kept; over all purges the limit is at most twice the most ever kept, and entries looked at stay within twice the insertions |
| HashTables.TableHashmapFallback.SetSlot | hirpdag_hashconsing/src/table/hashmap_fallback_threadunsafe.rs:100-109 | the assertion on the replaced slot never fires; the map grows by at most this entry |
| HashTables.MapThenFallback | hirpdag_hashconsing/src/table/hashmap_fallback_threadunsafe.rs:55-64 | one look at the map slot and one at the fallback see everything that is alive |
| HashTables.ShardOf | hirpdag_hashconsing/src/table/shared_sharded.rs:36-40 | the shard is given by the low three bits of the hash |
| HashTables.FallbackPlaced | hirpdag_hashconsing/src/table/hashmap_fallback_threadunsafe.rs:111-113 | when another value has the slot, interning in the fallback is interning in the table |
| HashTables.PlacedInterned | hirpdag_hashconsing/src/table/hashmap_fallback_threadunsafe.rs:93-110 | writing a fresh node into its slot is interning in the table, although purged entries are gone |
| HashTables.ShardLive | hirpdag_hashconsing/src/table/shared_sharded.rs:36-64 | looking into the shard of the hash is looking into the whole table |
| HashTables.ShardInterned | hirpdag_hashconsing/src/table/shared_sharded.rs:66-75 | interning in one shard is interning in the whole table |
| HashTables.TableSharedSharded.Get | hirpdag_hashconsing/src/table/shared_sharded.rs:58-64 | eight shards answer as one table, the other shards being at rest |
| HashTables.TableSharedSharded.GetOrInsert | hirpdag_hashconsing/src/table/shared_sharded.rs:66-75 | eight shards intern as one table, the other shards being at rest |
| ShardRuns.UnderLock | hirpdag_hashconsing/src/table/shared_sharded.rs:61-74 | a call under the lock of its shard does what the machine of overlapping calls allows it to do |
| ShardRuns.CallsAreAtomic | hirpdag_hashconsing/src/table/shared_sharded.rs:58-75 | whatever calls on other shards are in the middle of, a call takes effect on the whole table in one step, as one table would |
| ShardRuns.CallGoesThrough | hirpdag_hashconsing/src/table/shared_sharded.rs:66-75 | a call that finds the lock of its shard free gets it, does its work, frees it and returns the result, whatever locks other calls hold |
| ShardRuns.TimePasses | hirpdag_hashconsing/src/table/shared_sharded.rs:15-27 | meanwhile nodes come and go as they please |
| ShardRuns.EightLocksOneTable | hirpdag_hashconsing/src/table/shared_sharded.rs:15-27 | in every state of overlapping calls: at most one live node per value in all shards together, one call inside each shard, and callers with equal data have the same node as long as it is alive |
| ConcurrentTables.StepRefines | hirpdag_hashconsing/src/table/arcswap_strong.rs:71-97 | every step of a thread is nothing to the atomic map or exactly one of its operations: at a lookup, a re-check that hits, a store or a try_insert; what callers then get is in `ConcurrentCalls.GetAnswers` and `ConcurrentCalls.InternAnswers` |
| ConcurrentTables.RunRefines | hirpdag_hashconsing/src/table/arcswap_strong.rs:71-97 | so every run of any number of threads is a run of the atomic map, in the order the operations took effect |
| ConcurrentTables.SpecRunGrows | hirpdag_hashconsing/src/table.rs:90-98 | in the atomic map what is interned stays, under the same reference, one reference per value |
| ConcurrentTables.NothingLost | hirpdag_hashconsing/src/table/arcswap_strong.rs:5-8 | no insert is lost or replaced by a later writer, all callers with equal data get the same reference, and no creation ID is given twice, discarded nodes included |
| ConcurrentTables.RunsOnce | hirpdag_hashconsing/src/table/flurry_strong.rs:94-112 | creation_meta runs once per inserted value in the copying table; in the optimistic one if and only if no two calls looked the value up in vain at the same time |
| ConcurrentTables.RunsOnceWithoutOverlap | hirpdag_hashconsing/src/table.rs:95-95 | if calls for a value never overlap, creation_meta runs exactly once for it when it is inserted, in either table |
| ConcurrentTables.RunsTwice | hirpdag_hashconsing/src/table/flurry_strong.rs:102-111 | the promise of one run is broken by two threads taking turns: one entry, two runs, one node thrown away |
| ConcurrentCalls.ActionsAreLocal | hirpdag_hashconsing/src/table/arcswap_strong.rs:71-97 | calls start and return as asked, a step moves no thread but its own, and no entry is ever removed or replaced |
| ConcurrentCalls.GetAnswers | hirpdag_hashconsing/src/table/arcswap_strong.rs:71-73 | in every run a get that began when the value was in the map returns the reference in the map; None means the value was not there when it began, and a reference that it is there with this reference at the end |
| ConcurrentCalls.InternAnswers | hirpdag_hashconsing/src/table/arcswap_strong.rs:75-97 | in every run get_or_insert returns the reference that the map has from then on, which is the one it had when there was one |
| ConcurrentCalls.CallEndsInSeven | hirpdag_hashconsing/src/table/arcswap_strong.rs:79-96 | a call that has the lock of the writers, or finds it free, ends within seven steps of its own, in either table |
| ConcurrentCalls.GetNeverWaits | hirpdag_hashconsing/src/table/flurry_strong.rs:89-92 | a get ends with its one step, whoever has the lock, and changes nothing |
| ConcurrentCalls.LockComesFree | hirpdag_hashconsing/src/table/arcswap_strong.rs:85-96 | the writer that has the lock gives it back within five steps of its own |
| ConcurrentCalls.CallsArePossible | hirpdag_hashconsing/src/table/arcswap_strong.rs:71-78 | a thread outside of calls can start any call, and one that is done can return |
| Fields.ShapesRefs | hirpdag_derive/src/lib.rs:517-522 | shape and references together determine the fields |
| Fields.SameStruct | hirpdag/src/base/reference.rs:176-183 | structs compare equal exactly if their shapes are equal and their references are the same pointers |
| Graph.UnfoldPrefix | hirpdag/src/base/reference.rs:141-152 | what a node unfolds to never changes as nodes are added |
| Graph.UnfoldInjective | hirpdag/src/base/reference.rs:70-78 | if no two entries hold the same shallow value, no two unfold to the same tree |
| Metadata.FoldClamps | hirpdag/src/base/meta.rs:63-72 | merging clamped metadata is clamping the merged; that merging sums counts, and what is counted, is in `Metadata.CountIsPositions` |
| Metadata.FieldMetaClamps | hirpdag/src/base/meta.rs:107-141 | however fields nest, their metadata is the clamped exact sum, maximum and union over the references in them |
| Metadata.SumClamps | hirpdag/src/base/meta.rs:84-100 | a left fold that saturates at every step loses nothing but what clamping at the end loses |
| Metadata.StructMetaClamps | hirpdag_derive/src/lib.rs:532-542 | if cached metadata below is exact up to clamping, so is what a struct computes |
| Metadata.HeightIsLongestPath | hirpdag/src/base/meta.rs:5-6 | the exact height is the number of nodes on the longest downward path |
| Metadata.HeightAndDeepestLeaf | hirpdag/src/base/meta.rs:5-6 | the exact height is one more than the distance to the deepest leaf; a leaf has height 1 |
| Metadata.FlagsAreDescendants | hirpdag/src/base/meta.rs:7-8 | the exact flags are the flags of the node and of all nodes below |
| Metadata.CountIsPositions | hirpdag/src/base/meta.rs:3-4 | the exact count of a tree is the number of its positions: the sequences of child indices that lead to a node, so that a shared node counts once for every path to it |
| Dag.Find | hirpdag/src/base/reference.rs:256-264 | a lookup returns a live node with the same data, and fails only if there is none |
| Dag.MetaExact | hirpdag/src/base/reference.rs:254-256 | metadata computed at creation is that of the whole unfolding |
| Dag.StepInv | hirpdag/src/base/reference.rs:248-265 | every step of lookup, creation_meta, allocation, publishing, clone, drop, hand-over and death keeps: uniqueness, parents keep children alive, unique IDs growing along edges, exact metadata |
| DagTheorems.LookupMeetsTableSpec | hirpdag_hashconsing/src/table.rs:12-24 | what the heap assumes of its tables is the specification the tables are proved to meet |
| DagTheorems.LiveNodeIsReturned | hirpdag/src/base/reference.rs:246-247 | while a node is alive, a lookup of equal data returns it and takes no ID, and a call already past its lookup throws away what it built and returns it |
| DagTheorems.PublishMeetsTableSpec | hirpdag_hashconsing/src/table.rs:17-21 | publishing in the heap, hit or miss, is interning as the tables specify it |
| DagTheorems.PointerEqualityIsDeep | hirpdag/src/base/reference.rs:11-17 | in every reachable state two live nodes are the same allocation if and only if their unfoldings are equal, and all handles are to live nodes |
| DagTheorems.HashingByIdIsFaithful | hirpdag/src/base/reference.rs:28-36 | hashing references by creation ID distinguishes exactly what equality distinguishes |
| DagTheorems.HashSeesIds | hirpdag/src/base/reference.rs:28-36 | what is hashed is the struct with the creation ID of the node in place of each reference |
| DagTheorems.CmpOrdersDependencies | hirpdag_derive/src/lib.rs:564-581 | cmp is a total order, Equal exactly for the same node, and puts dependencies first; so the graph has no cycles. Discarded nodes are covered |
| DagTheorems.CachedMetadataIsExact | hirpdag/src/base/reference.rs:91-93 | in every reachable state count is min(2^32-1, positions of the unfolding), height min(2^16-1, longest path), flags the union below, by `Metadata.CountIsPositions`, `Metadata.HeightIsLongestPath` and `Metadata.FlagsAreDescendants` |
| DagTheorems.NothingLeaks | hirpdag/src/base/reference.rs:43-47 | with no handles left there is always a node that can die, until none is left |
| DagRuns.ReservedFirstIsLess | hirpdag_derive/src/lib.rs:569-580 | of two nodes the one whose creation_meta took its ID first compares Less, whichever was allocated first and whatever any thread does in between; nodes that were there before compare Less than both |
| DagRuns.BuiltWithReservedId | hirpdag/src/base/reference.rs:254-259 | a node has the ID that its own call reserved, however long the thread stalled before allocating |
| DagRuns.ActionsMoveHandles | hirpdag/src/base/reference.rs:39-47 | every action gives the handles it is there to give, to the node named, alive with equal data, or just built, takes the one it is there to take, and leaves all others alone |
| DagRuns.ActionsMoveNodes | hirpdag/src/base/reference.rs:248-265 | nodes appear at allocation, with the data and ID of the call, and go by dying or by losing the race for the table; no node ever changes |
| DagRuns.HandlesAreUsable | hirpdag/src/base/reference.rs:39-47 | a thread outside of calls can drop and hand over what it holds, reach into it, and intern whatever can be made of it |
| Runtime.OthersKeep | hirpdag/src/base/reference.rs:248-265 | whatever the other threads do, no node changes and none we hold goes |
| Runtime.OthersRunFreely | hirpdag/src/base/reference.rs:248-265 | the other threads are as free as in any run |
| Runtime.Runtime.Intern | hirpdag/src/base/reference.rs:248-265 | returns a held node with exactly the data given, whatever happens between its steps, and the invariant of the heap is kept |
| Collect.PostAllOrder | hirpdag_derive/src/lib.rs:717-737 | the walk registers nodes once, children first, and nothing that is not reachable |
| Collect.PostAllAppend | hirpdag_derive/src/lib.rs:717-737 | roots are walked from left to right: what later roots add comes after what earlier ones did |
| Collect.CollectsExactly | hirpdag_derive/src/lib.rs:1421-1434 | the registered nodes are exactly those reachable from the roots, each once, every child strictly before its parents |
| Collect.HirpdagCollectCtx.CollectRef | hirpdag_derive/src/lib.rs:717-731 | the code, which marks a node seen only after its children, follows the depth-first order; seen is a bijection from creation IDs onto indices; it ends |
| Collect.HirpdagCollectCtx.CollectField | hirpdag/src/base/serialize.rs:201-216 | options and enums are walked through |
| Collect.HirpdagCollectCtx.CollectFields | hirpdag/src/base/serialize.rs:218-224 | vectors and field lists are walked in order |
| Archives.ResolveAllMaps | hirpdag_derive/src/lib.rs:684-715 | a traversal that succeeds keeps the shape and replaces every reference by what was looked up for it |
| Archives.ResolveAllSucceeds | hirpdag_derive/src/lib.rs:665-682 | it fails only if some reference cannot be looked up |
| Archives.WriteFields | hirpdag_derive/src/lib.rs:665-682 | every reference is found and written as the index of its node: no reference is left uncollected |
| Archives.Serialize | hirpdag_derive/src/lib.rs:1441-1452 | never fails, and yields version 1, the node table in collect order with indices for references, and the roots |
| Archives.ArchiveIsGraph | hirpdag/src/base/serialize.rs:5-10 | archives refer strictly backwards, at the right types |
| Archives.ArchiveUnfolds | hirpdag_derive/src/lib.rs:717-731 | entry i unfolds to the tree of the node collected ith |
| Decode.ReadableIsBackward | hirpdag_derive/src/lib.rs:700-713 | an entry can be read exactly if all its references are to earlier entries of the right types |
| Decode.RefusedExactly | hirpdag_derive/src/lib.rs:1459-1470 | refused are archives of another version than 1 and those with a reference, in an entry or in the roots, that does not lead to an earlier entry of the type asked for; nothing else is |
| Decode.VisitNode | hirpdag_derive/src/lib.rs:1385-1401 | decoding and interning one entry fails exactly on a forward, out-of-range or mistyped index; else the new node unfolds to the entry |
| Decode.VisitSeq | hirpdag_derive/src/lib.rs:1381-1406 | the pass succeeds exactly if every reference in the table is backward and well typed, and every rebuilt node unfolds to its entry |
| Decode.Deserialize | hirpdag_derive/src/lib.rs:1459-1470 | succeeds exactly on the known version with well-formed table and roots; roots and nodes unfold to what the archive says; concurrent threads do not matter |
| RoundTrip.ArchivesAreCanonical | docs/design/serialization.md:140-141 | two archives are equal if the roots, in order, have equal unfoldings: IDs, addresses and table history leave no trace |
| RoundTrip.ReadBack | hirpdag_derive/src/lib.rs:1164-1167 | reading what was written gives roots of the same shape and unfoldings |
| RoundTrip.SharedAsWritten | hirpdag_derive/src/lib.rs:1164-1167 | entries that describe the same tree become one node, others different ones, and references lead where the entries say |
| RoundTrip.Transfer | hirpdag_derive/src/lib.rs:1423-1470 | from any heap into any other, in any state and with other threads at work, the round trip succeeds, keeps all unfoldings, and copies the nodes one to one |
| RoundTrip.SaveAndLoad | hirpdag_derive/src/lib.rs:1381-1406 | within a process, while the roots are held, reading back gives pointer-equal roots |
| RoundTrip.WriteAgain | docs/design/serialization.md:140-141 | writing again, from the heap an archive was read into, reproduces the archive |
| Header.WriteBinaryHeader | hirpdag/src/base/serialize.rs:126-135 | fails exactly if the fingerprint cannot be encoded; else the header is the magic prefix followed by the encoded fingerprint and nothing else |
| Header.HeaderRoundTrip | hirpdag/src/base/serialize.rs:139-162 | behind a header written for any fingerprint, with any prefix-decodable codec, a reader gets exactly the payload if the schema hashes agree, whatever the names, and else both fingerprints |
| Header.EveryHeader | hirpdag/src/base/serialize.rs:139-162 | for all bytes: BadMagic exactly if the first eight are not 0x89 HPDG CR 0x1a LF, Format exactly if they are and no fingerprint follows, and else the payload or the mismatch, by the hash alone |
| Rewriting.InternTree | hirpdag_derive/src/lib.rs:590-593 | building a tree with the constructors gives a node that unfolds to it |
| Rewriting.Rewrite | hirpdag_derive/src/lib.rs:652-656 | rewriting a node gives a node that unfolds to the rewritten tree, shortcut or not, for overrides that look at the node they are given and at its tree |
| Rewriting.NodeIsTreeRewrite | hirpdag_derive/src/lib.rs:259-267 | for overrides that look at the tree only, rewriting the DAG is rewriting the tree |
| Rewriting.RewriteByPosition | hirpdag_derive/src/lib.rs:652-656 | overrides are applied from the top: at every position that no override above it replaced, the result has what the override makes of the node there, or, where it calls the default, the shape of that node |
| Rewriting.RewriteAsTree | hirpdag_derive/src/lib.rs:652-656 | so the rewritten node unfolds to the tree rewrite of the unfolding |
| Rewriting.DefaultRewrite | hirpdag_derive/src/lib.rs:268-321 | returns a node for the rewritten fields; with the shortcut, a node none of whose descendants is overridden is returned itself, without interning anything |
| Rewriting.RewriteField | hirpdag/src/base/rewrite.rs:24-34 | references nested in options, vectors and enums are all rewritten, and the shape is kept |
| Rewriting.ShortcutChangesNothing | hirpdag_derive/src/lib.rs:259-267 | the shortcut and always rebuilding through new return the same pointer |
| Rewriting.DefaultIsIdentity | hirpdag_derive/src/lib.rs:257-267 | a rewriter that overrides nothing returns its input pointer, and with the shortcut looks into no table |
| Substitution.SubstitutionLemma | test_suite/benches/expr_substitution.rs:62-71 | evaluating the rewritten expression is evaluating the original with the substituted variables bound, for sums and products of any depth |
| Substitution.Substitute | test_suite/benches/expr_substitution.rs:88-94 | the rewriter on shared nodes does that |

## Left out

- Weak memory orderings: all steps are sequentially consistent, and addresses and references are abstract.
- Counter overflow, including the 32-bit counters of `SlotPackedU32`: counts are unbounded, as their users must ensure.
- Running user code when data is dropped: dropping data drops the handles in its fields, in order, and nothing else.
- HashTables.TableSharedSharded.Get: leaves the other shards at rest during the call, because overlapping calls are the matter of `ShardRuns`.
- HashTables.TableSharedSharded.GetOrInsert: leaves the other shards at rest during the call, for the same reason.
- `reset`: it breaks the interning invariant by design.
- DashMap, SkipMap and other wrapped collections, `RefArc`, `RefRc` and `RefLeak`: their work is done by libraries that are not part of this model.
- Byte formats of fingerprints and archives, error messages, and the thread-local session guards: an archive is a version, a node table and roots, and a session is the vector of nodes rebuilt so far.
- Normalizers, builders, and macro parsing: constructors are `spawn`, which a type without a normalizer has.
- Overriding how enum values are rewritten: only rewriting methods of structs can be overridden in the model.
- Rewriting methods with changing state of their own: a rewriter answers the same for the same node.
- The memoized rewriter: its cache is read and never written, so it does what the plain rewriter does.
- `hirpdag_cmp_deep`: it compares child references by creation ID, so it is not independent of creation order; no claim is made.
- Rewriting.Rewrite: keeps handles to intermediate results until it returns; this pins no node that is not part of a node it holds anyway.
- Runtime.Runtime.Intern: handles are counted as sets, at least one or none per thread; how many there are is the matter of the reference-counting machine.
- Collect.HirpdagCollectCtx.CollectRef: indices are unbounded rather than `u64`.
