# rea — a synchronous reactive store, modelled in Dafny

`rea` keeps typed values in one store (`Context`). It has:

- **Leaves:** plain values, written with `set_data`.
- **Computed entries:** a getter closure, optionally paired with a setter closure.

A computed entry is evaluated once when it is defined, and its result is cached. While a getter runs, its id sits on the `currently_computing` stack. Every read of a known id that it makes through the generic `get` records a dependency edge from that id to the id read; a read of an unknown id records nothing.

Writing a leaf pushes recomputation. Every computed entry whose dependency set contains the written id is re-run, its result is cached, and the push recurses from it.

Writing a computed entry runs its setter, then overwrites its cache. Handles (`Ref`, `DataRef`) are copyable ids. The shared store handle `ContextRef` counts its clones and frees the store when the last one is dropped.

The model has one file per module:

| file | module | models |
|---|---|---|
| `wrappers.dfy` | `Wrappers` | `Option`, and the outcome of an operation that can abort (`expect`/`unwrap`) |
| `tags.dfy` | `Tags` | runtime `TypeId`s as a finite tag enumeration, values as a sum type |
| `data.dfy` | `DataStores` | `DataStore` (tagged cell) and `DataRef` (src/data.rs) |
| `value.dfy` | `ValueStores` | `ValueStore`, the cell with a consume-once `empty` flag (src/value.rs) |
| `computed.dfy` | `Computeds` | getters and setters, the two `Computed` impls and `ComputedStore` (src/computed.rs) |
| `propagation.dfy` | `Propagation` | the store's tables as a value, and what push propagation guarantees |
| `context.dfy` | `Contexts` | `Context`, as a class whose methods update its tables in place (src/context.rs) |
| `context_ref.dfy` | `ContextRefs` | `ContextRef`: the reference counter, and the generic `get`/`set` dispatch |
| `reference.dfy` | `References` | `Ref<D>` |
| `playground.dfy` | `Playground` | the demo program (bin/playground.rs): its conditional dependency, and its run on the store |

Getters and setters are closures in the original. The model gives them a small typed expression language. A getter (`Computeds.Getter`) can be:
- a constant;
- a typed read with a fallback;
- a conditional;
- a string join;
- an integer product.

Its value is a function of a read-only view of the tables. So is the set of ids it reads (`Reads`), which covers only the branch it takes.

A setter is a list of writes to leaf handles, plus a return value that the descriptor discards.

### Propagation guarantees

Propagation is modelled by two mutually recursive methods, `ComputedExecuteGetter` and `TriggerComputeIfDependencyIsSet`. They bound their recursion with a fuel parameter. `ok == false` (or `Result.OutOfFuel`) means that the fuel ran out. That covers the original's unbounded recursion on a dependency cycle (including a getter that reads its own entry). It also covers an acyclic cascade deeper than the fuel, which the original completes. With no dependents, no fuel is spent and the cascade always completes.

The fuel runs out only for a reason the model names. The method hands back a walk along dependency edges (`Cascade`), starting at the written or recomputed id, with `fuel + 1` edges in the final graph (`StoppedAlong`). Such a walk visits some entry twice once the fuel is at least the number of computed entries. So, with that much fuel, running out means the final graph has a dependency cycle (`StoppedMeansCycle`). Every setter write and every `set_data`/`set_computed` passes this walk on.

Recomputation can add edges during a cascade, so an acyclic graph before a write does not by itself rule out a cycle afterwards. The model bounds that growth: a recomputed entry's dependency set only gains ids its getter mentions (`Frame`). A store is *layered* when every getter mentions only ids older than its own entry. `computed` gives exactly that when a getter mentions only entries that already exist (`DefineKeepsLayered`). In a layered store, every dependency edge points at an older id, before and after any cascade (`FrameKeepsDownward`), so the graph never has a cycle (`DownwardAcyclic`). So in a layered store, fuel at least the number of computed entries never runs out (`LayeredNeverStops`). That holds for `set_data` (`LayeredWriteCompletes`), for a setter's writes (`LayeredSetterCompletes`) and for `set_computed` (`LayeredCacheWriteCompletes`). The demo program's store is layered, and its whole run is proved on the store with one unit of fuel (`Playground.Run`).

When a cascade completes, the model proves the following:
- **Closure:** every entry that depends on the written id, or on an entry recomputed in the cascade, was itself recomputed.
- **Freshness:** each recomputed entry's cache equals its getter evaluated against the final tables, and its dependency set covers what that evaluation reads.
- **Frame:** no other cache and no other dependency set changed, and a recomputed entry's dependency set gained only ids its getter mentions.
- **Reach:** every recomputed entry is reached from the written id along dependency edges of the graph as it was before the write (`Reached`). So every entry outside a dependents-closed set around the written id keeps its cache and edges (`UnreachedKept`). This holds whether or not the cascade completes.
- **No self-reads:** no recomputed entry depends on itself.

From these, `AllConsistent` is preserved by three operations:
- defining a leaf;
- writing a leaf;
- defining a computed entry whose getter mentions only existing ids.

`AllConsistent` means every computed entry's cache is fresh and fully tracked.

### Where the code's behaviour is surprising

**Return value of `set_computed`.** It returns the cache as it stands after the setter's writes have propagated (src/context.rs:156-162). When the setter writes a leaf that the getter reads, the propagation has already recomputed this entry, so the returned value is the recomputed one.

**Draft names.** src/context_ref.rs calls `id_is_value`, `value`, `get_value` and `set_value`. In src/context.rs these are `ref_is_data`, `data`, `get_data` and `set_data`. They are modelled as the same operations.

**`get_cloned_ref` on `DataStore`.** src/context.rs calls it on `DataStore`, but only `ValueStore` has it. The store's cells are modelled as `DataStore` values read with `GetRef`. `ValueStore.GetClonedRef` is proved to be the same tag-checked read.

## Model

| member | source | states |
|---|---|---|
| Tags.TagOf | src/data.rs:33-34 | each value kind has exactly its own tag |
| DataStores.DataRef.Clone | src/data.rs:16-24 | a clone keeps the id and the type |
| DataStores.DataStore.New | src/data.rs:33-41 | the cell records the tag of the value's type, holds the value, and is well formed |
| DataStores.DataStore.Get | src/data.rs:43-49 | returns Some exactly when the requested tag is the recorded one, and then the stored value |
| DataStores.DataStore.GetRef | src/data.rs:51-57 | same tag rule, without consuming the cell |
| DataStores.DataStore.GetMut | src/data.rs:59-65 | same tag rule for the mutable borrow |
| DataStores.DataStore.TypeId | src/data.rs:67-69 | the recorded tag, which is the tag of the stored value for a well-formed cell |
| DataStores.DataStore.Is | src/data.rs:71-73 | holds iff the given tag is the recorded one |
| DataStores.NewGetRoundTrip | src/data.rs:33-49 | `new(v).get::<D>()` gives back `v` for v's own type, and None for any other |
| DataStores.AccessorsAgree | src/data.rs:43-73 | get, get_ref and get_mut agree, and succeed iff `is` holds |
| ValueStores.ValueStore.New | src/value.rs:13-22 | records the value and its tag, not empty, nothing released |
| ValueStores.ValueStore.GetRef | src/value.rs:24-30 | Some iff the tag matches, then the stored value |
| ValueStores.ValueStore.GetClonedRef | src/value.rs:31-37 | Some iff the tag matches, then a value equal to the stored one; reads nothing else |
| ValueStores.ValueStore.TypeId | src/value.rs:47-49 | the recorded tag, which is the stored value's tag for a live cell |
| ValueStores.ValueStore.Is | src/value.rs:51-53 | holds iff the given tag is the recorded one |
| ValueStores.ValueStore.Get | src/value.rs:38-45 | on a tag match, sets `empty` and returns the value; on a mismatch, returns None with `empty` false. Afterwards the cell is dropped and the payload has been released exactly once |
| ValueStores.ValueStore.Drop | src/value.rs:56-64 | frees the payload only when not moved out, so a live cell's payload is released exactly once |
| Computeds.Lookup | src/context_ref.rs:42-50 | a leaf's typed value, else a computed entry's cached value (never an evaluation), else None; Some only for known ids |
| Computeds.TouchedInIds | src/computed.rs:9-10 | a getter run only looks up ids the getter mentions |
| Computeds.EvalHasType | src/computed.rs:49-55 | a well-typed getter returns a value of its declared type `D` |
| Computeds.TouchedDecide | src/computed.rs:9-10 | a getter's result and its lookups are decided by the entries it looks up |
| Computeds.ReadsDecide | src/context.rs:52-67 | views that agree on the recorded reads give the same result and the same reads, so the recorded edges suffice for push propagation |
| Computeds.Writes | src/computed.rs:28-39 | the setter's writes, in order, each with its value resolved against the input |
| Computeds.Computed.Get | src/computed.rs:15-35 | both impls run their getter (the bare function or `self.0`), with a result of the getter's type |
| Computeds.Computed.Set | src/computed.rs:23-39 | the bare impl writes nothing; the pair runs `self.1`'s writes and discards its result |
| Computeds.ComputedStore.New | src/computed.rs:49-60 | keeps the descriptor and its type, and always installs a setter |
| Computeds.ComputedStore.Get | src/computed.rs:55-63 | a well-formed cell holding the getter's result, tagged `D` |
| Computeds.ComputedStore.Set | src/computed.rs:56-68 | no setter: no writes. Otherwise it aborts exactly when the cell is not of type `D`, and else yields the descriptor's writes for the cell's value |
| Computeds.SetWritesTyped | src/computed.rs:28-39 | a well-typed setter only writes values of each target's type |
| Propagation.WithEdge | src/context.rs:52-67 | empty stack: graph unchanged. Otherwise only the top id's set changes, gaining `dependency` and losing nothing |
| Propagation.WithEdges | src/context.rs:52-67 | recording a set of reads for one dependent only adds them to its own set |
| Propagation.WithEdgeWithEdges | src/context.rs:52-67 | recording reads one at a time equals recording them together |
| Propagation.Dependents | src/context.rs:73-79 | exactly the ids whose dependency set contains the dependency |
| Propagation.Recompute | src/context.rs:164-172 | recomputing changes only the entry's cache (to the getter's result) and its dependency set (adding the reads) |
| Propagation.ReachedAfterRecompute | src/context.rs:164-174 | recomputing an entry changes only its own edges, so a chain reached from it stays valid against the old graph, with the entry added |
| Propagation.ReachedStep | src/context.rs:81-88 | one turn of the dependents loop: a dependent of the seed and everything its recomputation reached are reached from the seed in the graph before the loop |
| Propagation.ReachedWithin | src/context.rs:68-89 | reached entries lie inside every set that holds the seeds and every dependent of its members |
| Propagation.UnreachedKept | src/context.rs:68-89 | after propagation from the seeds, every entry outside a dependents-closed set around them keeps its cache and its dependency set |
| Propagation.StaysFresh | src/context.rs:68-89 | an entry outside a closed recomputed set that was fresh stays fresh |
| Propagation.RecomputeFresh | src/context.rs:164-172 | an entry that does not read itself is fresh right after it is recomputed |
| Propagation.RecomputeThenPropagate | src/context.rs:164-174 | a recompute followed by a completed cascade yields a closed, fresh, self-dependency-free set; and the entry did not read itself |
| Propagation.RecordKeepsValid | src/context.rs:52-67 | recording a read of an allocated id for the entry on top of the stack keeps the store well formed |
| Propagation.ExecuteGetterSteps | src/context.rs:164-174 | a recompute followed by propagation changes only the recomputed entries, all reached from the entry in the graph before it, and leaves the entry cached; with no dependents nothing but the entry changes; a completed cascade leaves a settled set and the entry did not read itself |
| Propagation.ProgressStart | src/context.rs:73-81 | before the first turn of the dependents loop nothing is recomputed and every dependent is still to come |
| Propagation.StepSettles | src/context.rs:81-88 | two successive settled recomputations combine into one settled set |
| Propagation.StepCovers | src/context.rs:81-88 | after a turn, every entry depending on the leaf is recomputed or still to come |
| Propagation.PropagateStep | src/context.rs:81-88 | one turn of the dependents loop keeps the frame, the settled set, and the coverage of the collected dependents |
| Propagation.DefineHasNoDependents | src/context.rs:122-136 | a new entry that does not read itself has no dependents after its first evaluation |
| Propagation.NewLeafKeepsConsistent | src/context.rs:92-100 | adding a leaf under a fresh id keeps every cache fresh |
| Propagation.WriteKeepsConsistent | src/context.rs:107-119 | a leaf write followed by a completed cascade closed over the leaf leaves every cache fresh |
| Propagation.DefineKeepsConsistent | src/context.rs:122-136 | a definition whose getter mentions only existing ids does not read itself, and after its evaluation every cache is fresh |
| Propagation.OverwriteKeepsValid | src/context.rs:158-161 | overwriting a cache with a value of the entry's type keeps the tables well formed |
| Propagation.OverwriteKeepsOthers | src/context.rs:150-163 | overwriting one cache keeps fresh every other entry that does not depend on it |
| Propagation.CascadeEdges | src/context.rs:68-89 | a cascade walk, stated recursively, has every entry depending on the one before it |
| Propagation.CascadeStep | src/context.rs:81-86 | a recomputed dependent of `dependency` whose own cascade stopped along a walk extends that walk by the edge from `dependency`, in the final graph |
| Propagation.CascadeGrows | src/context.rs:52-67 | dependency sets only grow during propagation, so a walk in an earlier graph is a walk in every later one |
| Propagation.CascadeMeansCycle | src/context.rs:68-89 | a walk with more edges than there are entries with a dependency set goes round a dependency cycle |
| Propagation.StoppedMeansCycle | src/context.rs:68-89 | in well-formed tables, a cascade that ran out of fuel at least as large as the number of computed entries went round a dependency cycle of the final graph |
| Propagation.StopFirst | src/context.rs:81-86 | a dependents loop with no fuel left stops along the single edge from `dependency` to the dependent at hand |
| Propagation.StopStep | src/context.rs:81-86 | a dependents loop whose recomputation stopped along a walk from the dependent stops along that walk with `dependency` in front, one edge longer |
| Propagation.FrameKeepsDownward | src/context.rs:52-67 | in a layered store whose edges all point at older ids, propagation adds only edges to ids a getter mentions, so afterwards the store is still layered and every edge still points at an older id |
| Propagation.DownwardAcyclic | src/context.rs:68-89 | a graph whose edges all point at older ids has no dependency cycle |
| Propagation.LayeredNeverStops | src/context.rs:68-89 | in a layered store whose edges point at older ids, a cascade with fuel at least the number of computed entries never stops for lack of fuel, and the store stays layered |
| Propagation.DefineKeepsLayered | src/context.rs:122-136 | defining a computed entry whose getter mentions only existing ids, then evaluating it, keeps the store layered with every edge pointing at an older id |
| Contexts.LeafWritesOne | src/context_ref.rs:51-56 | one write replaces its target when that is a leaf, and otherwise changes nothing |
| Contexts.LeafWritesSnoc | src/computed.rs:37-39 | a setter's writes apply one after the other: the first k+1 writes are the first k followed by write k |
| Contexts.LeafWritesUntouched | src/computed.rs:37-39 | a leaf no write aims at keeps its value |
| Contexts.LeafWritesLast | src/computed.rs:37-39 | after a setter's writes, a leaf holds the value of the last write aimed at it |
| Contexts.Context.constructor | src/context.rs:28-37 | all tables empty, ids start at 0, the store is well formed and consistent |
| Contexts.Context.NextId | src/context.rs:39-43 | returns the counter and increases it by exactly one |
| Contexts.Context.RefIsData | src/context.rs:45-47 | holds iff the id is a leaf, never for a computed id of a well-formed store |
| Contexts.Context.RefIsComputed | src/context.rs:48-50 | holds iff the id is a computed entry |
| Contexts.Context.AddDependencyIfComputing | src/context.rs:52-67 | the graph becomes `WithEdge` of the old graph: unchanged with an empty stack, else `dependency` is added to the top's set |
| Contexts.Context.GetData | src/context.rs:101-106 | records the read, then returns the leaf's value iff it exists with the requested type |
| Contexts.Context.GetComputed | src/context.rs:137-149 | records the read, then returns the cached value iff it exists with the requested type; never evaluates, and the cache is unchanged |
| Contexts.Context.Read | src/context_ref.rs:42-50 | the generic read: the `Lookup` of the current tables, recording an edge only for known ids |
| Contexts.Context.RunGetter | src/context.rs:169-171 | running a getter with an id on the stack returns its evaluation against the current tables, and records exactly its reads for that id |
| Contexts.Context.RunCond | src/context.rs:169-171 | a conditional getter returns the evaluation of the branch the test selects, and records the test's reads and that branch's reads only |
| Contexts.Context.RunJoin | src/context.rs:169-171 | a joining getter returns the concatenation of both parts, and records the reads of both |
| Contexts.Context.Evaluate | src/context.rs:165-172 | push, run, pop and cache: the tables become exactly `Recompute` of the old ones, and the stack and well-formedness are kept |
| Contexts.Context.ComputedExecuteGetter | src/context.rs:164-174 | the stack is the same afterwards; only the entries in `done` change, all reached from this entry along the old dependency edges; with no dependents, only this entry is recomputed and the cascade completes. A completed cascade is closed and fresh, and the entry did not read itself; a cascade that runs out of fuel does so along a walk of `fuel + 1` dependency edges from the entry in the final graph |
| Contexts.Context.CollectDependents | src/context.rs:73-79 | collects exactly the entries whose dependency set contains `dependency`, each once |
| Contexts.Context.TriggerComputeIfDependencyIsSet | src/context.rs:68-89 | with no dependents nothing changes and the cascade completes. Only entries reached from `dependency` along the old dependency edges are recomputed; the rest keep their caches and edges. A completed cascade recomputes every dependent of `dependency` and of each recomputed entry; one that runs out of fuel does so along a walk of `fuel + 1` dependency edges from `dependency` in the final graph |
| Contexts.Context.Data | src/context.rs:92-100 | a new id past all known ids; the leaf holds the value; the store stays well formed and consistent |
| Contexts.Context.ReplaceLeaf | src/context.rs:113-116 | the leaf map gains the new cell; returns the previous cell iff there was one; keeps the store well formed when the id was a leaf |
| Contexts.Context.SetData | src/context.rs:107-119 | the leaf is replaced first. It aborts if there was no leaf; otherwise `LeafWritten`: only entries reached from the leaf are recomputed (none, and no fuel spent, when nothing depends on it); it runs out of fuel only along a walk of `fuel + 1` dependency edges from the leaf; it returns the previous value iff that has the handle's type; and a completed cascade is settled and keeps the store consistent |
| Contexts.Context.DefineComputed | src/context.rs:127-129 | a new id past all known ids; the tables become `Define` of the old ones with the new descriptor, still well formed |
| Contexts.Context.Computed | src/context.rs:122-136 | a new id. The evaluation completes exactly when the getter does not read the new entry, and always when it mentions only existing ids; then the tables are the definition followed by one `Recompute`, and a consistent store stays consistent |
| Contexts.Context.ApplyWrite | src/context_ref.rs:51-56 | `WriteApplied`: a write whose target is not a leaf is skipped (see Left out), succeeding with no change; a leaf write goes through `set_data` and recomputes only entries reached from the leaf, and nothing (never running out of fuel) when no entry depends on it; it runs out of fuel only along a walk of `fuel + 1` dependency edges from the leaf; otherwise it succeeds exactly when the leaf holds the handle's type, aborting on a mismatch; consistency is kept on success |
| Contexts.Context.RunSetter | src/computed.rs:37-39 | `SetterRan`: only entries reached from the leaves written are recomputed; no writes means success and no change; writes only to leaves nothing depends on recompute nothing and never run out of fuel; running out of fuel happens only along a walk of `fuel + 1` dependency edges from a written leaf; otherwise it succeeds exactly when every write fits its leaf's type, else aborts on a mismatch; on success the leaves are the writes applied in order and consistency is kept |
| Contexts.Context.ComputedExecuteSetter | src/context.rs:175-186 | `SetterDispatched`: aborts with the store unchanged on a missing descriptor or a mistyped cell; otherwise everything `SetterRan` promises for the descriptor's writes of the cell's value |
| Contexts.SetterStart | src/computed.rs:37-39 | before the first write nothing is written or recomputed |
| Contexts.SetterStep | src/context_ref.rs:51-56 | one write of the setter loop: a successful write extends the written prefix and the reached set, and a failing one ends the setter with what `SetterRan` promises, an abort only when the write does not fit |
| Contexts.SetterStepFacts | src/context_ref.rs:51-56 | after one more write: the leaves are the prefix written so far, only reached entries were recomputed, nothing was recomputed while no entry depends on a written leaf, running out of fuel comes with a walk from a written leaf, and the write succeeds (unless out of fuel) exactly when it fits |
| Contexts.SetterEnd | src/computed.rs:37-39 | after the last write the setter has succeeded with every write applied, and with no writes nothing changed |
| Contexts.SilentSetterWrite | src/computed.rs:23-25 | a computed whose setter writes nothing (such as a bare getter), written with its own type while it has a cache: returns the cache as it was, and only the cache changes |
| Contexts.Context.ReplaceCache | src/context.rs:158-161 | the cache gains the new cell; returns the previous cell iff there was one; the store stays well formed |
| Contexts.Context.SetComputed | src/context.rs:150-163 | `CacheWritten`: a handle of the wrong type aborts with nothing changed. Otherwise the setter runs first, recomputing only entries reached from the leaves it writes (nothing when no entry depends on them); it runs out of fuel only along a walk of `fuel + 1` dependency edges from a written leaf; otherwise it succeeds exactly when every write fits and the entry has a cache, and once the writes are done the cache holds the new value, which a later read returns. Returns the cache as left by the setter. No propagation from the overwrite: entries that do not depend on it stay fresh |
| Contexts.CacheWrittenStopped | src/context.rs:150-155 | a setter run that aborts or runs out of fuel ends `set_computed` with its outcome and the cache untouched |
| Contexts.CacheWrittenSwapped | src/context.rs:156-163 | after a successful setter run, swapping the cache gives everything `CacheWritten` promises: the previous cache (as the setter left it) is returned when it exists, the cache holds the new value, and other fresh entries not depending on this one stay fresh |
| Contexts.LayeredWriteCompletes | src/context.rs:107-119 | in a layered store, `set_data` with fuel at least the number of computed entries completes: the cascade is settled, consistency is kept, and the store stays layered |
| Contexts.LayeredSetterCompletes | src/computed.rs:37-39 | in a layered store, a setter's writes with that much fuel never run out of fuel: they succeed exactly when every write fits its leaf, and then the leaves are the writes applied in order |
| Contexts.LayeredCacheWriteCompletes | src/context.rs:150-163 | in a layered store, `set_computed` with that much fuel never runs out of fuel; with the handle's type it succeeds exactly when every write fits and the entry has a cache, and then a read returns the new value |
| ContextRefs.Counter.constructor | src/context_ref.rs:12 | the counter starts at 1, store not freed |
| ContextRefs.ContextRef.constructor | src/context_ref.rs:9-14 | a fresh, empty, well-formed store and a fresh counter at 1 |
| ContextRefs.ContextRef.Count | src/context_ref.rs:22-24 | the number of live handles held by the shared counter |
| ContextRefs.ContextRef.Clone | src/context_ref.rs:63-74 | a new handle on the same store and counter; the count goes up by one |
| ContextRefs.ContextRef.Drop | src/context_ref.rs:76-86 | the count goes down by one, and the store is freed exactly when it reaches 0 |
| ContextRefs.ContextRef.IdIsValue | src/context_ref.rs:26-28 | holds iff the id is a leaf of the shared store, never together with `IdIsComputed` in a well-formed store |
| ContextRefs.ContextRef.IdIsComputed | src/context_ref.rs:29-31 | holds iff the id is a computed entry of the shared store |
| ContextRefs.ContextRef.Value | src/context_ref.rs:34-36 | on a live handle, as `Context.Data`: the next id, the counter advanced by one, and the leaf map gains exactly the new leaf |
| ContextRefs.ContextRef.Computed | src/context_ref.rs:37-40 | on a live handle, everything `Context.Computed` promises: the next id, the stored descriptor, leaves untouched, installed setters kept, completion exactly when the getter does not read itself, the resulting tables, and consistency |
| ContextRefs.ContextRef.Get | src/context_ref.rs:42-50 | on a live handle, a leaf goes through `get_data` and a computed id through `get_computed`. Any other id gives None and records nothing |
| ContextRefs.ContextRef.Set | src/context_ref.rs:51-60 | on a live handle, a leaf write keeps every promise of `set_data` (`LeafWritten`) and a computed write every promise of `set_computed` (`CacheWritten`, including when it succeeds, what its setter's writes recompute, and the walk along which fuel runs out). Any other id returns the value and changes nothing. After a successful write to a known id, a read returns the new value |
| References.Ref.New | src/reference.rs:11-16 | a handle with the given id and type |
| References.Ref.Id | src/reference.rs:17-19 | the handle's id |
| References.Ref.Get | src/reference.rs:21-23 | through a live store handle, the generic read of this id: the `Lookup` of the store, recording an edge from the entry being computed exactly when the id is known |
| References.Ref.Set | src/reference.rs:24-26 | through a live store handle, the generic write of this id, with all of `set_data`'s promises for a leaf and `set_computed`'s for a computed entry |
| References.Ref.IsValue | src/reference.rs:28-30 | holds iff the id is a leaf of the store |
| References.Ref.IsComputed | src/reference.rs:31-33 | holds iff the id is a computed entry of the store |
| References.NewIdRoundTrip | src/reference.rs:10-19 | `Ref::new(id).id() == id`, and a handle is rebuilt from its id |
| References.CopiesAgree | src/reference.rs:36 | copies with the same id name the same entry, and no id is both leaf and computed |
| Playground.ConditionalReads | bin/playground.rs:8-16 | while the flag is set, the full name is the last name and only the flag and last name are read; otherwise all three leaves are read |
| Playground.DemoNamesSkipping | bin/playground.rs:17-23 | while the flag is set the demo shows "World", before and after the first name changes; the first evaluation, with the flag set, records no read of the first name |
| Playground.DemoNamesShowing | bin/playground.rs:17-23 | once the flag is cleared the demo shows "Hello World", then "Rea World" after the first name is set |
| Playground.FullNameStore | bin/playground.rs:8-16 | the full name is a bare getter of string type |
| Playground.DemoWrite | bin/playground.rs:18-22 | a leaf write in the demo's store with one unit of fuel completes, returns the previous value, and leaves the full name up to date over the new leaves |
| Playground.CachedName | bin/playground.rs:17 | in a consistent demo store, reading the full name gives the getter's result over the current leaves |
| Playground.Flag | bin/playground.rs:4-5 | a fresh, well-formed store holding only the flag, set to true |
| Playground.Leaves3 | bin/playground.rs:4-7 | a fresh store holding the three leaves with their initial values, and nothing computed |
| Playground.Setup | bin/playground.rs:4-16 | a fresh demo store: the three leaves, and the full name cached, consistent and layered |
| Playground.Show | bin/playground.rs:17 | `full_name.get(&context).unwrap()` succeeds and returns the getter's result over the current leaves |
| Playground.Assign | bin/playground.rs:18-22 | a leaf write in the demo store completes, returns the previous value, and leaves a demo store over the new leaves |
| Playground.SetSkip | bin/playground.rs:18 | writing the flag returns its previous value and leaves a demo store with the new flag |
| Playground.SetFirst | bin/playground.rs:20 | writing the first name returns its previous value and leaves a demo store with the new name |
| Playground.Run | bin/playground.rs:3-24 | the program shows "World", "Hello World", "Rea World" and "World", in that order |

## Left out

- Contexts.Context.ComputedExecuteGetter: the recursion is bounded by a fuel parameter. A run that exhausts it reports `ok == false`, and then promises the frame, the reach bound and a walk of `fuel + 1` dependency edges in the final graph; closure and freshness are promised only when the cascade completes. The original recurses without bound on a dependency cycle, and completes an acyclic cascade of any depth. The walk, with `StoppedMeansCycle`, shows that fuel at least the number of computed entries runs out only on a cycle of the final graph. In a layered store that much fuel always suffices (`LayeredNeverStops`). For a store that is not layered (a getter that mentions a later id, through a `Ref` built with `Ref::new` on an id not allocated yet), completion is not proved, because recomputation can close a cycle during the cascade.
- Contexts.Context.TriggerComputeIfDependencyIsSet: same fuel bound, with the same promises when the fuel runs out. Dependents are collected in an arbitrary order (the `HashMap` iteration order is not modelled), and the contracts hold for every order.
- Contexts.Context.SetData: inherits the fuel bound. When the fuel runs out it promises the new leaf, the frame, the reach bound and the walk along which the cascade stopped, but not closure, freshness, consistency or the result value.
- Contexts.Context.ApplyWrite: a write whose target is a computed entry is skipped, succeeding with no change, instead of going through `set_computed`. Only setters that write leaves are covered.
- Contexts.Context.ApplyWrite: inherits the fuel bound of `set_data`. When the fuel runs out, only the written leaf, the frame, the reach bound and the walk are promised.
- Contexts.Context.ComputedExecuteSetter: inherits the fuel bound of `set_data` through each write. When the fuel runs out, only the frame, the reach bound and the walk are promised; which writes were applied by then is not stated.
- Contexts.Context.RunSetter: a setter write whose target is a computed entry is skipped instead of going through `set_computed`. Only leaf writes are modelled, so setters that write computed entries are not covered.
- Contexts.Context.RunSetter: inherits the fuel bound of `set_data`. When the fuel runs out, only the frame, the reach bound and the walk are promised; which writes were applied by then is not stated.
- Contexts.Context.SetComputed: promises nothing about the freshness of the overwritten entry or its dependents, because the original does not recompute them.
- Contexts.Context.SetComputed: inherits the fuel bound of its setter's writes. When the fuel runs out, the cache is untouched and only the frame, the reach bound and the walk are promised.
- ContextRefs.ContextRef.Drop: the `u64` counter is unbounded, and dropping a handle after the store was freed is excluded by its precondition.
- ContextRefs.ContextRef.Computed: the transient `self.clone()` at src/context_ref.rs:38 (which bumps the counter and drops it again) is not modelled. The same holds for `Set` (src/context_ref.rs:52) and for the store's `context_ref.clone()` calls (src/context.rs:87, 170). `get` clones nothing.
- Getters and setters are a small expression language, not arbitrary closures. Getters that define entries, write, or panic (for example `unwrap()` on a missing read) are not modelled. The demo's `unwrap()` reads are written as reads with an unused fallback.
- The demo's `println!` output is modelled as the sequence of names `Playground.Run` returns.
- The `unwrap()` inside the debug print of `get_computed` (src/context.rs:145) is not modelled. The model follows the `None` result of line 147, and console logging is left out.
- Raw pointers, `Box::into_raw`/`from_raw` and `unsafe` aliasing of the store are not modelled. Cells are values, and the store is one object shared by every handle.
- `get_mut` hands out a mutable borrow. Writing through it in place is not modelled, and the model returns the value.
- `DataStore` has no `Drop`, so its payloads leak. Memory is not modelled.
- Runtime `TypeId` reflection is replaced by three tags: bool, integer and string.
- `usize` ids and `i64`-style integers are unbounded `nat`/`int`. Overflow of the id counter is not modelled.
