/** The store (src/context.rs): id allocation, the leaf, descriptor, cache and
    dependency tables, the stack of entries being computed, and push propagation.

    Getters are run by `RunGetter`, which stands for the closure body: each of
    its reads goes through the generic dispatch `Read`, which records the edge.
    Propagation recurses without bound in the original; here it carries a
    `fuel` argument and reports `false` (or `OutOfFuel`) where the original
    would recurse deeper than the fuel allows. */
module Contexts {
  import opened Wrappers
  import opened Tags
  import opened DataStores
  import opened Computeds
  import opened Propagation

  /** The leaves after the writes of a setter, in order: a write whose target is
      a leaf replaces it, any other write is skipped. */
  function LeafWrites(data: map<nat, DataStore>, ws: seq<Write>): (r: map<nat, DataStore>)
    ensures r.Keys == data.Keys
    decreases |ws|
  {
    if ws == [] then data
    else
      var before := LeafWrites(data, ws[..|ws| - 1]);
      var w := ws[|ws| - 1];
      if w.target.id in before then before[w.target.id := DataStore.New(w.value)] else before
  }

  /** One write replaces its target if that is a leaf. */
  lemma LeafWritesOne(data: map<nat, DataStore>, w: Write)
    ensures LeafWrites(data, [w]) ==
              if w.target.id in data then data[w.target.id := DataStore.New(w.value)] else data
  {
    assert [w][..0] == [];
  }

  /** The writes of a setter apply one after the other. */
  lemma LeafWritesSnoc(data: map<nat, DataStore>, ws: seq<Write>, k: nat)
    requires k < |ws|
    ensures LeafWrites(data, ws[..k + 1]) == LeafWrites(LeafWrites(data, ws[..k]), [ws[k]])
  {
    assert ws[..k + 1][..k] == ws[..k];
    LeafWritesOne(LeafWrites(data, ws[..k]), ws[k]);
  }

  /** A leaf no write aims at keeps its value. */
  lemma {:induction false} LeafWritesUntouched(data: map<nat, DataStore>, ws: seq<Write>, id: nat)
    requires id in data
    requires forall k :: 0 <= k < |ws| ==> ws[k].target.id != id
    ensures LeafWrites(data, ws)[id] == data[id]
    decreases |ws|
  {
    if ws != [] {
      LeafWritesUntouched(data, ws[..|ws| - 1], id);
    }
  }

  /** A leaf holds the value of the last write aimed at it. */
  lemma {:induction false} LeafWritesLast(data: map<nat, DataStore>, ws: seq<Write>, k: nat)
    requires k < |ws| && ws[k].target.id in data && LastTo(ws, k)
    ensures LeafWrites(data, ws)[ws[k].target.id] == DataStore.New(ws[k].value)
    decreases |ws|
  {
    var init := ws[..|ws| - 1];
    if k < |ws| - 1 {
      assert init[k] == ws[k];
      assert LastTo(init, k);
      LeafWritesLast(data, init, k);
    }
  }

  /** No write after the `k`-th aims at the same id. */
  predicate LastTo(ws: seq<Write>, k: nat)
    requires k < |ws|
  {
    forall j :: k < j < |ws| ==> ws[j].target.id != ws[k].target.id
  }

  /** The leaves a setter's writes aim at. */
  function LeafTargets(data: map<nat, DataStore>, ws: seq<Write>): (r: set<nat>)
    ensures r <= data.Keys
    ensures forall k :: 0 <= k < |ws| && ws[k].target.id in data ==> ws[k].target.id in r
  {
    set k | 0 <= k < |ws| && ws[k].target.id in data :: ws[k].target.id
  }

  /** The `k`-th write of a setter finds its target, if that is a leaf, holding
      a value of the handle's type (after the earlier writes), so the `unwrap`
      of `set_data` succeeds. */
  predicate Fits(data: map<nat, DataStore>, ws: seq<Write>, k: nat)
    requires k < |ws|
  {
    ws[k].target.id in data ==> LeafWrites(data, ws[..k])[ws[k].target.id].typeId == ws[k].target.tag
  }

  /** Every write of the setter fits. */
  predicate WellTypedWrites(data: map<nat, DataStore>, ws: seq<Write>) {
    forall k :: 0 <= k < |ws| ==> Fits(data, ws, k)
  }

  /** What one setter write promises, from `t0` to `t1`: the leaves change as
      that write says; a write to anything but a leaf is skipped, succeeds and
      changes nothing else; a leaf write recomputes only entries reached from
      the leaf (`done`), and nothing at all when no entry depends on the leaf;
      it aborts only on a mistyped leaf, and succeeds otherwise unless the
      fuel runs out, which happens only along a walk of `fuel + 1` dependency
      edges from the leaf (`path`). */
  ghost predicate WriteApplied(t0: Tables, t1: Tables, w: Write, res: Result<()>, done: set<nat>,
                               fuel: nat, path: seq<nat>) {
    t1.data == LeafWrites(t0.data, [w]) &&
    (w.target.id !in t0.data ==> res == Ok(()) && t1 == t0 && done == {}) &&
    (w.target.id in t0.data && Dependents(t0.deps, w.target.id) == {} ==>
       done == {} && t1 == t0.(data := t1.data) && !res.OutOfFuel?) &&
    (res.OutOfFuel? ==> StoppedAlong(t1.deps, {w.target.id}, fuel, path)) &&
    Frame(t0.(data := t1.data), t1, done) &&
    Reached(t0.deps, if w.target.id in t0.data then {w.target.id} else {}, done) &&
    (res.Aborted? ==> res.panic == TypeMismatch) &&
    (!res.OutOfFuel? ==> (res.Ok? <==> w.target.id !in t0.data || t0.data[w.target.id].typeId == w.target.tag))
  }

  /** No entry depends on any leaf the writes `ws` aim at. */
  ghost predicate Unread(t: Tables, ws: seq<Write>) {
    forall l :: l in LeafTargets(t.data, ws) ==> Dependents(t.deps, l) == {}
  }

  /** What running the writes `ws` of a setter promises, from `t0` to `t1`: only
      the entries of `done` were recomputed, all reached from the leaves the
      writes aim at; no writes means nothing changes, and writes to leaves
      nothing depends on recompute nothing; it aborts only on a mistyped leaf,
      and succeeds exactly when every write fits unless the fuel runs out,
      which happens only along a walk of `fuel + 1` dependency edges from one
      of the leaves (`path`); on success the leaves are the writes applied in
      order. */
  ghost predicate SetterRan(t0: Tables, t1: Tables, ws: seq<Write>, res: Result<()>, done: set<nat>,
                            fuel: nat, path: seq<nat>) {
    Frame(t0.(data := t1.data), t1, done) && Reached(t0.deps, LeafTargets(t0.data, ws), done) &&
    (ws == [] ==> res == Ok(()) && t1 == t0 && done == {}) &&
    (Unread(t0, ws) ==> done == {} && t1 == t0.(data := t1.data) && !res.OutOfFuel?) &&
    (res.OutOfFuel? ==> StoppedAlong(t1.deps, LeafTargets(t0.data, ws), fuel, path)) &&
    (res.Aborted? ==> res.panic == TypeMismatch) &&
    (!res.OutOfFuel? ==> (res.Ok? <==> WellTypedWrites(t0.data, ws))) &&
    (res.Ok? ==> t1.data == LeafWrites(t0.data, ws))
  }

  /** What the loop over a setter's writes knows after its first `k` writes,
      from `t0` to `t`. */
  ghost predicate SetterProgress(t0: Tables, t: Tables, ws: seq<Write>, done: set<nat>, k: nat)
    requires k <= |ws|
  {
    t.data == LeafWrites(t0.data, ws[..k]) &&
    Frame(t0.(data := t.data), t, done) && Reached(t0.deps, LeafTargets(t0.data, ws), done) &&
    (Unread(t0, ws) ==> done == {} && t == t0.(data := t.data)) &&
    (forall j :: 0 <= j < k ==> Fits(t0.data, ws, j))
  }

  lemma SetterStart(t0: Tables, ws: seq<Write>)
    ensures SetterProgress(t0, t0, ws, {}, 0)
  {
    FrameRefl(t0);
    ReachedNothing(t0.deps, LeafTargets(t0.data, ws));
  }

  /** What one write of the loop, from `before` to `after`, tells about the
      whole run so far, whatever its outcome. */
  lemma SetterStepFacts(t0: Tables, before: Tables, after: Tables, ws: seq<Write>, done: set<nat>, doneX: set<nat>,
                        k: nat, res: Result<()>, fuel: nat, path: seq<nat>)
    requires k < |ws| && SetterProgress(t0, before, ws, done, k)
    requires WriteApplied(before, after, ws[k], res, doneX, fuel, path)
    ensures after.data == LeafWrites(t0.data, ws[..k + 1])
    ensures Frame(t0.(data := after.data), after, done + doneX)
    ensures Reached(t0.deps, LeafTargets(t0.data, ws), done + doneX)
    ensures Unread(t0, ws) ==> done + doneX == {} && after == t0.(data := after.data) && !res.OutOfFuel?
    ensures res.OutOfFuel? ==> StoppedAlong(after.deps, LeafTargets(t0.data, ws), fuel, path)
    ensures res.Aborted? ==> res.panic == TypeMismatch
    ensures !res.OutOfFuel? ==> (res.Ok? <==> Fits(t0.data, ws, k))
  {
    LeafWritesSnoc(t0.data, ws, k);
    if ws[k].target.id in before.data {
      assert ws[k].target.id in LeafTargets(t0.data, ws);
    }
    FrameWithData(t0.(data := before.data), before, done, after.data);
    FrameTrans(t0.(data := after.data), before.(data := after.data), after, done, doneX);
    ReachedUnion(t0.deps, before.deps, LeafTargets(t0.data, ws), done,
                 if ws[k].target.id in before.data then {ws[k].target.id} else {}, doneX);
  }

  /** One write of the loop, from `before` to `after`: the loop's facts carry
      over to the next write when it succeeds, and otherwise the setter stops
      with everything `SetterRan` promises. */
  lemma SetterStep(t0: Tables, before: Tables, after: Tables, ws: seq<Write>, done: set<nat>, doneX: set<nat>,
                   k: nat, res: Result<()>, fuel: nat, path: seq<nat>)
    requires k < |ws| && SetterProgress(t0, before, ws, done, k)
    requires WriteApplied(before, after, ws[k], res, doneX, fuel, path)
    ensures res.Ok? ==> SetterProgress(t0, after, ws, done + doneX, k + 1)
    ensures !res.Ok? ==> SetterRan(t0, after, ws, res, done + doneX, fuel, path)
  {
    SetterStepFacts(t0, before, after, ws, done, doneX, k, res, fuel, path);
    if res.Aborted? {
      assert !WellTypedWrites(t0.data, ws);
    }
  }

  /** After the last write, the setter has run to completion. */
  lemma SetterEnd(t0: Tables, t: Tables, ws: seq<Write>, done: set<nat>, fuel: nat, path: seq<nat>)
    requires SetterProgress(t0, t, ws, done, |ws|)
    ensures SetterRan(t0, t, ws, Ok(()), done, fuel, path)
  {
    assert ws[..|ws|] == ws;
    if ws == [] {
      assert LeafTargets(t0.data, ws) == {};
    }
  }

  /** What `set_data` promises for a handle `r` on a leaf of `t0`, ending in
      `t1`: the leaf holds `d`; only the entries of `done` were recomputed, all
      of them reached from the leaf along dependency edges, and none when
      nothing depends on it; the result is the previous value when it has the
      handle's type and a mismatch abort otherwise; the cascade runs out of
      fuel only along a walk of `fuel + 1` dependency edges from the leaf
      (`path`); and when it completes, everything depending on the leaf or on
      a recomputed entry was recomputed, and a consistent store stays
      consistent. */
  ghost predicate LeafWritten(t0: Tables, t1: Tables, r: DataRef, d: Payload, res: Result<Payload>, done: set<nat>,
                              fuel: nat, path: seq<nat>)
    requires r.id in t0.data
  {
    t1.data == t0.data[r.id := DataStore.New(d)] &&
    Frame(t0.(data := t1.data), t1, done) && Reached(t0.deps, {r.id}, done) &&
    (Dependents(t0.deps, r.id) == {} ==> done == {} && t1 == t0.(data := t1.data) && !res.OutOfFuel?) &&
    (res.OutOfFuel? ==> StoppedAlong(t1.deps, {r.id}, fuel, path)) &&
    (res.Ok? || res.OutOfFuel? || res == Aborted(TypeMismatch)) &&
    (res.Ok? ==> res.value == t0.data[r.id].data) &&
    (!res.OutOfFuel? ==>
       (res.Ok? <==> t0.data[r.id].typeId == r.tag) && Settled(t1, done, {r.id}) &&
       (AllConsistent(t0) ==> AllConsistent(t1)))
  }

  /** What `set_computed` promises for a handle `r` on a computed entry of
      `t0`, ending in `t1`, with `afterSetter` the tables once the setter's own
      writes have propagated and `done` what they recomputed:
      - a handle of the wrong type aborts in the setter's `unwrap` before
        anything changes;
      - otherwise the setter's writes recompute only entries reached from the
        leaves they aim at; a setter without writes changes nothing, writes
        to leaves nothing depends on recompute nothing, and neither can run
        out of fuel; the fuel runs out only along a walk of `fuel + 1`
        dependency edges from one of those leaves (`path`);
      - unless the fuel runs out, it succeeds exactly when every write fits and
        the entry has a cache; a misfitting write aborts with the cache
        untouched; once the writes are done the leaves hold them and the cache
        holds `d` (the `expect` aborts after that insertion when there was no
        cache);
      - on success the result is what the cache held once the setter's writes
        had propagated, a later read sees `d`, and in a consistent store every
        other entry not reading this one stays fresh. */
  ghost predicate CacheWritten(t0: Tables, afterSetter: Tables, t1: Tables, r: DataRef, d: Payload,
                               res: Result<Payload>, done: set<nat>, fuel: nat, path: seq<nat>)
    requires r.id in t0.computed
  {
    var s := t0.computed[r.id];
    var ws := s.source.Set(d);
    (s.tag != r.tag ==> res == Aborted(TypeMismatch) && afterSetter == t0 && t1 == t0 && done == {}) &&
    (s.tag == r.tag ==>
       Frame(t0.(data := afterSetter.data), afterSetter, done) &&
       Reached(t0.deps, LeafTargets(t0.data, ws), done) &&
       (r.id in t0.cache ==> r.id in afterSetter.cache) &&
       (ws == [] ==> afterSetter == t0 && done == {} && !res.OutOfFuel?) &&
       (Unread(t0, ws) ==> done == {} && afterSetter == t0.(data := afterSetter.data) && !res.OutOfFuel?) &&
       (res.OutOfFuel? ==> StoppedAlong(afterSetter.deps, LeafTargets(t0.data, ws), fuel, path)) &&
       (!res.OutOfFuel? ==> (res.Ok? <==> WellTypedWrites(t0.data, ws) && r.id in afterSetter.cache)) &&
       (!res.OutOfFuel? && !WellTypedWrites(t0.data, ws) ==> res == Aborted(TypeMismatch) && t1 == afterSetter) &&
       (!res.OutOfFuel? && WellTypedWrites(t0.data, ws) ==>
          afterSetter.data == LeafWrites(t0.data, ws) &&
          t1 == afterSetter.(cache := afterSetter.cache[r.id := DataStore.New(d)]) &&
          (r.id !in afterSetter.cache ==> res == Aborted(MissingCache)))) &&
    (res.OutOfFuel? ==> t1 == afterSetter) &&
    (res.Ok? ==>
       res.value == afterSetter.cache[r.id].data &&
       Lookup(ViewOf(t1), r.id, r.tag) == Some(d) &&
       (AllConsistent(t0) ==>
          AllConsistent(afterSetter) &&
          forall x :: x in t1.computed && x != r.id && r.id !in DepsOf(t1.deps, x) ==> Fresh(t1, x)))
  }

  /** A computed entry whose setter writes nothing, written with a handle of
      its own type while it has a cache: the result is the cache as it was,
      and only the cache changes. This covers a bare-getter computed, whose
      setter does nothing. */
  lemma SilentSetterWrite(t0: Tables, afterSetter: Tables, t1: Tables, r: DataRef, d: Payload,
                          res: Result<Payload>, done: set<nat>, fuel: nat, path: seq<nat>)
    requires r.id in t0.computed && r.id in t0.cache
    requires t0.computed[r.id].tag == r.tag && t0.computed[r.id].source.Set(d) == []
    requires CacheWritten(t0, afterSetter, t1, r, d, res, done, fuel, path)
    ensures res == Ok(t0.cache[r.id].data)
    ensures t1 == t0.(cache := t0.cache[r.id := DataStore.New(d)]) && done == {}
  {
  }

  /** What `computed_execute_setter` promises, from `t0` to `t1`: a missing
      descriptor or a cell not of the entry's type aborts and changes nothing;
      otherwise the entry's setter runs its writes for the cell's value with
      everything `SetterRan` promises. */
  ghost predicate SetterDispatched(t0: Tables, t1: Tables, id: nat, cell: DataStore, res: Result<()>,
                                   done: set<nat>, fuel: nat, path: seq<nat>) {
    (id !in t0.computed ==> res == Aborted(MissingComputed) && t1 == t0 && done == {}) &&
    (id in t0.computed && cell.typeId != t0.computed[id].tag ==> res == Aborted(TypeMismatch) && t1 == t0 && done == {}) &&
    (id in t0.computed && cell.typeId == t0.computed[id].tag ==>
       SetterRan(t0, t1, t0.computed[id].source.Set(cell.data), res, done, fuel, path))
  }

  /** `set_computed` when the setter's run (`ran`, from `t0` to
      `afterSetter`, recomputing `done`) does not succeed: the cache is left
      alone and the run's outcome is the result. */
  lemma CacheWrittenStopped(t0: Tables, afterSetter: Tables, r: DataRef, d: Payload, ran: Result<()>,
                            res: Result<Payload>, done: set<nat>, fuel: nat, path: seq<nat>)
    requires r.id in t0.computed && TagOf(d) == r.tag && !ran.Ok?
    requires SetterDispatched(t0, afterSetter, r.id, DataStore.New(d), ran, done, fuel, path)
    requires res == if ran.OutOfFuel? then OutOfFuel else Aborted(ran.panic)
    ensures CacheWritten(t0, afterSetter, afterSetter, r, d, res, done, fuel, path)
  {
    var ws := t0.computed[r.id].source.Set(d);
    assert t0.computed[r.id].tag == r.tag && !res.OutOfFuel? ==> !WellTypedWrites(t0.data, ws);
  }

  /** `set_computed` when the setter's run succeeds: the cache, found as
      `previous` once the writes have propagated, is swapped for `d`, ending
      in `t1`. */
  lemma CacheWrittenSwapped(t0: Tables, afterSetter: Tables, t1: Tables, next: nat, r: DataRef, d: Payload,
                            previous: Option<DataStore>, res: Result<Payload>, done: set<nat>, fuel: nat, path: seq<nat>)
    requires r.id in t0.computed && TagOf(d) == r.tag && TablesValid(afterSetter, next)
    requires SetterDispatched(t0, afterSetter, r.id, DataStore.New(d), Ok(()), done, fuel, path)
    requires AllConsistent(t0) ==> AllConsistent(afterSetter)
    requires previous.Some? <==> r.id in afterSetter.cache
    requires previous.Some? ==> previous.value == afterSetter.cache[r.id]
    requires t1 == afterSetter.(cache := afterSetter.cache[r.id := DataStore.New(d)])
    requires previous.None? ==> res == Aborted(MissingCache)
    requires previous.Some? ==>
               res == if previous.value.typeId == r.tag then Ok(previous.value.data) else Aborted(TypeMismatch)
    ensures CacheWritten(t0, afterSetter, t1, r, d, res, done, fuel, path)
  {
    assert WellTypedWrites(t0.data, t0.computed[r.id].source.Set(d));
    if res.Ok? {
      assert t1.cache[r.id] == DataStore.New(d);
      if AllConsistent(t0) {
        OverwriteKeepsOthers(afterSetter, r.id, DataStore.New(d));
      }
    }
  }

  /** In layered tables whose edges point at older ids (as every store built
      by `data` and `computed` over existing entries is), `set_data` with at
      least as much fuel as there are computed entries completes: everything
      depending on the leaf is recomputed and fresh, a consistent store stays
      consistent, and the tables stay layered. */
  lemma LayeredWriteCompletes(t0: Tables, t1: Tables, r: DataRef, d: Payload, res: Result<Payload>,
                              done: set<nat>, fuel: nat, path: seq<nat>)
    requires r.id in t0.data && LeafWritten(t0, t1, r, d, res, done, fuel, path)
    requires t1.deps.Keys <= t1.computed.Keys
    requires Layered(t0) && Downward(t0.deps) && fuel >= |t0.computed.Keys|
    ensures !res.OutOfFuel? && Settled(t1, done, {r.id}) && (AllConsistent(t0) ==> AllConsistent(t1))
    ensures Layered(t1) && Downward(t1.deps)
  {
    LayeredNeverStops(t0.(data := t1.data), t1, done, {r.id}, fuel, path);
  }

  /** In layered tables whose edges point at older ids, a setter's writes
      with at least as much fuel as there are computed entries complete:
      they succeed exactly when every write fits, and then the leaves hold
      the writes in order. */
  lemma LayeredSetterCompletes(t0: Tables, t1: Tables, ws: seq<Write>, res: Result<()>, done: set<nat>,
                               fuel: nat, path: seq<nat>)
    requires SetterRan(t0, t1, ws, res, done, fuel, path) && t1.deps.Keys <= t1.computed.Keys
    requires Layered(t0) && Downward(t0.deps) && fuel >= |t0.computed.Keys|
    ensures !res.OutOfFuel? && (res.Ok? <==> WellTypedWrites(t0.data, ws))
    ensures res.Ok? ==> t1.data == LeafWrites(t0.data, ws)
    ensures Layered(t1) && Downward(t1.deps)
  {
    LayeredNeverStops(t0.(data := t1.data), t1, done, LeafTargets(t0.data, ws), fuel, path);
  }

  /** In layered tables whose edges point at older ids, `set_computed` with at
      least as much fuel as there are computed entries completes: with a
      handle of the entry's type it succeeds exactly when every write of the
      setter fits and the entry has a cache, and a later read sees `d`. */
  lemma LayeredCacheWriteCompletes(t0: Tables, afterSetter: Tables, t1: Tables, r: DataRef, d: Payload,
                                   res: Result<Payload>, done: set<nat>, fuel: nat, path: seq<nat>)
    requires r.id in t0.computed && CacheWritten(t0, afterSetter, t1, r, d, res, done, fuel, path)
    requires t1.deps.Keys <= t1.computed.Keys
    requires Layered(t0) && Downward(t0.deps) && fuel >= |t0.computed.Keys|
    ensures !res.OutOfFuel?
    ensures t0.computed[r.id].tag == r.tag ==>
              (res.Ok? <==> WellTypedWrites(t0.data, t0.computed[r.id].source.Set(d)) && r.id in afterSetter.cache)
    ensures res.Ok? ==> Lookup(ViewOf(t1), r.id, r.tag) == Some(d)
    ensures Layered(t1) && Downward(t1.deps)
  {
    if t0.computed[r.id].tag == r.tag {
      assert afterSetter.deps == t1.deps && afterSetter.computed == t1.computed;
      LayeredNeverStops(t0.(data := afterSetter.data), afterSetter, done,
                        LeafTargets(t0.data, t0.computed[r.id].source.Set(d)), fuel, path);
    }
  }

  class Context {
    var nextId: nat
    var data: map<nat, DataStore>
    var computed: map<nat, ComputedStore>
    var computedData: map<nat, DataStore>
    var currentlyComputing: seq<nat>
    var dependencies: map<nat, set<nat>>

    /** The tables as one value. */
    function Snapshot(): Tables
      reads this
    {
      Tables(data, computed, computedData, dependencies)
    }

    /** What a getter run now would see. */
    function View(): (v: View)
      reads this
      ensures v == ViewOf(Snapshot())
    {
      Computeds.View(data, computed.Keys, computedData)
    }

    /** The store's invariant: well-formed tables, edges only to allocated ids,
        and only computed entries on the stack. */
    ghost predicate Valid()
      reads this
    {
      StoreValid(Snapshot(), nextId, currentlyComputing)
    }

    /** Every descriptor carries the setter `ComputedStore::new` installs. */
    predicate SettersInstalled()
      reads this`computed
    {
      forall i :: i in computed ==> computed[i].hasSetter
    }

    /** The known ids: every leaf and computed entry. */
    function Known(): set<nat>
      reads this
    {
      data.Keys + computed.Keys
    }

    /** `Context::new`: everything empty, ids start at 0. */
    constructor ()
      ensures Valid() && AllConsistent(Snapshot())
      ensures nextId == 0 && data == map[] && computed == map[] && computedData == map[]
      ensures currentlyComputing == [] && dependencies == map[]
    {
      nextId := 0;
      data := map[];
      computed := map[];
      computedData := map[];
      currentlyComputing := [];
      dependencies := map[];
    }

    /** `next_id`: hand out the counter and advance it by one. */
    method NextId() returns (id: nat)
      modifies this`nextId
      ensures id == old(nextId) && nextId == old(nextId) + 1
      ensures old(Valid()) ==> Valid() && id !in Known()
    {
      id := nextId;
      nextId := nextId + 1;
    }

    /** `ref_is_data`. */
    predicate RefIsData(r: DataRef)
      reads this
      ensures RefIsData(r) <==> r.id in data
      ensures RefIsData(r) && Valid() ==> !RefIsComputed(r)
    {
      r.id in data
    }

    /** `ref_is_computed`. */
    predicate RefIsComputed(r: DataRef)
      reads this
      ensures RefIsComputed(r) <==> r.id in computed
    {
      r.id in computed
    }

    /** `add_dependency_if_computing`. */
    method AddDependencyIfComputing(dependency: nat)
      modifies this`dependencies
      ensures dependencies == WithEdge(old(dependencies), currentlyComputing, dependency)
      ensures old(Valid()) && (currentlyComputing == [] || dependency < nextId) ==> Valid()
    {
      if |currentlyComputing| > 0 {
        var top := currentlyComputing[|currentlyComputing| - 1];
        var current := if top in dependencies then dependencies[top] else {};
        dependencies := dependencies[top := current + {dependency}];
      }
    }

    /** `get_data`: record the read, then return the leaf's value if it has the
        requested type. */
    method GetData(r: DataRef) returns (v: Option<Payload>)
      modifies this`dependencies
      ensures dependencies == WithEdge(old(dependencies), currentlyComputing, r.id)
      ensures v.Some? <==> r.id in data && data[r.id].typeId == r.tag
      ensures v.Some? ==> v.value == data[r.id].data
    {
      AddDependencyIfComputing(r.id);
      if r.id in data {
        v := data[r.id].GetRef(r.tag);
      } else {
        v := None;
      }
    }

    /** `get_computed`: record the read, then return the cached result if it has
        the requested type. The getter is not run. */
    method GetComputed(r: DataRef) returns (v: Option<Payload>)
      modifies this`dependencies
      ensures dependencies == WithEdge(old(dependencies), currentlyComputing, r.id)
      ensures v.Some? <==> r.id in computedData && computedData[r.id].typeId == r.tag
      ensures v.Some? ==> v.value == computedData[r.id].data
    {
      AddDependencyIfComputing(r.id);
      if r.id in computedData {
        v := computedData[r.id].GetRef(r.tag);
      } else {
        v := None;
      }
    }

    /** The generic read `ContextRef::get`: the leaf path for a leaf, the computed
        path for a computed entry, and nothing (and no edge) for an unknown id. */
    method Read(r: DataRef) returns (v: Option<Payload>)
      modifies this`dependencies
      ensures v == Lookup(View(), r.id, r.tag)
      ensures dependencies ==
        if Recorded(View(), r.id) then WithEdge(old(dependencies), currentlyComputing, r.id) else old(dependencies)
    {
      if RefIsData(r) {
        v := GetData(r);
      } else if RefIsComputed(r) {
        v := GetComputed(r);
      } else {
        v := None;
      }
    }

    /** Run a getter's body with the entry being computed on top of the stack:
        it returns what the getter evaluates to and records each of its reads
        as a dependency of that entry. */
    method RunGetter(g: Getter) returns (v: Payload)
      requires |currentlyComputing| > 0
      modifies this`dependencies
      decreases g, 1
      ensures v == Eval(g, View())
      ensures dependencies == WithEdges(old(dependencies), currentlyComputing[|currentlyComputing| - 1], Reads(g, View()))
    {
      ghost var vw := View();
      ReadsSplit(g, vw);
      match g
      case Const(p) =>
        v := p;
      case ReadOr(id, tag, fallback) =>
        var r := Read(DataRef(id, tag));
        v := if r.Some? then r.value else fallback;
        WithEdgeIsWithEdges(old(dependencies), currentlyComputing, id);
      case Cond(_, _, _) =>
        v := RunCond(g);
      case Join(_, _, _) =>
        v := RunJoin(g);
      case Times(a, k) =>
        var x := RunGetter(a);
        v := IntVal(AsInt(x) * k);
    }

    /** A conditional getter: run the test, then the branch it selects. */
    method RunCond(g: Getter) returns (v: Payload)
      requires |currentlyComputing| > 0 && g.Cond?
      modifies this`dependencies
      decreases g, 0
      ensures v == Eval(g, View())
      ensures dependencies == WithEdges(old(dependencies), currentlyComputing[|currentlyComputing| - 1], Reads(g, View()))
    {
      ghost var vw := View();
      ghost var d0 := dependencies;
      var top := currentlyComputing[|currentlyComputing| - 1];
      ReadsSplit(g, vw);
      var t := RunGetter(g.test);
      assert View() == vw;
      ghost var d1 := dependencies;
      assert d1 == WithEdges(d0, top, Reads(g.test, vw));
      var branch := if AsBool(t) then g.ifTrue else g.ifFalse;
      v := RunGetter(branch);
      assert View() == vw;
      assert dependencies == WithEdges(d1, top, Reads(branch, vw));
      WithEdgesTwice(d0, top, Reads(g.test, vw), Reads(branch, vw));
    }

    /** A string join: run the left getter, then the right one. */
    method RunJoin(g: Getter) returns (v: Payload)
      requires |currentlyComputing| > 0 && g.Join?
      modifies this`dependencies
      decreases g, 0
      ensures v == Eval(g, View())
      ensures dependencies == WithEdges(old(dependencies), currentlyComputing[|currentlyComputing| - 1], Reads(g, View()))
    {
      ghost var vw := View();
      ghost var d0 := dependencies;
      var top := currentlyComputing[|currentlyComputing| - 1];
      ReadsSplit(g, vw);
      var x := RunGetter(g.left);
      assert View() == vw;
      ghost var d1 := dependencies;
      assert d1 == WithEdges(d0, top, Reads(g.left, vw));
      var y := RunGetter(g.right);
      assert View() == vw;
      assert dependencies == WithEdges(d1, top, Reads(g.right, vw));
      WithEdgesTwice(d0, top, Reads(g.left, vw), Reads(g.right, vw));
      v := StrVal(AsStr(x) + g.sep + AsStr(y));
    }

    /** The first half of `computed_execute_getter`: push `id`, run its
        getter (its reads become `id`'s dependencies), pop, and cache the
        result. The tables end up exactly as `Recompute` describes. */
    method Evaluate(id: nat)
      requires Valid() && id in computed
      modifies this`computedData, this`dependencies, this`currentlyComputing
      ensures Valid() && currentlyComputing == old(currentlyComputing)
      ensures Snapshot() == Recompute(old(Snapshot()), id)
    {
      ghost var t0 := Snapshot();
      var store := computed[id];
      currentlyComputing := currentlyComputing + [id];
      var value := RunGetter(store.source.getter);
      currentlyComputing := currentlyComputing[..|currentlyComputing| - 1];
      computedData := computedData[id := DataStore.New(value)];
      assert Snapshot() == Recompute(t0, id);
      RecomputeKeepsValid(t0, nextId, id);
    }

    /** `computed_execute_getter`: push `id`, run its getter (its reads become
        `id`'s dependencies), pop, cache the result, then propagate from `id`.
        `done` is the set of entries recomputed, `id` among them, all reached
        from `id` along dependency edges; if nothing depends on `id` once it is
        evaluated, `id` alone is recomputed and the cascade completes. When the
        cascade completes: every entry that depends on a recomputed entry was
        itself recomputed, every recomputed entry is fresh against the final
        tables, and none depends on itself (a self-dependency never completes).
        The cascade stops only along `path`: a walk of `fuel + 1` dependency
        edges from `id` in the final graph. */
    method ComputedExecuteGetter(id: nat, fuel: nat) returns (ok: bool, ghost done: set<nat>, ghost path: seq<nat>)
      requires Valid() && id in computed
      modifies this`computedData, this`dependencies, this`currentlyComputing
      decreases fuel, 1
      ensures Valid() && currentlyComputing == old(currentlyComputing)
      ensures id in done && id in computedData && Frame(old(Snapshot()), Snapshot(), done)
      ensures Reached(old(dependencies), {id}, done)
      ensures ok ==> id !in Reads(computed[id].source.getter, ViewOf(old(Snapshot())))
      ensures Dependents(Recompute(old(Snapshot()), id).deps, id) == {} ==>
                ok && done == {id} && Snapshot() == Recompute(old(Snapshot()), id)
      ensures ok ==> Settled(Snapshot(), done, {})
      ensures !ok ==> StoppedAlong(dependencies, {id}, fuel, path)
    {
      ghost var t0 := Snapshot();
      Evaluate(id);
      ghost var t1 := Snapshot();
      var okRest; ghost var rest;
      okRest, rest, path := TriggerComputeIfDependencyIsSet(id, fuel);
      ok := okRest;
      done := rest + {id};
      ExecuteGetterSteps(t0, t1, Snapshot(), id, rest, ok);
    }

    /** The collection pass of `trigger_compute_if_dependency_is_set`: every
        entry whose dependency set contains `dependency`, each taken once, in
        the map's arbitrary order. */
    method CollectDependents(dependency: nat) returns (toCompute: seq<nat>)
      ensures forall x :: x in toCompute <==> x in Dependents(dependencies, dependency)
      ensures forall i, j :: 0 <= i < j < |toCompute| ==> toCompute[i] != toCompute[j]
    {
      toCompute := [];
      var pending := dependencies.Keys;
      while pending != {}
        invariant pending <= dependencies.Keys
        invariant forall i, j :: 0 <= i < j < |toCompute| ==> toCompute[i] != toCompute[j]
        invariant forall x :: x in toCompute ==> x !in pending
        invariant forall x :: x in toCompute ==> dependency in DepsOf(dependencies, x)
        invariant forall x :: dependency in DepsOf(dependencies, x) ==> x in toCompute || x in pending
        decreases pending
      {
        var x :| x in pending;
        if dependency in dependencies[x] {
          toCompute := toCompute + [x];
        }
        pending := pending - {x};
      }
    }

    /** `trigger_compute_if_dependency_is_set`: collect every entry whose
        dependency set contains `dependency` (in the map's arbitrary order), then
        recompute each. Only entries reached from `dependency` along dependency
        edges are recomputed, and none at all when nothing depends on it. When
        the cascade completes, every entry that depends on `dependency` or on a
        recomputed entry has been recomputed and is fresh. The cascade stops
        only along `path`: a walk of `fuel + 1` dependency edges from
        `dependency` in the final graph. */
    method TriggerComputeIfDependencyIsSet(dependency: nat, fuel: nat)
      returns (ok: bool, ghost done: set<nat>, ghost path: seq<nat>)
      requires Valid()
      modifies this`computedData, this`dependencies, this`currentlyComputing
      decreases fuel, 0
      ensures Valid() && currentlyComputing == old(currentlyComputing)
      ensures Frame(old(Snapshot()), Snapshot(), done) && Reached(old(dependencies), {dependency}, done)
      ensures Dependents(old(dependencies), dependency) == {} ==> ok && done == {} && Snapshot() == old(Snapshot())
      ensures ok ==> Settled(Snapshot(), done, {dependency})
      ensures !ok ==> StoppedAlong(dependencies, {dependency}, fuel, path)
    {
      var toCompute := CollectDependents(dependency);
      ghost var t0 := Snapshot();
      forall x | x in toCompute
        ensures x in computed && dependency in DepsOf(t0.deps, x)
      {
        assert x in Dependents(dependencies, dependency);
      }
      assert Dependents(dependencies, dependency) == {} ==> toCompute == [] by {
        if toCompute != [] {
          assert toCompute[0] in Dependents(dependencies, dependency);
        }
      }
      ok := true;
      done := {};
      path := [];
      ProgressStart(t0, dependency, toCompute);
      ReachedNothing(t0.deps, {dependency});
      var i := 0;
      while i < |toCompute|
        invariant 0 <= i <= |toCompute| && ok
        invariant Valid() && currentlyComputing == old(currentlyComputing)
        invariant forall x :: x in toCompute ==> x in computed && dependency in DepsOf(t0.deps, x)
        invariant Progress(t0, Snapshot(), done, dependency, toCompute, i)
        invariant Reached(t0.deps, {dependency}, done)
        invariant i == 0 ==> done == {} && Snapshot() == t0
      {
        if fuel == 0 {
          StopFirst(t0, Snapshot(), done, dependency, toCompute, i);
          path := [dependency, toCompute[i]];
          ok := false;
          return;
        }
        var x := toCompute[i];
        ghost var before := Snapshot();
        ghost var doneBefore := done;
        var okX, doneX, pathX := ComputedExecuteGetter(x, fuel - 1);
        done := doneBefore + doneX;
        ReachedStep(t0.deps, before.deps, dependency, doneBefore, x, doneX);
        if !okX {
          StopStep(t0, before, Snapshot(), doneBefore, doneX, dependency, toCompute, i, fuel - 1, pathX);
          path := [dependency] + pathX;
          ok := false;
          return;
        }
        PropagateStep(t0, before, Snapshot(), doneBefore, doneX, dependency, toCompute, i);
        i := i + 1;
      }
      ProgressEnd(t0, Snapshot(), done, dependency, toCompute);
    }

    /** `data`: allocate an id and store a leaf under it. Nothing is recomputed:
        no entry can depend on an id that did not exist. */
    method Data(d: Payload) returns (r: DataRef)
      requires Valid()
      modifies this`nextId, this`data
      ensures Valid()
      ensures r == DataRef(old(nextId), TagOf(d)) && nextId == old(nextId) + 1
      ensures r.id !in old(Known())
      ensures data == old(data)[r.id := DataStore.New(d)]
      ensures old(AllConsistent(Snapshot())) ==> AllConsistent(Snapshot())
    {
      ghost var t0 := Snapshot();
      var id := NextId();
      data := data[id := DataStore.New(d)];
      r := DataRef(id, TagOf(d));
      NewLeafKeepsValid(t0, id, DataStore.New(d));
      assert Snapshot() == t0.(data := t0.data[id := DataStore.New(d)]);
      if AllConsistent(t0) {
        NewLeafKeepsConsistent(t0, id, DataStore.New(d));
      }
    }

    /** The insertion of `set_data`: store the cell under `id` and hand back
        what was stored there before, if anything. */
    method ReplaceLeaf(id: nat, c: DataStore) returns (previous: Option<DataStore>)
      modifies this`data
      ensures data == old(data)[id := c]
      ensures previous.Some? <==> id in old(data)
      ensures previous.Some? ==> previous.value == old(data)[id]
      ensures old(Valid()) && id in old(data) && c.Valid() ==> Valid()
    {
      ghost var t0 := Snapshot();
      previous := if id in data then Some(data[id]) else None;
      data := data[id := c];
      if StoreValid(t0, nextId, currentlyComputing) && id in t0.data && c.Valid() {
        LeafWriteKeepsValid(t0, nextId, id, c);
        assert Snapshot() == t0.(data := t0.data[id := c]);
      }
    }

    /** `set_data`: replace the leaf, propagate from it, and return the previous
        value. The insertion happens first; `expect` then aborts if there was no
        previous leaf, and `unwrap` aborts after propagation if the previous
        value is not of the handle's type. When propagation completes, every
        entry depending on the leaf (directly, or through recomputed entries)
        has been recomputed, and a consistent store stays consistent. */
    method SetData(r: DataRef, d: Payload, fuel: nat)
      returns (res: Result<Payload>, ghost done: set<nat>, ghost path: seq<nat>)
      requires Valid() && TagOf(d) == r.tag
      modifies this`data, this`computedData, this`dependencies, this`currentlyComputing
      ensures data == old(data)[r.id := DataStore.New(d)] && currentlyComputing == old(currentlyComputing)
      ensures r.id !in old(data) ==>
                res == Aborted(MissingLeaf) && done == {} &&
                computedData == old(computedData) && dependencies == old(dependencies)
      ensures r.id in old(data) ==> Valid() && LeafWritten(old(Snapshot()), Snapshot(), r, d, res, done, fuel, path)
    {
      ghost var t0 := Snapshot();
      var previous := ReplaceLeaf(r.id, DataStore.New(d));
      if previous.None? {
        res := Aborted(MissingLeaf);
        done, path := {}, [];
        return;
      }
      var ok;
      ok, done, path := TriggerComputeIfDependencyIsSet(r.id, fuel);
      if !ok {
        res := OutOfFuel;
        return;
      }
      if AllConsistent(t0) {
        WriteKeepsConsistent(t0, Snapshot(), r.id, DataStore.New(d), done);
      }
      var v := previous.value.Get(r.tag);
      if v.None? {
        res := Aborted(TypeMismatch);
      } else {
        res := Ok(v.value);
      }
    }

    /** The first half of `computed`: allocate an id and store the descriptor
        under it, not yet evaluated. */
    method DefineComputed(c: Computeds.Computed, tag: Tag) returns (id: nat)
      requires Valid() && c.Typed(tag)
      modifies this`nextId, this`computed
      ensures Valid() && (old(SettersInstalled()) ==> SettersInstalled())
      ensures id == old(nextId) && nextId == old(nextId) + 1 && id !in old(Known())
      ensures Snapshot() == Define(old(Snapshot()), id, ComputedStore.New(c, tag))
    {
      ghost var t0 := Snapshot();
      id := NextId();
      var store := ComputedStore.New(c, tag);
      computed := computed[id := store];
      DefineKeepsValid(t0, id, store);
      assert Snapshot() == Define(t0, id, store);
    }

    /** `computed`: allocate an id, store the descriptor, and evaluate it once
        with the new id on the stack. After it returns the cache holds the
        getter's result against the tables as they were at definition. The
        evaluation completes exactly when the getter does not read the new
        entry itself (a read of itself recurses without end), which is always
        so when it only mentions ids allocated before. */
    method Computed(c: Computeds.Computed, tag: Tag, fuel: nat) returns (r: DataRef, ok: bool)
      requires Valid() && c.Typed(tag)
      modifies this`nextId, this`computed, this`computedData, this`dependencies, this`currentlyComputing
      ensures Valid() && (old(SettersInstalled()) ==> SettersInstalled())
      ensures r == DataRef(old(nextId), tag) && nextId == old(nextId) + 1 && r.id !in old(Known())
      ensures data == old(data) && computed == old(computed)[r.id := ComputedStore.New(c, tag)]
      ensures currentlyComputing == old(currentlyComputing) && r.id in computedData
      ensures ok <==> r.id !in Reads(c.getter, ViewOf(Define(old(Snapshot()), r.id, ComputedStore.New(c, tag))))
      ensures Ids(c.getter) <= old(Known()) ==> ok
      ensures ok ==> Snapshot() == Recompute(Define(old(Snapshot()), r.id, ComputedStore.New(c, tag)), r.id)
      ensures old(AllConsistent(Snapshot())) && Ids(c.getter) <= old(Known()) ==> AllConsistent(Snapshot())
    {
      ghost var t0 := Snapshot();
      var id := DefineComputed(c, tag);
      r := DataRef(id, tag);
      ghost var store := ComputedStore.New(c, tag);
      ghost var t1 := Define(t0, id, store);
      if id !in Reads(c.getter, ViewOf(t1)) {
        DefineHasNoDependents(t0, id, store);
      }
      if Ids(c.getter) <= KnownIds(t0) {
        TouchedInIds(c.getter, ViewOf(t1));
      }
      ghost var done, path;
      ok, done, path := ComputedExecuteGetter(id, fuel);
      if ok && AllConsistent(t0) && Ids(c.getter) <= KnownIds(t0) {
        DefineKeepsConsistent(t0, id, store);
      }
    }

    /** Every computed entry's cache is up to date and fully tracked. */
    ghost predicate Consistent()
      reads this
    {
      AllConsistent(Snapshot())
    }

    /** One write of a setter through the generic `set`: a write to a leaf is
        `set_data` and propagates (`done` is what that recomputed); any other
        write is skipped. */
    method ApplyWrite(w: Write, fuel: nat) returns (res: Result<()>, ghost done: set<nat>, ghost path: seq<nat>)
      requires Valid() && TagOf(w.value) == w.target.tag
      modifies this`data, this`computedData, this`dependencies, this`currentlyComputing
      ensures Valid() && currentlyComputing == old(currentlyComputing)
      ensures WriteApplied(old(Snapshot()), Snapshot(), w, res, done, fuel, path)
      ensures res.Ok? && old(Consistent()) ==> Consistent()
    {
      ghost var t0 := Snapshot();
      LeafWritesOne(data, w);
      if w.target.id in data {
        var r;
        r, done, path := SetData(w.target, w.value, fuel);
        res := if r.OutOfFuel? then OutOfFuel else if r.Aborted? then Aborted(r.panic) else Ok(());
      } else {
        res := Ok(());
        done, path := {}, [];
        FrameRefl(t0);
        ReachedNothing(t0.deps, {});
      }
    }

    /** The writes of a setter, in order, each through the generic `set`: a
        write to a leaf is `set_data` and propagates; any other write is skipped.
        The first abort or exhausted cascade stops the setter. `done` is every
        entry recomputed along the way. */
    method RunSetter(ws: seq<Write>, fuel: nat) returns (res: Result<()>, ghost done: set<nat>, ghost path: seq<nat>)
      requires Valid()
      requires forall k :: 0 <= k < |ws| ==> TagOf(ws[k].value) == ws[k].target.tag
      modifies this`data, this`computedData, this`dependencies, this`currentlyComputing
      ensures Valid() && currentlyComputing == old(currentlyComputing)
      ensures SetterRan(old(Snapshot()), Snapshot(), ws, res, done, fuel, path)
      ensures res.Ok? && old(Consistent()) ==> Consistent()
    {
      ghost var t0 := Snapshot();
      ghost var consistent := Consistent();
      done, path := {}, [];
      SetterStart(t0, ws);
      var k := 0;
      while k < |ws|
        invariant 0 <= k <= |ws|
        invariant Valid() && currentlyComputing == old(currentlyComputing)
        invariant SetterProgress(t0, Snapshot(), ws, done, k)
        invariant consistent ==> Consistent()
      {
        ghost var before := Snapshot();
        ghost var doneX;
        res, doneX, path := ApplyWrite(ws[k], fuel);
        SetterStep(t0, before, Snapshot(), ws, done, doneX, k, res, fuel, path);
        done := done + doneX;
        if !res.Ok? {
          return;
        }
        k := k + 1;
      }
      SetterEnd(t0, Snapshot(), ws, done, fuel, path);
      res := Ok(());
    }

    /** `computed_execute_setter`: look the descriptor up (`expect` aborts when
        it is missing) and hand it the new cell; its setter extracts the cell at
        the computed's type (`unwrap` aborts on a mismatch) and runs its writes,
        recomputing `done`. */
    method ComputedExecuteSetter(id: nat, cell: DataStore, fuel: nat)
      returns (res: Result<()>, ghost done: set<nat>, ghost path: seq<nat>)
      requires Valid() && SettersInstalled() && cell.Valid()
      modifies this`data, this`computedData, this`dependencies, this`currentlyComputing
      ensures Valid() && currentlyComputing == old(currentlyComputing)
      ensures SetterDispatched(old(Snapshot()), Snapshot(), id, cell, res, done, fuel, path)
      ensures res.Ok? && old(Consistent()) ==> Consistent()
    {
      done := {};
      if id !in computed {
        return Aborted(MissingComputed), done, [];
      }
      var store := computed[id];
      var writes := store.Set(cell);
      if writes.Aborted? {
        return Aborted(writes.panic), done, [];
      }
      SetWritesTyped(store, cell);
      res, done, path := RunSetter(writes.value, fuel);
    }

    /** The cache swap of `set_computed`: store a result of the entry's type
        and hand back what the cache held before, if anything. */
    method ReplaceCache(id: nat, c: DataStore) returns (previous: Option<DataStore>)
      requires Valid() && id in computed && c.Valid() && c.typeId == computed[id].tag
      modifies this`computedData
      ensures Valid() && Snapshot() == old(Snapshot()).(cache := old(computedData)[id := c])
      ensures previous.Some? <==> id in old(computedData)
      ensures previous.Some? ==> previous.value == old(computedData)[id]
    {
      ghost var t0 := Snapshot();
      previous := if id in computedData then Some(computedData[id]) else None;
      computedData := computedData[id := c];
      OverwriteKeepsValid(t0, nextId, id, c);
      assert Snapshot() == t0.(cache := t0.cache[id := c]);
    }

    /** `set_computed`: run the setter with the new value, then overwrite the
        cache with it (`expect` aborts when there was no cache) and return what
        the cache held at that moment, i.e. after the setter's own writes have
        propagated (`unwrap` aborts when it is not of the handle's type). The
        overwrite triggers no propagation: entries that read this one keep
        their caches. */
    method SetComputed(r: DataRef, d: Payload, fuel: nat)
      returns (res: Result<Payload>, ghost afterSetter: Tables, ghost done: set<nat>, ghost path: seq<nat>)
      requires Valid() && SettersInstalled() && TagOf(d) == r.tag
      modifies this`data, this`computedData, this`dependencies, this`currentlyComputing
      ensures Valid() && currentlyComputing == old(currentlyComputing)
      ensures r.id !in old(computed) ==> res == Aborted(MissingComputed) && Snapshot() == old(Snapshot())
      ensures r.id !in old(computed) || CacheWritten(old(Snapshot()), afterSetter, Snapshot(), r, d, res, done, fuel, path)
    {
      ghost var t0 := Snapshot();
      var newData := DataStore.New(d);
      var ran;
      ran, done, path := ComputedExecuteSetter(r.id, newData, fuel);
      afterSetter := Snapshot();
      if !ran.Ok? {
        res := if ran.OutOfFuel? then OutOfFuel else Aborted(ran.panic);
        if r.id in t0.computed {
          CacheWrittenStopped(t0, afterSetter, r, d, ran, res, done, fuel, path);
        }
      } else {
        var previous := ReplaceCache(r.id, newData);
        if previous.None? {
          res := Aborted(MissingCache);
        } else {
          var v := previous.value.Get(r.tag);
          res := if v.None? then Aborted(TypeMismatch) else Ok(v.value);
        }
        CacheWrittenSwapped(t0, afterSetter, Snapshot(), nextId, r, d, previous, res, done, fuel, path);
      }
    }
  }
}
