/** `ContextRef`: the shared handle on one store. Every clone points at the
    same store and the same reference counter; the store is released when the
    last handle is dropped. Its generic `get`/`set` dispatch on whether an id
    is a leaf or a computed entry. */
module ContextRefs {
  import opened Wrappers
  import opened Tags
  import opened DataStores
  import opened Computeds
  import opened Propagation
  import opened Contexts

  /** The heap cell behind `counter`: how many handles are alive, and whether
      the store has been freed. */
  class Counter {
    var count: nat
    var released: bool

    constructor ()
      ensures count == 1 && !released
    {
      count := 1;
      released := false;
    }
  }

  class ContextRef {
    const context: Context
    const counter: Counter

    /** A live handle: its store is not yet freed and it is counted. */
    predicate Live()
      reads counter
    {
      !counter.released && counter.count >= 1
    }

    /** `ContextRef::new`: a fresh empty store, and a counter starting at 1. */
    constructor ()
      ensures fresh(context) && fresh(counter)
      ensures counter.count == 1 && !counter.released && Live()
      ensures context.Valid() && context.SettersInstalled() && AllConsistent(context.Snapshot())
      ensures context.nextId == 0 && context.Known() == {} && context.currentlyComputing == []
      ensures context.data == map[] && context.computed == map[] && context.dependencies == map[]
    {
      context := new Context();
      counter := new Counter();
    }

    /** `get_counter`. */
    function Count(): (n: nat)
      reads counter
      ensures n == counter.count
    {
      counter.count
    }

    /** `clone`: a second handle on the same store and counter, which now
        counts one more handle. The store itself is untouched. */
    method Clone() returns (c: ContextRef)
      requires Live()
      modifies counter
      ensures fresh(c) && c.context == context && c.counter == counter
      ensures counter.count == old(counter.count) + 1 && !counter.released
      ensures Live() && c.Live()
    {
      c := new ContextRef.Share(context, counter);
      counter.count := counter.count + 1;
    }

    /** A handle sharing an existing store and counter (the struct literal in
        `clone`). */
    constructor Share(context: Context, counter: Counter)
      ensures this.context == context && this.counter == counter
    {
      this.context := context;
      this.counter := counter;
    }

    /** `drop`: one handle fewer; the store is freed exactly when none is
        left. */
    method Drop()
      requires Live()
      modifies counter
      ensures counter.count == old(counter.count) - 1
      ensures counter.released <==> counter.count == 0
    {
      counter.count := counter.count - 1;
      if counter.count == 0 {
        counter.released := true;
      }
    }

    /** `id_is_value`: the id names a leaf. */
    predicate IdIsValue(id: nat)
      reads this, context
      ensures IdIsValue(id) <==> id in context.data
      ensures IdIsValue(id) && context.Valid() ==> !IdIsComputed(id)
    {
      context.RefIsData(DataRef(id, BoolTag))
    }

    /** `id_is_computed`: the id names a computed entry. */
    predicate IdIsComputed(id: nat)
      reads this, context
      ensures IdIsComputed(id) <==> id in context.computed
    {
      context.RefIsComputed(DataRef(id, BoolTag))
    }

    /** `value`: a new leaf in the shared store. */
    method Value(d: Payload) returns (r: DataRef)
      requires Live() && context.Valid()
      modifies context`nextId, context`data
      ensures context.Valid()
      ensures r == DataRef(old(context.nextId), TagOf(d)) && context.nextId == old(context.nextId) + 1
      ensures r.id !in old(context.Known()) && IdIsValue(r.id)
      ensures context.data == old(context.data)[r.id := DataStore.New(d)]
      ensures old(AllConsistent(context.Snapshot())) ==> AllConsistent(context.Snapshot())
    {
      r := context.Data(d);
    }

    /** `computed`: a new computed entry in the shared store, evaluated once. */
    method Computed(c: Computeds.Computed, tag: Tag, fuel: nat) returns (r: DataRef, ok: bool)
      requires Live() && context.Valid() && c.Typed(tag)
      modifies context`nextId, context`computed, context`computedData, context`dependencies,
               context`currentlyComputing
      ensures context.Valid() && (old(context.SettersInstalled()) ==> context.SettersInstalled())
      ensures r == DataRef(old(context.nextId), tag) && context.nextId == old(context.nextId) + 1
      ensures r.id !in old(context.Known()) && IdIsComputed(r.id) && r.id in context.computedData
      ensures context.data == old(context.data)
      ensures context.computed == old(context.computed)[r.id := ComputedStore.New(c, tag)]
      ensures context.currentlyComputing == old(context.currentlyComputing)
      ensures ok <==> r.id !in Reads(c.getter, ViewOf(Define(old(context.Snapshot()), r.id, ComputedStore.New(c, tag))))
      ensures Ids(c.getter) <= old(context.Known()) ==> ok
      ensures ok ==>
                context.Snapshot() == Recompute(Define(old(context.Snapshot()), r.id, ComputedStore.New(c, tag)), r.id)
      ensures old(AllConsistent(context.Snapshot())) && Ids(c.getter) <= old(context.Known()) ==>
                AllConsistent(context.Snapshot())
    {
      r, ok := context.Computed(c, tag, fuel);
    }

    /** `get`: a leaf is read through `get_data`, a computed entry through
        `get_computed`, and any other id yields nothing and records nothing. */
    method Get(r: DataRef) returns (v: Option<Payload>)
      requires Live() && context.Valid()
      modifies context`dependencies
      ensures context.Valid()
      ensures IdIsValue(r.id) ==> v == context.data[r.id].GetRef(r.tag)
      ensures !IdIsValue(r.id) && IdIsComputed(r.id) ==>
                v == (if r.id in context.computedData then context.computedData[r.id].GetRef(r.tag) else None)
      ensures !IdIsValue(r.id) && !IdIsComputed(r.id) ==>
                v == None && context.dependencies == old(context.dependencies)
      ensures IdIsValue(r.id) || IdIsComputed(r.id) ==>
                context.dependencies == WithEdge(old(context.dependencies), context.currentlyComputing, r.id)
    {
      ghost var t := context.Snapshot();
      v := context.Read(r);
      if Recorded(ViewOf(t), r.id) {
        RecordKeepsValid(t, context.nextId, context.currentlyComputing, r.id);
        assert context.Snapshot() == t.(deps := context.dependencies);
      }
    }

    /** `set`: a leaf goes through `set_data`, a computed entry through
        `set_computed`, and any other id hands the value straight back and
        changes nothing. A leaf write keeps every promise of `set_data`
        (`done` is what it recomputed), a computed write every promise of
        `set_computed` (`afterSetter` is the tables once the setter's writes
        have propagated, `done` what they recomputed, `path` the walk along
        which a cascade ran out of fuel). After a successful write the generic read sees the
        new value. */
    method Set(r: DataRef, d: Payload, fuel: nat) returns (res: Result<Payload>, ghost done: set<nat>,
                                                           ghost afterSetter: Tables, ghost path: seq<nat>)
      requires Live() && context.Valid() && context.SettersInstalled() && TagOf(d) == r.tag
      modifies context`data, context`computedData, context`dependencies, context`currentlyComputing
      ensures context.Valid() && context.currentlyComputing == old(context.currentlyComputing)
      ensures !old(IdIsValue(r.id)) && !old(IdIsComputed(r.id)) ==>
                res == Ok(d) && context.Snapshot() == old(context.Snapshot())
      ensures old(IdIsValue(r.id)) ==> LeafWritten(old(context.Snapshot()), context.Snapshot(), r, d, res, done, fuel, path)
      ensures old(IdIsComputed(r.id)) ==>
                CacheWritten(old(context.Snapshot()), afterSetter, context.Snapshot(), r, d, res, done, fuel, path)
      ensures res.Ok? && (old(IdIsValue(r.id)) || old(IdIsComputed(r.id))) ==>
                Lookup(context.View(), r.id, r.tag) == Some(d)
    {
      done, path := {}, [];
      afterSetter := context.Snapshot();
      if IdIsValue(r.id) {
        res, done, path := context.SetData(r, d, fuel);
        assert context.View().data == context.data;
        assert context.data[r.id].GetRef(r.tag) == Some(d);
      } else if IdIsComputed(r.id) {
        res, afterSetter, done, path := context.SetComputed(r, d, fuel);
      } else {
        res := Ok(d);
      }
    }
  }
}
