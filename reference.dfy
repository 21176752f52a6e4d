/** `Ref<D>`: the public, copyable handle. It carries an id and its type; every
    operation hands it to the shared store handle. */
module References {
  import opened Wrappers
  import opened Tags
  import opened DataStores
  import opened Propagation
  import opened Contexts
  import opened ContextRefs

  datatype Ref = Ref(id: nat, tag: Tag) {

    /** `Ref::new`. */
    static function New(id: nat, tag: Tag): (r: Ref)
      ensures r.id == id && r.tag == tag
    {
      Ref(id, tag)
    }

    /** `id`. */
    function Id(): (i: nat)
      ensures i == id
    {
      id
    }

    /** The store-level handle for the same entry. */
    function Handle(): (r: DataRef)
      ensures r.id == id && r.tag == tag
    {
      DataRef(id, tag)
    }

    /** `get`: the store handle's generic read of this id. */
    method Get(c: ContextRef) returns (v: Option<Payload>)
      requires c.Live() && c.context.Valid()
      modifies c.context`dependencies
      ensures c.context.Valid()
      ensures v == Computeds.Lookup(c.context.View(), id, tag)
      ensures c.context.dependencies ==
                if c.IdIsValue(id) || c.IdIsComputed(id)
                then WithEdge(old(c.context.dependencies), c.context.currentlyComputing, id)
                else old(c.context.dependencies)
    {
      v := c.Get(Handle());
    }

    /** `set`: the store handle's generic write of this id, with all its
        promises for a leaf and for a computed entry (`done` is what was
        recomputed, `afterSetter` the tables once the setter's writes have
        propagated, `path` the walk along which a cascade ran out of fuel). */
    method Set(c: ContextRef, d: Payload, fuel: nat) returns (res: Result<Payload>, ghost done: set<nat>,
                                                             ghost afterSetter: Tables, ghost path: seq<nat>)
      requires c.Live() && c.context.Valid() && c.context.SettersInstalled() && TagOf(d) == tag
      modifies c.context`data, c.context`computedData, c.context`dependencies, c.context`currentlyComputing
      ensures c.context.Valid() && c.context.currentlyComputing == old(c.context.currentlyComputing)
      ensures !old(c.IdIsValue(id)) && !old(c.IdIsComputed(id)) ==>
                res == Ok(d) && c.context.Snapshot() == old(c.context.Snapshot())
      ensures old(c.IdIsValue(id)) ==>
                LeafWritten(old(c.context.Snapshot()), c.context.Snapshot(), Handle(), d, res, done, fuel, path)
      ensures old(c.IdIsComputed(id)) ==>
                CacheWritten(old(c.context.Snapshot()), afterSetter, c.context.Snapshot(), Handle(), d, res, done, fuel, path)
      ensures res.Ok? && (old(c.IdIsValue(id)) || old(c.IdIsComputed(id))) ==>
                Computeds.Lookup(c.context.View(), id, tag) == Some(d)
    {
      res, done, afterSetter, path := c.Set(Handle(), d, fuel);
    }

    /** `is_value`. */
    predicate IsValue(c: ContextRef)
      reads c, c.context
      ensures IsValue(c) <==> id in c.context.data
    {
      c.IdIsValue(id)
    }

    /** `is_computed`. */
    predicate IsComputed(c: ContextRef)
      reads c, c.context
      ensures IsComputed(c) <==> id in c.context.computed
    {
      c.IdIsComputed(id)
    }
  }

  /** `Ref::new(id).id() == id`, and a handle is rebuilt from its id and type. */
  lemma NewIdRoundTrip(id: nat, tag: Tag, r: Ref)
    ensures Ref.New(id, tag).Id() == id
    ensures Ref.New(r.Id(), r.tag) == r
  {
  }

  /** `Ref` is `Copy`: handles with the same id name the same entry, which is
      never both a leaf and a computed entry of a well-formed store. */
  lemma CopiesAgree(r: Ref, s: Ref, c: ContextRef)
    requires r.id == s.id
    ensures r.IsValue(c) <==> s.IsValue(c)
    ensures r.IsComputed(c) <==> s.IsComputed(c)
    ensures c.context.Valid() && r.IsValue(c) ==> !s.IsComputed(c)
  {
  }
}
