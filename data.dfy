/** `DataStore`, a type-erased cell, and `DataRef`, a copyable handle (src/data.rs). */
module DataStores {
  import opened Wrappers
  import opened Tags

  /** A typed handle: an id plus the phantom type `D`, recorded as a tag. */
  datatype DataRef = DataRef(id: nat, tag: Tag) {

    /** `Clone` copies the id (and the phantom type) and nothing else. */
    function Clone(): (c: DataRef)
      ensures c.id == id && c.tag == tag
    {
      DataRef(id, tag)
    }
  }

  /** A cell: the recorded type tag and the value behind the erased pointer. */
  datatype DataStore = DataStore(typeId: Tag, data: Payload) {

    /** The tag always describes the stored value; every cell built by `New` has it. */
    predicate Valid() {
      typeId == TagOf(data)
    }

    /** `DataStore::new`: box the value and record the tag of its type. */
    static function New(d: Payload): (c: DataStore)
      ensures c.Valid()
      ensures c.typeId == TagOf(d) && c.data == d
    {
      DataStore(TagOf(d), d)
    }

    /** `get::<D>`: consume the cell and hand out its value when `D` is the recorded type. */
    function Get(t: Tag): (r: Option<Payload>)
      ensures r.Some? <==> t == typeId
      ensures r.Some? ==> r.value == data
    {
      if typeId == t then Some(data) else None
    }

    /** `get_ref::<D>`: the same tag rule, without consuming the cell. */
    function GetRef(t: Tag): (r: Option<Payload>)
      ensures r.Some? <==> t == typeId
      ensures r.Some? ==> r.value == data
    {
      if typeId == t then Some(data) else None
    }

    /** `get_mut::<D>`: the same tag rule, handing out the value for update in place. */
    function GetMut(t: Tag): (r: Option<Payload>)
      ensures r.Some? <==> t == typeId
      ensures r.Some? ==> r.value == data
    {
      if typeId == t then Some(data) else None
    }

    /** `type_id`: the recorded tag. */
    function TypeId(): (t: Tag)
      ensures Valid() ==> t == TagOf(data)
    {
      typeId
    }

    /** `is`: whether `t` is the recorded tag. */
    predicate Is(t: Tag)
      ensures Is(t) <==> t == typeId
    {
      typeId == t
    }
  }

  /** Round trip: a value put into a fresh cell comes back out under its own type,
      and under no other type. */
  lemma NewGetRoundTrip(v: Payload, t: Tag)
    ensures DataStore.New(v).Get(TagOf(v)) == Some(v)
    ensures t != TagOf(v) ==> DataStore.New(v).Get(t) == None
    ensures DataStore.New(v).Is(t) <==> t == TagOf(v)
  {
  }

  /** The three typed accessors agree, so borrowing never changes what a later
      consuming `get` returns. */
  lemma AccessorsAgree(c: DataStore, t: Tag)
    ensures c.GetRef(t) == c.Get(t) && c.GetMut(t) == c.Get(t)
    ensures c.Get(t).Some? <==> c.Is(t)
  {
  }
}
