/** `ValueStore`: a type-erased cell whose value can be moved out once (src/value.rs).

    The heap box is not modelled as memory; what is kept is the `empty` flag the
    original uses to avoid freeing a moved-out box, and a count of how often the
    payload has left the cell's ownership (moved to a caller or freed). */
module ValueStores {
  import opened Wrappers
  import opened Tags

  class ValueStore {
    /** The recorded `TypeId`. */
    var typeId: Tag
    /** The value behind the erased pointer. */
    var data: Payload
    /** Set once the value has been moved out by `get`. */
    var empty: bool
    /** Whether `Drop` has run: the cell no longer exists. */
    var dropped: bool
    /** How many times the payload left the cell: moved out by `get` or freed by `Drop`. */
    var releases: nat

    /** A live cell: its tag describes its value and it still owns that value
        (`get` consumes the cell, so no live cell is empty). */
    ghost predicate Valid()
      reads this
    {
      typeId == TagOf(data) && !dropped && !empty && releases == 0
    }

    /** `ValueStore::new`: box the value, record its tag, not yet empty. */
    constructor New(d: Payload)
      ensures Valid()
      ensures typeId == TagOf(d) && data == d && !empty && releases == 0
    {
      typeId := TagOf(d);
      data := d;
      empty := false;
      dropped := false;
      releases := 0;
    }

    /** `get_ref::<D>`: borrow the value when `D` is the recorded type. */
    function GetRef(t: Tag): (r: Option<Payload>)
      reads this
      ensures r.Some? <==> t == typeId
      ensures r.Some? ==> r.value == data
    {
      if typeId == t then Some(data) else None
    }

    /** `get_cloned_ref::<D>`: a clone of the value when `D` is the recorded type.
        Payloads are values, so the clone is the stored value itself. */
    function GetClonedRef(t: Tag): (r: Option<Payload>)
      reads this
      ensures r.Some? <==> t == typeId
      ensures r.Some? ==> r.value == data
      ensures r == GetRef(t)
    {
      if typeId == t then Some(data) else None
    }

    /** `type_id`: the recorded tag. */
    function TypeId(): (t: Tag)
      reads this
      ensures Valid() ==> t == TagOf(data)
    {
      typeId
    }

    /** `is`: whether `t` is the recorded tag. */
    predicate Is(t: Tag)
      reads this
      ensures Is(t) <==> t == typeId
    {
      typeId == t
    }

    /** `get::<D>` takes the cell by value: on a tag match it marks the cell empty
        and moves the value out; either way the cell is then dropped, and `Drop`
        frees the box only when it was not moved out. Afterwards the payload has
        been released exactly once. */
    method Get(t: Tag) returns (r: Option<Payload>)
      requires Valid()
      modifies this
      ensures r.Some? <==> t == old(typeId)
      ensures r.Some? ==> r.value == old(data)
      ensures empty == (t == old(typeId))
      ensures dropped && releases == 1
      ensures typeId == old(typeId) && data == old(data)
    {
      if typeId == t {
        empty := true;
        releases := releases + 1;
        r := Some(data);
      } else {
        r := None;
      }
      Drop();
    }

    /** `Drop`: free the box unless its value was moved out. */
    method Drop()
      requires !dropped
      modifies this
      ensures dropped
      ensures releases == old(releases) + (if old(empty) then 0 else 1)
      ensures old(Valid()) ==> releases == 1
      ensures typeId == old(typeId) && data == old(data) && empty == old(empty)
    {
      if !empty {
        releases := releases + 1;
      }
      dropped := true;
    }
  }
}
