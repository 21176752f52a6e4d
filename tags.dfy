/** Runtime type identifiers and the values they describe.

    The original erases every stored value behind a pointer and keeps its
    `TypeId`. The model replaces the open set of Rust types by a finite
    enumeration of tags and a sum type of payloads. */
module Tags {

  /** The `TypeId` of a stored value. */
  datatype Tag = BoolTag | IntTag | StrTag

  /** A stored value of one of the supported types. */
  datatype Payload = BoolVal(b: bool) | IntVal(i: int) | StrVal(s: string)

  /** `TypeId::of::<D>()` for the type of `p`. */
  function TagOf(p: Payload): (t: Tag)
    ensures t == BoolTag <==> p.BoolVal?
    ensures t == IntTag <==> p.IntVal?
    ensures t == StrTag <==> p.StrVal?
  {
    match p
    case BoolVal(_) => BoolTag
    case IntVal(_) => IntTag
    case StrVal(_) => StrTag
  }
}
