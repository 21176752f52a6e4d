/** Computed descriptors (src/computed.rs).

    In the original a computed entry is a Rust closure `Fn(ContextRef) -> D`
    (optionally paired with a setter `Fn(ContextRef, D) -> D`). The model replaces
    closure bodies by a small typed expression language: a getter only reads
    entries of the store through the generic `get` dispatch, so what it returns
    and which reads it records are functions of a read-only view of the store's
    tables. A setter is a list of leaf writes plus a return value that the
    descriptor discards. */
module Computeds {
  import opened Wrappers
  import opened Tags
  import opened DataStores

  /** What a getter can see of the store: the leaf table, which ids are computed,
      and the cached results. */
  datatype View = View(data: map<nat, DataStore>, computedIds: set<nat>, cache: map<nat, DataStore>)

  /** Every cell of the view carries the tag of its own value. */
  ghost predicate ViewValid(v: View) {
    (forall i :: i in v.data ==> v.data[i].Valid()) &&
    (forall i :: i in v.cache ==> v.cache[i].Valid())
  }

  /** Whether reading `id` records a dependency edge: the generic `get` calls the
      leaf or computed accessor (which record the read) only for known ids. */
  predicate Recorded(v: View, id: nat) {
    id in v.data || id in v.computedIds
  }

  /** The generic typed read `ContextRef::get`: the leaf's value, else the
      computed's cached result (never an evaluation), else nothing. */
  function Lookup(v: View, id: nat, tag: Tag): (r: Option<Payload>)
    ensures r.Some? ==> Recorded(v, id)
    ensures id in v.data ==> r == v.data[id].GetRef(tag)
    ensures id !in v.data && id in v.computedIds && id in v.cache ==> r == v.cache[id].GetRef(tag)
  {
    if id in v.data then v.data[id].GetRef(tag)
    else if id in v.computedIds then
      (if id in v.cache then v.cache[id].GetRef(tag) else None)
    else None
  }

  /** Body of a getter closure. */
  datatype Getter =
    | Const(value: Payload)                          // a literal
    | ReadOr(id: nat, tag: Tag, fallback: Payload)   // `Ref::<D>::new(id).get(cx).unwrap_or(fallback)`
    | Cond(test: Getter, ifTrue: Getter, ifFalse: Getter)  // `if test { .. } else { .. }`
    | Join(left: Getter, sep: string, right: Getter)       // `format!("{}{}{}", left, sep, right)`
    | Times(arg: Getter, factor: int)                      // `arg * factor`

  function AsBool(p: Payload): bool { p.BoolVal? && p.b }
  function AsStr(p: Payload): string { if p.StrVal? then p.s else "" }
  function AsInt(p: Payload): int { if p.IntVal? then p.i else 0 }

  /** The static type of a getter, or None when Rust would reject it. */
  function TypeOf(g: Getter): Option<Tag> {
    match g
    case Const(p) => Some(TagOf(p))
    case ReadOr(_, tag, fallback) => if TagOf(fallback) == tag then Some(tag) else None
    case Cond(test, a, b) =>
      if TypeOf(test) == Some(BoolTag) && TypeOf(a).Some? && TypeOf(a) == TypeOf(b) then TypeOf(a) else None
    case Join(l, _, r) =>
      if TypeOf(l) == Some(StrTag) && TypeOf(r) == Some(StrTag) then Some(StrTag) else None
    case Times(a, _) => if TypeOf(a) == Some(IntTag) then Some(IntTag) else None
  }

  /** The value a getter returns when run against view `v`. */
  function Eval(g: Getter, v: View): Payload {
    match g
    case Const(p) => p
    case ReadOr(id, tag, fallback) =>
      var r := Lookup(v, id, tag);
      if r.Some? then r.value else fallback
    case Cond(test, a, b) => if AsBool(Eval(test, v)) then Eval(a, v) else Eval(b, v)
    case Join(l, sep, r) => StrVal(AsStr(Eval(l, v)) + sep + AsStr(Eval(r, v)))
    case Times(a, k) => IntVal(AsInt(Eval(a, v)) * k)
  }

  /** The ids a run of `g` against `v` looks up, in the branch it takes. */
  function Touched(g: Getter, v: View): set<nat> {
    match g
    case Const(_) => {}
    case ReadOr(id, _, _) => {id}
    case Cond(test, a, b) =>
      Touched(test, v) + (if AsBool(Eval(test, v)) then Touched(a, v) else Touched(b, v))
    case Join(l, _, r) => Touched(l, v) + Touched(r, v)
    case Times(a, _) => Touched(a, v)
  }

  /** Every id the getter mentions, on any branch. */
  function Ids(g: Getter): set<nat> {
    match g
    case Const(_) => {}
    case ReadOr(id, _, _) => {id}
    case Cond(test, a, b) => Ids(test) + Ids(a) + Ids(b)
    case Join(l, _, r) => Ids(l) + Ids(r)
    case Times(a, _) => Ids(a)
  }

  /** A run only looks up ids the getter mentions. */
  lemma {:induction false} TouchedInIds(g: Getter, v: View)
    ensures Touched(g, v) <= Ids(g)
  {
    match g
    case Const(_) =>
    case ReadOr(_, _, _) =>
    case Cond(test, a, b) =>
      TouchedInIds(test, v);
      TouchedInIds(a, v);
      TouchedInIds(b, v);
    case Join(l, _, r) =>
      TouchedInIds(l, v);
      TouchedInIds(r, v);
    case Times(a, _) =>
      TouchedInIds(a, v);
  }

  /** The reads a run of `g` against `v` records: the ids it looks up that are
      known to the store (the generic `get` returns None for others without
      calling an accessor). */
  function Reads(g: Getter, v: View): (r: set<nat>)
    ensures r <= Touched(g, v)
    ensures forall i :: i in r ==> Recorded(v, i)
  {
    set i | i in Touched(g, v) && Recorded(v, i)
  }

  /** How the recorded reads of a compound getter are made up from its parts. */
  lemma ReadsSplit(g: Getter, v: View)
    ensures g.Const? ==> Reads(g, v) == {}
    ensures g.ReadOr? ==> Reads(g, v) == if Recorded(v, g.id) then {g.id} else {}
    ensures g.Cond? ==> (Reads(g, v) ==
      Reads(g.test, v) + (if AsBool(Eval(g.test, v)) then Reads(g.ifTrue, v) else Reads(g.ifFalse, v)))
    ensures g.Join? ==> Reads(g, v) == Reads(g.left, v) + Reads(g.right, v)
    ensures g.Times? ==> Reads(g, v) == Reads(g.arg, v)
  {
  }

  /** Type soundness: a well-typed getter returns a value of its static type,
      so `DataStore::new` tags its result with the computed's type `D`. */
  lemma {:induction false} EvalHasType(g: Getter, v: View)
    requires ViewValid(v) && TypeOf(g).Some?
    ensures TagOf(Eval(g, v)) == TypeOf(g).value
  {
    match g
    case Const(_) =>
    case ReadOr(id, tag, fallback) =>
      var r := Lookup(v, id, tag);
      if r.Some? {
        if id in v.data {
          assert v.data[id].Valid();
        } else {
          assert v.cache[id].Valid();
        }
      }
    case Cond(test, a, b) =>
      if AsBool(Eval(test, v)) { EvalHasType(a, v); } else { EvalHasType(b, v); }
    case Join(_, _, _) =>
    case Times(_, _) =>
  }

  /** Two views give the same answer to every typed read of id `i`. */
  ghost predicate AgreeAt(v1: View, v2: View, i: nat) {
    (i in v1.data <==> i in v2.data) &&
    (i in v1.computedIds <==> i in v2.computedIds) &&
    (i in v1.data && i in v2.data ==> v1.data[i] == v2.data[i]) &&
    (i in v1.computedIds ==>
      (i in v1.cache <==> i in v2.cache) &&
      (i in v1.cache && i in v2.cache ==> v1.cache[i] == v2.cache[i]))
  }

  lemma AgreeAtLookup(v1: View, v2: View, i: nat, tag: Tag)
    requires AgreeAt(v1, v2, i)
    ensures Lookup(v1, i, tag) == Lookup(v2, i, tag) && (Recorded(v1, i) <==> Recorded(v2, i))
  {
  }

  /** A getter's result is decided by the ids it looks up: two views that agree on
      each of them give the same value and the same lookups. */
  lemma {:induction false} TouchedDecide(g: Getter, v1: View, v2: View)
    requires forall i :: i in Touched(g, v1) ==> AgreeAt(v1, v2, i)
    ensures Eval(g, v1) == Eval(g, v2) && Touched(g, v1) == Touched(g, v2)
  {
    match g
    case Const(_) =>
    case ReadOr(id, tag, _) =>
      AgreeAtLookup(v1, v2, id, tag);
    case Cond(test, a, b) =>
      TouchedDecide(test, v1, v2);
      if AsBool(Eval(test, v1)) { TouchedDecide(a, v1, v2); } else { TouchedDecide(b, v1, v2); }
    case Join(l, _, r) =>
      TouchedDecide(l, v1, v2);
      TouchedDecide(r, v1, v2);
    case Times(a, _) =>
      TouchedDecide(a, v1, v2);
  }

  /** Views with the same known ids. */
  ghost predicate SameShape(v1: View, v2: View) {
    v1.data.Keys == v2.data.Keys && v1.computedIds == v2.computedIds
  }

  /** While no entry is added, a getter's result and recorded reads are decided by
      the entries it records: agreement on the recorded reads is enough. This is
      why one dependency edge per recorded read suffices for push propagation. */
  lemma ReadsDecide(g: Getter, v1: View, v2: View)
    requires SameShape(v1, v2)
    requires forall i :: i in Reads(g, v1) ==> AgreeAt(v1, v2, i)
    ensures Eval(g, v1) == Eval(g, v2) && Reads(g, v1) == Reads(g, v2)
  {
    forall i | i in Touched(g, v1) ensures AgreeAt(v1, v2, i) {
      if !Recorded(v1, i) {
        assert i !in v1.data && i !in v1.computedIds;
      }
    }
    TouchedDecide(g, v1, v2);
  }

  /** A value a setter writes: the value it was given, or a literal. */
  datatype SetterValue = Input | Fixed(p: Payload) {
    function Resolve(input: Payload): (r: Payload)
      ensures Input? ==> r == input
      ensures Fixed? ==> r == p
    {
      if Input? then input else p
    }
  }

  /** One write a setter performs: `target.set(cx, value)` on a leaf handle. */
  datatype LeafWrite = LeafWrite(target: DataRef, value: SetterValue)

  /** A write with its value resolved. */
  datatype Write = Write(target: DataRef, value: Payload)

  /** Body of a setter closure: its writes in order, and the value it returns. */
  datatype Setter = Setter(writes: seq<LeafWrite>, result: SetterValue)

  /** The writes a setter performs when given `input`, in order. */
  function Writes(ws: seq<LeafWrite>, input: Payload): (r: seq<Write>)
    ensures |r| == |ws|
    ensures forall k :: 0 <= k < |ws| ==> r[k] == Write(ws[k].target, ws[k].value.Resolve(input))
  {
    if ws == [] then [] else [Write(ws[0].target, ws[0].value.Resolve(input))] + Writes(ws[1..], input)
  }

  /** Rust's typing of a setter `Fn(ContextRef, D) -> D` whose writes are `Ref::set` calls. */
  predicate SetterTyped(s: Setter, tag: Tag) {
    (forall k :: 0 <= k < |s.writes| ==> ValueTyped(s.writes[k].value, s.writes[k].target.tag, tag)) &&
    ValueTyped(s.result, tag, tag)
  }

  /** A setter value of type `want`, where the setter's input has type `input`. */
  predicate ValueTyped(sv: SetterValue, want: Tag, input: Tag) {
    match sv
    case Input => want == input
    case Fixed(p) => TagOf(p) == want
  }

  /** The two implementations of the `Computed<D>` trait. */
  datatype Computed =
    | Bare(getter: Getter)                    // `impl Computed<D> for G where G: Fn(ContextRef) -> D`
    | Pair(getter: Getter, setter: Setter)    // `impl Computed<D> for (G, S)`
  {
    /** `Computed::get`: both forms run their getter (the bare function, or `self.0`). */
    function Get(v: View): (r: Payload)
      ensures ViewValid(v) && TypeOf(getter).Some? ==> TagOf(r) == TypeOf(getter).value
    {
      EvalHasTypeAt(getter, v);
      Eval(getter, v)
    }

    /** `Computed::set`: a bare function does nothing; a pair runs `self.1` and
        discards the value it returns. */
    function Set(input: Payload): (r: seq<Write>)
      ensures Bare? ==> r == []
      ensures Pair? ==> |r| == |setter.writes|
      ensures Pair? ==> forall k :: 0 <= k < |r| ==>
                r[k].target == setter.writes[k].target && r[k].value == setter.writes[k].value.Resolve(input)
    {
      match this
      case Bare(_) => []
      case Pair(_, s) => Writes(s.writes, input)
    }

    /** The `D` of `Computed<D>`: Rust only accepts closures of that type. */
    predicate Typed(tag: Tag) {
      TypeOf(getter) == Some(tag) && (Pair? ==> SetterTyped(setter, tag))
    }
  }

  lemma EvalHasTypeAt(g: Getter, v: View)
    ensures ViewValid(v) && TypeOf(g).Some? ==> TagOf(Eval(g, v)) == TypeOf(g).value
  {
    if ViewValid(v) && TypeOf(g).Some? {
      EvalHasType(g, v);
    }
  }

  /** `ComputedStore`: the descriptor kept in the store. Its getter and setter
      closures both capture `source`; `hasSetter` says whether the setter slot is
      `Some`; `tag` is the `D` the closures were built for. */
  datatype ComputedStore = ComputedStore(source: Computed, tag: Tag, hasSetter: bool) {

    /** `ComputedStore::new` always installs a setter. */
    static function New(c: Computed, tag: Tag): (s: ComputedStore)
      ensures s.source == c && s.tag == tag && s.hasSetter
    {
      ComputedStore(c, tag, true)
    }

    /** `ComputedStore::get`: run the getter and box its result in a cell tagged
        with the computed's type. */
    function Get(v: View): (cell: DataStore)
      ensures cell.Valid() && cell.data == Eval(source.getter, v)
      ensures ViewValid(v) && source.Typed(tag) ==> cell.typeId == tag
    {
      DataStore.New(source.Get(v))
    }

    /** `ComputedStore::set`: without a setter nothing happens; otherwise the setter
        runs once, after extracting the cell as `D` — `unwrap` aborts on a tag
        mismatch. Returns the writes the setter performs. */
    function Set(cell: DataStore): (r: Result<seq<Write>>)
      ensures !hasSetter ==> r == Ok([])
      ensures hasSetter ==> (r.Aborted? <==> cell.typeId != tag)
      ensures hasSetter && cell.typeId == tag ==> r == Ok(source.Set(cell.data))
      ensures r.Ok? ==> r.value == [] || (hasSetter && source.Pair?)
      ensures !r.OutOfFuel?
    {
      if !hasSetter then Ok([])
      else
        var d := cell.GetRef(tag);
        if d.None? then Aborted(TypeMismatch) else Ok(source.Set(d.value))
    }
  }

  /** A well-typed pair's setter only writes values of its targets' types. */
  lemma {:induction false} SetWritesTyped(s: ComputedStore, cell: DataStore)
    requires s.source.Typed(s.tag) && cell.Valid() && s.Set(cell).Ok?
    ensures forall k :: 0 <= k < |s.Set(cell).value| ==>
              TagOf(s.Set(cell).value[k].value) == s.Set(cell).value[k].target.tag
  {
    var ws := s.Set(cell).value;
    if ws != [] {
      var st := s.source.setter;
      forall k | 0 <= k < |ws| ensures TagOf(ws[k].value) == ws[k].target.tag {
        assert ValueTyped(st.writes[k].value, st.writes[k].target.tag, s.tag);
      }
    }
  }
}
