/** The demo program (bin/playground.rs): a full name that reads the first
    name only while `skip_first_name` is false, first at the level of the
    getter, then run on the store itself, where every write completes. */
module Playground {
  import opened Wrappers
  import opened Tags
  import opened DataStores
  import opened Computeds
  import opened Propagation
  import opened Contexts
  import opened ContextRefs
  import opened References

  const SkipFirstName: nat := 0
  const FirstName: nat := 1
  const LastName: nat := 2
  const FullNameId: nat := 3

  /** The demo's getter, with `unwrap()` on present leaves written as reads
      whose fallback is never taken. */
  function FullName(): (g: Getter)
    ensures TypeOf(g) == Some(StrTag)
    ensures Ids(g) == {SkipFirstName, FirstName, LastName}
  {
    Cond(ReadOr(SkipFirstName, BoolTag, BoolVal(false)),
         ReadOr(LastName, StrTag, StrVal("")),
         Join(ReadOr(FirstName, StrTag, StrVal("")), " ", ReadOr(LastName, StrTag, StrVal(""))))
  }

  /** The store as the getter sees it after the three `value` calls. */
  function Leaves(skip: bool, first: string, last: string): (v: View)
    ensures ViewValid(v) && v.data.Keys == {SkipFirstName, FirstName, LastName}
  {
    View(map[SkipFirstName := DataStore.New(BoolVal(skip)),
             FirstName := DataStore.New(StrVal(first)),
             LastName := DataStore.New(StrVal(last))],
         {}, map[])
  }

  /** While the first name is skipped the getter records only the flag and
      the last name; otherwise it records all three leaves. */
  lemma ConditionalReads(skip: bool, first: string, last: string)
    ensures skip ==> Eval(FullName(), Leaves(skip, first, last)) == StrVal(last)
    ensures skip ==> Reads(FullName(), Leaves(skip, first, last)) == {SkipFirstName, LastName}
    ensures !skip ==> Eval(FullName(), Leaves(skip, first, last)) == StrVal(first + " " + last)
    ensures !skip ==> Reads(FullName(), Leaves(skip, first, last)) == {SkipFirstName, FirstName, LastName}
  {
    var v := Leaves(skip, first, last);
    var g := FullName();
    ReadsSplit(g, v);
    ReadsSplit(g.test, v);
    ReadsSplit(g.ifTrue, v);
    ReadsSplit(g.ifFalse, v);
    ReadsSplit(g.ifFalse.left, v);
    ReadsSplit(g.ifFalse.right, v);
    assert Eval(g.ifFalse.left, v) == StrVal(first);
    assert Eval(g.ifFalse.right, v) == StrVal(last);
  }

  /** The demo's displayed names while the flag is set: "World" at first, and
      "World" again after the first name has changed. The first evaluation,
      with the flag set from the start, records no read of the first name.
      (Recorded edges are never removed, so once the flag has been cleared
      and the name read, the first name stays a recorded dependency.) */
  lemma DemoNamesSkipping()
    ensures Eval(FullName(), Leaves(true, "Hello", "World")) == StrVal("World")
    ensures Eval(FullName(), Leaves(true, "Rea", "World")) == StrVal("World")
    ensures FirstName !in Reads(FullName(), Leaves(true, "Hello", "World"))
  {
    ConditionalReads(true, "Hello", "World");
    ConditionalReads(true, "Rea", "World");
  }

  /** The demo's displayed names while the flag is cleared: "Hello World",
      then "Rea World" once the first name is set. */
  lemma DemoNamesShowing()
    ensures Eval(FullName(), Leaves(false, "Hello", "World")) == StrVal("Hello World")
    ensures Eval(FullName(), Leaves(false, "Rea", "World")) == StrVal("Rea World")
  {
    ConditionalReads(false, "Hello", "World");
    assert "Hello" + " " + "World" == "Hello World";
    ConditionalReads(false, "Rea", "World");
    assert "Rea" + " " + "World" == "Rea World";
  }

  /** The full name's descriptor: the demo's closure, a bare getter. */
  function FullNameStore(): (s: ComputedStore)
    ensures s.source.getter == FullName() && s.tag == StrTag
  {
    ComputedStore.New(Computeds.Computed.Bare(FullName()), StrTag)
  }

  /** The demo's tables while its leaves hold `skip`, `first` and `last`: the
      full name is the only computed entry, every cache is up to date,
      getters mention only older ids and every edge points at an older id. */
  ghost predicate DemoTables(t: Tables, skip: bool, first: string, last: string) {
    t.data == Leaves(skip, first, last).data && t.computed == map[FullNameId := FullNameStore()] &&
    AllConsistent(t) && Layered(t) && Downward(t.deps)
  }

  /** The demo's store: a live handle on well-formed tables as `DemoTables`
      describes, with every setter installed and nothing being computed. */
  ghost predicate DemoStore(c: ContextRef, skip: bool, first: string, last: string)
    reads c, c.counter, c.context
  {
    c.Live() && c.context.Valid() && c.context.SettersInstalled() &&
    c.context.currentlyComputing == [] && DemoTables(c.context.Snapshot(), skip, first, last)
  }

  /** A write of a leaf of the demo's tables with one unit of fuel completes:
      the tables are the demo's again, over the new leaves, and the previous
      value comes back. */
  lemma DemoWrite(t0: Tables, t1: Tables, r: DataRef, d: Payload, res: Result<Payload>, done: set<nat>,
                  path: seq<nat>, skip: bool, first: string, last: string, skip': bool, first': string, last': string)
    requires DemoTables(t0, skip, first, last) && r.id in t0.data && t0.data[r.id].typeId == r.tag
    requires t0.data[r.id := DataStore.New(d)] == Leaves(skip', first', last').data
    requires LeafWritten(t0, t1, r, d, res, done, 1, path) && t1.deps.Keys <= t1.computed.Keys
    ensures DemoTables(t1, skip', first', last') && res == Ok(t0.data[r.id].data)
  {
    assert t0.computed.Keys == {FullNameId};
    LayeredWriteCompletes(t0, t1, r, d, res, done, 1, path);
  }

  /** In the demo's store, the full name's cache holds what the getter
      returns over the leaves. */
  lemma CachedName(t: Tables, next: nat, skip: bool, first: string, last: string)
    requires TablesValid(t, next) && AllConsistent(t)
    requires t.data == Leaves(skip, first, last).data && t.computed == map[FullNameId := FullNameStore()]
    ensures Lookup(ViewOf(t), FullNameId, StrTag) == Some(Eval(FullName(), Leaves(skip, first, last)))
  {
    assert Fresh(t, FullNameId);
    var g := FullName();
    TouchedInIds(g, ViewOf(t));
    TouchedDecide(g, ViewOf(t), Leaves(skip, first, last));
    TablesValidView(t, next);
  }

  /** Lines 4-5: a fresh store holding the flag. */
  method Flag() returns (c: ContextRef, skip: DataRef)
    ensures fresh(c.context) && c.Live() && c.context.Valid() && c.context.SettersInstalled()
    ensures c.context.currentlyComputing == [] && c.context.nextId == FirstName
    ensures c.context.data == map[SkipFirstName := DataStore.New(BoolVal(true))] && c.context.computed == map[]
    ensures skip == DataRef(SkipFirstName, BoolTag)
  {
    c := new ContextRef();
    skip := c.Value(BoolVal(true));
  }

  /** Lines 4-7: a fresh store holding the three leaves. */
  method Leaves3() returns (c: ContextRef, skip: DataRef, first: DataRef, last: DataRef)
    ensures fresh(c.context) && c.Live() && c.context.Valid() && c.context.SettersInstalled()
    ensures c.context.currentlyComputing == [] && c.context.nextId == FullNameId
    ensures c.context.data == Leaves(true, "Hello", "World").data && c.context.computed == map[]
    ensures skip == DataRef(SkipFirstName, BoolTag) && first == DataRef(FirstName, StrTag)
    ensures last == DataRef(LastName, StrTag)
  {
    c, skip := Flag();
    first := c.Value(StrVal("Hello"));
    last := c.Value(StrVal("World"));
  }

  /** Lines 4-16: a fresh store, the three leaves, and the full name computed
      over them. */
  method Setup() returns (c: ContextRef, skip: Ref, first: Ref, last: Ref, full: Ref)
    ensures fresh(c.context) && DemoStore(c, true, "Hello", "World")
    ensures skip == Ref(SkipFirstName, BoolTag) && first == Ref(FirstName, StrTag)
    ensures last == Ref(LastName, StrTag) && full == Ref(FullNameId, StrTag)
  {
    var s, f, l;
    c, s, f, l := Leaves3();
    ghost var t := c.context.Snapshot();
    var r, ok := c.Computed(Computeds.Computed.Bare(FullName()), StrTag, 0);
    DefineKeepsLayered(t, FullNameId, FullNameStore());
    skip, first, last, full := Ref(s.id, s.tag), Ref(f.id, f.tag), Ref(l.id, l.tag), Ref(r.id, r.tag);
  }

  /** `full_name.get(&context).unwrap()` (lines 17, 19, 21, 23): the getter's
      result over the current leaves; the `unwrap` never fails. */
  method Show(c: ContextRef, full: Ref, ghost skip: bool, ghost first: string, ghost last: string)
    returns (name: string)
    requires full == Ref(FullNameId, StrTag) && DemoStore(c, skip, first, last)
    modifies c.context`dependencies
    ensures DemoStore(c, skip, first, last)
    ensures name == AsStr(Eval(FullName(), Leaves(skip, first, last)))
  {
    CachedName(c.context.Snapshot(), c.context.nextId, skip, first, last);
    var v := full.Get(c);
    name := AsStr(v.value);
  }

  /** `r.set(&context, d)` on a leaf of the demo's store: with one computed
      entry, one unit of fuel is enough, so the cascade completes, the full
      name is up to date again, and the previous value comes back. */
  method Assign(c: ContextRef, r: Ref, d: Payload, ghost skip: bool, ghost first: string, ghost last: string,
                ghost skip': bool, ghost first': string, ghost last': string)
    returns (res: Result<Payload>)
    requires DemoStore(c, skip, first, last) && TagOf(d) == r.tag
    requires r.id in c.context.data && c.context.data[r.id].typeId == r.tag
    requires c.context.data[r.id := DataStore.New(d)] == Leaves(skip', first', last').data
    modifies c.context`data, c.context`computedData, c.context`dependencies, c.context`currentlyComputing
    ensures DemoStore(c, skip', first', last')
    ensures res == Ok(old(c.context.data[r.id].data))
  {
    ghost var t0 := c.context.Snapshot();
    ghost var done, afterSetter, path;
    res, done, afterSetter, path := r.Set(c, d, 1);
    DemoWrite(t0, c.context.Snapshot(), r.Handle(), d, res, done, path, skip, first, last, skip', first', last');
  }

  /** `skip_first_name.set(&context, b)` (lines 18 and 22). */
  method SetSkip(c: ContextRef, skip: Ref, b: bool, ghost was: bool, ghost first: string, ghost last: string)
    returns (res: Result<Payload>)
    requires skip == Ref(SkipFirstName, BoolTag) && DemoStore(c, was, first, last)
    modifies c.context`data, c.context`computedData, c.context`dependencies, c.context`currentlyComputing
    ensures DemoStore(c, b, first, last) && res == Ok(BoolVal(was))
  {
    res := Assign(c, skip, BoolVal(b), was, first, last, b, first, last);
  }

  /** `first_name.set(&context, s)` (line 20). */
  method SetFirst(c: ContextRef, first: Ref, s: string, ghost skip: bool, ghost was: string, ghost last: string)
    returns (res: Result<Payload>)
    requires first == Ref(FirstName, StrTag) && DemoStore(c, skip, was, last)
    modifies c.context`data, c.context`computedData, c.context`dependencies, c.context`currentlyComputing
    ensures DemoStore(c, skip, s, last) && res == Ok(StrVal(was))
  {
    res := Assign(c, first, StrVal(s), skip, was, last, skip, s, last);
  }

  /** `main` (lines 3-24): the names it prints, in order. The flag starts
      set, so the first name is not shown until it is cleared, and is hidden
      again once the flag is set back. */
  method Run() returns (shown: seq<string>)
    ensures shown == ["World", "Hello World", "Rea World", "World"]
  {
    var c, skip, first, last, full := Setup();
    var n1 := Show(c, full, true, "Hello", "World");
    var _ := SetSkip(c, skip, false, true, "Hello", "World");
    var n2 := Show(c, full, false, "Hello", "World");
    var _ := SetFirst(c, first, "Rea", false, "Hello", "World");
    var n3 := Show(c, full, false, "Rea", "World");
    var _ := SetSkip(c, skip, true, false, "Rea", "World");
    var n4 := Show(c, full, true, "Rea", "World");
    DemoNamesSkipping();
    DemoNamesShowing();
    shown := [n1, n2, n3, n4];
  }
}
