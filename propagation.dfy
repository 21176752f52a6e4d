/** The store's tables as a value, and what push propagation guarantees about
    them (src/context.rs:68-89, 164-174). The store class in `Contexts` changes
    these tables in place; the predicates and lemmas here describe the changes. */
module Propagation {
  import opened Tags
  import opened DataStores
  import opened Computeds

  /** The four tables of a `Context`: leaves, computed descriptors, cached results
      and the dependency graph (dependent id -> ids it has read). */
  datatype Tables = Tables(
    data: map<nat, DataStore>,
    computed: map<nat, ComputedStore>,
    cache: map<nat, DataStore>,
    deps: map<nat, set<nat>>)

  /** What a getter sees of the tables. */
  function ViewOf(t: Tables): View {
    View(t.data, t.computed.Keys, t.cache)
  }

  /** The recorded dependencies of `x`; an id without an entry has none. */
  function DepsOf(deps: map<nat, set<nat>>, x: nat): set<nat> {
    if x in deps then deps[x] else {}
  }

  /** `add_dependency_if_computing(dependency)`: with an empty stack the graph is
      left alone; otherwise `dependency` is added to the set of the id on top of
      the stack, creating that set if needed. */
  function WithEdge(deps: map<nat, set<nat>>, stack: seq<nat>, dependency: nat): (r: map<nat, set<nat>>)
    ensures stack == [] ==> r == deps
    ensures stack != [] ==> DepsOf(r, stack[|stack| - 1]) == DepsOf(deps, stack[|stack| - 1]) + {dependency}
    ensures r.Keys == deps.Keys + (if stack == [] then {} else {stack[|stack| - 1]})
    ensures forall x :: (stack == [] || x != stack[|stack| - 1]) ==> DepsOf(r, x) == DepsOf(deps, x)
  {
    if |stack| == 0 then deps
    else
      var top := stack[|stack| - 1];
      deps[top := DepsOf(deps, top) + {dependency}]
  }

  /** The effect of recording every read in `reads` for the dependent `x`. */
  function WithEdges(deps: map<nat, set<nat>>, x: nat, seen: set<nat>): (r: map<nat, set<nat>>)
    ensures DepsOf(r, x) == DepsOf(deps, x) + seen
    ensures forall y :: y != x ==> DepsOf(r, y) == DepsOf(deps, y)
    ensures r.Keys == deps.Keys + (if seen == {} then {} else {x})
  {
    if seen == {} then deps else deps[x := DepsOf(deps, x) + seen]
  }

  /** Recording reads one at a time is recording them together. */
  lemma WithEdgeWithEdges(deps: map<nat, set<nat>>, x: nat, seen: set<nat>, dependency: nat)
    ensures WithEdge(WithEdges(deps, x, seen), [x], dependency) == WithEdges(deps, x, seen + {dependency})
  {
    var l := WithEdge(WithEdges(deps, x, seen), [x], dependency);
    var r := WithEdges(deps, x, seen + {dependency});
    assert l.Keys == r.Keys;
    forall k | k in l ensures l[k] == r[k] {
      assert DepsOf(l, k) == DepsOf(r, k);
    }
  }

  lemma WithEdgesTwice(deps: map<nat, set<nat>>, x: nat, a: set<nat>, b: set<nat>)
    ensures WithEdges(WithEdges(deps, x, a), x, b) == WithEdges(deps, x, a + b)
  {
    var l := WithEdges(WithEdges(deps, x, a), x, b);
    var r := WithEdges(deps, x, a + b);
    assert l.Keys == r.Keys;
    forall k | k in l ensures l[k] == r[k] {
      assert DepsOf(l, k) == DepsOf(r, k);
    }
  }

  /** With a non-empty stack, one recorded read is an edge from the top. */
  lemma WithEdgeIsWithEdges(deps: map<nat, set<nat>>, stack: seq<nat>, dependency: nat)
    requires stack != []
    ensures WithEdge(deps, stack, dependency) == WithEdges(deps, stack[|stack| - 1], {dependency})
  {
  }

  /** The ids that `dependency`'s change triggers: those whose set contains it. */
  function Dependents(deps: map<nat, set<nat>>, dependency: nat): (r: set<nat>)
    ensures forall x :: x in r <==> dependency in DepsOf(deps, x)
  {
    set x | x in deps && dependency in deps[x]
  }

  /** The tables are well formed for an id counter `next`. */
  ghost predicate TablesValid(t: Tables, next: nat) {
    (forall i :: i in t.data ==> i < next && t.data[i].Valid()) &&
    (forall i :: i in t.computed ==> i < next && t.computed[i].source.Typed(t.computed[i].tag)) &&
    t.data.Keys !! t.computed.Keys &&
    (forall i :: i in t.cache ==> i in t.computed && t.cache[i].Valid() && t.cache[i].typeId == t.computed[i].tag) &&
    t.deps.Keys <= t.computed.Keys
  }

  /** Recording reads of allocated ids for a computed entry keeps the tables
      well formed and every edge pointing at an allocated id. */
  lemma EdgesKeepValid(t: Tables, next: nat, x: nat, seen: set<nat>)
    requires TablesValid(t, next) && EdgesKnown(t.deps, next)
    requires x in t.computed && forall i :: i in seen ==> i < next
    ensures TablesValid(t.(deps := WithEdges(t.deps, x, seen)), next)
    ensures EdgesKnown(WithEdges(t.deps, x, seen), next)
  {
  }

  /** A read recorded while only computed entries are on the stack keeps the
      tables well formed, as long as the id read is allocated. */
  lemma RecordKeepsValid(t: Tables, next: nat, stack: seq<nat>, id: nat)
    requires TablesValid(t, next) && EdgesKnown(t.deps, next)
    requires forall k :: 0 <= k < |stack| ==> stack[k] in t.computed
    requires Recorded(ViewOf(t), id)
    ensures TablesValid(t.(deps := WithEdge(t.deps, stack, id)), next)
    ensures EdgesKnown(WithEdge(t.deps, stack, id), next)
  {
    if stack != [] {
      WithEdgeIsWithEdges(t.deps, stack, id);
      EdgesKeepValid(t, next, stack[|stack| - 1], {id});
    }
  }

  lemma TablesValidView(t: Tables, next: nat)
    requires TablesValid(t, next)
    ensures ViewValid(ViewOf(t))
  {
  }

  /** Every recorded edge points at an id that has been allocated. */
  ghost predicate EdgesKnown(deps: map<nat, set<nat>>, next: nat) {
    forall x, y :: y in DepsOf(deps, x) ==> y < next
  }

  /** The store's invariant over its tables, id counter and stack: well-formed
      tables, edges only to allocated ids, and only computed entries on the
      stack. */
  ghost predicate StoreValid(t: Tables, next: nat, stack: seq<nat>) {
    TablesValid(t, next) && EdgesKnown(t.deps, next) &&
    forall k :: 0 <= k < |stack| ==> stack[k] in t.computed
  }

  /** `x`'s cached result is what its getter returns against the current tables,
      and every read that run records is in `x`'s dependency set. */
  ghost predicate Fresh(t: Tables, x: nat) {
    x in t.computed && x in t.cache &&
    t.cache[x] == t.computed[x].Get(ViewOf(t)) &&
    Reads(t.computed[x].source.getter, ViewOf(t)) <= DepsOf(t.deps, x)
  }

  /** Every id `x`'s getter mentions is already allocated, so each of its lookups
      is recorded and no later definition can change what it reads. */
  ghost predicate Sealed(t: Tables, x: nat) {
    x in t.computed && Ids(t.computed[x].source.getter) <= t.data.Keys + t.computed.Keys
  }

  /** Every computed entry's cache is up to date and fully tracked. */
  ghost predicate AllConsistent(t: Tables) {
    forall x :: x in t.computed ==> Fresh(t, x) && Sealed(t, x)
  }

  /** Every id whose dependency set mentions one of `seeds` is in `done`. */
  ghost predicate Closed(deps: map<nat, set<nat>>, done: set<nat>, seeds: set<nat>) {
    forall x, y :: y in seeds && y in DepsOf(deps, x) ==> x in done
  }

  /** The ids the getter of `x` mentions; none when `x` is not computed. */
  function Mentions(t: Tables, x: nat): set<nat> {
    if x in t.computed then Ids(t.computed[x].source.getter) else {}
  }

  /** From `a` to `b` only the entries in `done` were recomputed: leaves and
      descriptors are untouched, dependency sets only grow, and only by ids
      their getter mentions, only those of `done` change, and only the caches
      of `done` change. */
  ghost predicate Frame(a: Tables, b: Tables, done: set<nat>) {
    a.data == b.data && a.computed == b.computed &&
    done <= b.computed.Keys && done <= b.cache.Keys &&
    (forall x :: DepsOf(a.deps, x) <= DepsOf(b.deps, x)) &&
    (forall x :: DepsOf(b.deps, x) <= DepsOf(a.deps, x) + Mentions(a, x)) &&
    (forall x :: x !in done ==> DepsOf(b.deps, x) == DepsOf(a.deps, x)) &&
    (forall x :: x !in done ==> (x in a.cache <==> x in b.cache)) &&
    (forall x :: x !in done && x in a.cache && x in b.cache ==> a.cache[x] == b.cache[x])
  }

  lemma FrameRefl(a: Tables)
    ensures Frame(a, a, {})
  {
  }

  /** Replacing the leaves on both sides keeps a frame. */
  lemma FrameWithData(a: Tables, b: Tables, done: set<nat>, d: map<nat, DataStore>)
    requires Frame(a, b, done)
    ensures Frame(a.(data := d), b.(data := d), done)
  {
    assert forall x :: Mentions(a.(data := d), x) == Mentions(a, x);
  }

  lemma FrameTrans(a: Tables, b: Tables, c: Tables, s1: set<nat>, s2: set<nat>)
    requires Frame(a, b, s1) && Frame(b, c, s2)
    ensures Frame(a, c, s1 + s2)
  {
  }

  /** Propagation has settled `done`: every entry depending on one of `done` or
      `seeds` is in `done`, and each entry of `done` is fresh and does not depend
      on itself. */
  ghost predicate Settled(t: Tables, done: set<nat>, seeds: set<nat>) {
    Closed(t.deps, done, done + seeds) &&
    forall y :: y in done ==> Fresh(t, y) && y !in DepsOf(t.deps, y)
  }

  /** Entry `k` of `order` is accounted for: it is one of `seeds`, it repeats
      an earlier entry, or its dependency set holds `via[k]`, which is one of
      `seeds` or an earlier entry. */
  ghost predicate Linked(deps: map<nat, set<nat>>, seeds: set<nat>, order: seq<nat>, via: seq<nat>, k: nat)
    requires k < |order| == |via|
  {
    order[k] in seeds || order[k] in order[..k] ||
    (via[k] in DepsOf(deps, order[k]) && (via[k] in seeds || via[k] in order[..k]))
  }

  /** Every entry of `order` is accounted for, so each one is reached from
      `seeds` by following dependency edges backwards. */
  ghost predicate Chain(deps: map<nat, set<nat>>, seeds: set<nat>, order: seq<nat>, via: seq<nat>) {
    |via| == |order| && forall k :: 0 <= k < |order| ==> Linked(deps, seeds, order, via, k)
  }

  /** `done` is reached from `seeds` through `deps`: some chain lists exactly
      the entries of `done`. */
  ghost predicate Reached(deps: map<nat, set<nat>>, seeds: set<nat>, done: set<nat>) {
    exists order, via :: Chain(deps, seeds, order, via) && (forall x :: x in done <==> x in order)
  }

  lemma ReachedNothing(deps: map<nat, set<nat>>, seeds: set<nat>)
    ensures Reached(deps, seeds, {})
  {
    assert Chain(deps, seeds, [], []);
  }

  /** A chain stays a chain when it is read against dependency sets that agree
      with the old ones outside `seeds`, and the seed `x` may join it. */
  lemma ReachedAfterRecompute(d0: map<nat, set<nat>>, d1: map<nat, set<nat>>, x: nat, rest: set<nat>)
    requires Reached(d1, {x}, rest)
    requires forall y :: y != x ==> DepsOf(d1, y) == DepsOf(d0, y)
    ensures Reached(d0, {x}, rest + {x})
  {
    var order, via :| Chain(d1, {x}, order, via) && (forall y :: y in rest <==> y in order);
    var o, v := order + [x], via + [x];
    forall k | 0 <= k < |o| ensures Linked(d0, {x}, o, v, k) {
      if k < |order| {
        assert o[k] == order[k] && v[k] == via[k] && o[..k] == order[..k];
        assert Linked(d1, {x}, order, via, k);
      }
    }
    assert Chain(d0, {x}, o, v);
  }

  /** One turn of propagation from `seed`: `x` depended on `seed` in `d0`, and
      its recomputation reached `doneX` from `x` through `dB`, which agrees
      with `d0` outside the entries `done` already reached. Together they are
      reached from `seed` through `d0`. */
  lemma ReachedStep(d0: map<nat, set<nat>>, dB: map<nat, set<nat>>, seed: nat, done: set<nat>,
                    x: nat, doneX: set<nat>)
    requires Reached(d0, {seed}, done) && seed in DepsOf(d0, x)
    requires Reached(dB, {x}, doneX) && x in doneX
    requires forall y :: y !in done ==> DepsOf(dB, y) == DepsOf(d0, y)
    ensures Reached(d0, {seed}, done + doneX)
  {
    var o1, v1 :| Chain(d0, {seed}, o1, v1) && (forall y :: y in done <==> y in o1);
    var o2, v2 :| Chain(dB, {x}, o2, v2) && (forall y :: y in doneX <==> y in o2);
    var o, v := o1 + [x] + o2, v1 + [seed] + v2;
    forall k | 0 <= k < |o| ensures Linked(d0, {seed}, o, v, k) {
      if k < |o1| {
        assert o[k] == o1[k] && v[k] == v1[k] && o[..k] == o1[..k];
        assert Linked(d0, {seed}, o1, v1, k);
      } else if k == |o1| {
        assert o[k] == x && v[k] == seed;
      } else {
        var j := k - |o1| - 1;
        assert o[k] == o2[j] && v[k] == v2[j] && o[..k] == o1 + [x] + o2[..j];
        assert Linked(dB, {x}, o2, v2, j);
        if o2[j] !in o1 {
          assert DepsOf(dB, o2[j]) == DepsOf(d0, o2[j]);
        }
      }
    }
    assert Chain(d0, {seed}, o, v);
    assert forall y :: y in o <==> y in o1 || y == x || y in o2;
  }

  /** Two propagations in a row: `done1` is reached from `seeds` through `d0`,
      then `done2` from `s2` (among the seeds) through `d1`, which agrees with
      `d0` outside `done1`. Together they are reached from `seeds` through
      `d0`. */
  lemma ReachedUnion(d0: map<nat, set<nat>>, d1: map<nat, set<nat>>, seeds: set<nat>, done1: set<nat>,
                     s2: set<nat>, done2: set<nat>)
    requires Reached(d0, seeds, done1) && Reached(d1, s2, done2) && s2 <= seeds
    requires forall y :: y !in done1 ==> DepsOf(d1, y) == DepsOf(d0, y)
    ensures Reached(d0, seeds, done1 + done2)
  {
    var o1, v1 :| Chain(d0, seeds, o1, v1) && (forall y :: y in done1 <==> y in o1);
    var o2, v2 :| Chain(d1, s2, o2, v2) && (forall y :: y in done2 <==> y in o2);
    var o, v := o1 + o2, v1 + v2;
    forall k | 0 <= k < |o| ensures Linked(d0, seeds, o, v, k) {
      if k < |o1| {
        assert o[k] == o1[k] && v[k] == v1[k] && o[..k] == o1[..k];
        assert Linked(d0, seeds, o1, v1, k);
      } else {
        var j := k - |o1|;
        assert o[k] == o2[j] && v[k] == v2[j] && o[..k] == o1 + o2[..j];
        assert Linked(d1, s2, o2, v2, j);
        if o2[j] !in o1 {
          assert DepsOf(d1, o2[j]) == DepsOf(d0, o2[j]);
        }
      }
    }
    assert Chain(d0, seeds, o, v);
  }

  lemma {:induction false} ChainWithin(deps: map<nat, set<nat>>, seeds: set<nat>, order: seq<nat>, via: seq<nat>,
                                       r: set<nat>, n: nat)
    requires Chain(deps, seeds, order, via) && seeds <= r && Closed(deps, r, r) && n <= |order|
    ensures forall k :: 0 <= k < n ==> order[k] in r
    decreases n
  {
    if n > 0 {
      ChainWithin(deps, seeds, order, via, r, n - 1);
      var k := n - 1;
      assert Linked(deps, seeds, order, via, k);
      if order[k] in order[..k] {
        var j :| 0 <= j < k && order[..k][j] == order[k];
      } else if order[k] !in seeds && via[k] in order[..k] {
        var j :| 0 <= j < k && order[..k][j] == via[k];
      }
    }
  }

  /** Reached entries stay inside every set that holds the seeds and every
      dependent of its members: propagation never leaves the part of the graph
      that depends, directly or transitively, on where it started. */
  lemma ReachedWithin(deps: map<nat, set<nat>>, seeds: set<nat>, done: set<nat>, r: set<nat>)
    requires Reached(deps, seeds, done) && seeds <= r && Closed(deps, r, r)
    ensures done <= r
  {
    var order, via :| Chain(deps, seeds, order, via) && (forall y :: y in done <==> y in order);
    ChainWithin(deps, seeds, order, via, r, |order|);
  }

  /** A propagation from `seeds` that recomputed `done` leaves every entry
      outside a dependents-closed set `r` around the seeds exactly as it was:
      same cache, same dependency set. */
  lemma UnreachedKept(a: Tables, b: Tables, done: set<nat>, seeds: set<nat>, r: set<nat>)
    requires Frame(a, b, done) && Reached(a.deps, seeds, done)
    requires seeds <= r && Closed(a.deps, r, r)
    ensures forall x :: x !in r ==> DepsOf(b.deps, x) == DepsOf(a.deps, x) && (x in a.cache <==> x in b.cache)
    ensures forall x :: x !in r && x in a.cache ==> b.cache[x] == a.cache[x]
  {
    ReachedWithin(a.deps, seeds, done, r);
  }

  /** `path` follows dependency edges: each entry after the first depends on
      the entry before it, so a change of `path[0]` is pushed along the whole
      path, one recomputation per edge. */
  ghost predicate Cascade(deps: map<nat, set<nat>>, path: seq<nat>)
    decreases |path|
  {
    |path| >= 1 && (|path| == 1 || (path[0] in DepsOf(deps, path[1]) && Cascade(deps, path[1..])))
  }

  /** A cascade that ran out of `fuel` stopped along `path`: a walk of
      `fuel + 1` dependency edges in `deps` from one of `seeds`. */
  ghost predicate StoppedAlong(deps: map<nat, set<nat>>, seeds: set<nat>, fuel: nat, path: seq<nat>) {
    |path| == fuel + 2 && path[0] in seeds && Cascade(deps, path)
  }

  /** The same walk, stated edge by edge. */
  ghost predicate DependentPath(deps: map<nat, set<nat>>, path: seq<nat>) {
    |path| >= 1 && forall i :: 0 <= i < |path| - 1 ==> path[i] in DepsOf(deps, path[i + 1])
  }

  /** The graph has a cycle: some entry depends on itself through one edge or
      more. */
  ghost predicate Cyclic(deps: map<nat, set<nat>>) {
    exists path :: DependentPath(deps, path) && |path| >= 2 && path[|path| - 1] == path[0]
  }

  lemma {:induction false} CascadeEdges(deps: map<nat, set<nat>>, path: seq<nat>)
    requires Cascade(deps, path)
    ensures DependentPath(deps, path)
    decreases |path|
  {
    if |path| > 1 {
      CascadeEdges(deps, path[1..]);
      forall i | 0 <= i < |path| - 1
        ensures path[i] in DepsOf(deps, path[i + 1])
      {
        if i > 0 {
          assert path[i] == path[1..][i - 1] && path[i + 1] == path[1..][i];
        }
      }
    }
  }

  /** A recomputed entry that depended on `dependency` before the
      recomputations from `t0` to `t` extends a cascade from it in `t` by one
      edge. */
  lemma CascadeStep(t0: Tables, t: Tables, done: set<nat>, dependency: nat, path: seq<nat>)
    requires Frame(t0, t, done) && Cascade(t.deps, path) && dependency in DepsOf(t0.deps, path[0])
    ensures Cascade(t.deps, [dependency] + path)
  {
    assert ([dependency] + path)[1..] == path;
  }

  /** A cascade stays one when dependency sets only grow. */
  lemma {:induction false} CascadeGrows(d0: map<nat, set<nat>>, d1: map<nat, set<nat>>, path: seq<nat>)
    requires Cascade(d0, path)
    requires forall x :: DepsOf(d0, x) <= DepsOf(d1, x)
    ensures Cascade(d1, path)
    decreases |path|
  {
    if |path| > 1 {
      CascadeGrows(d0, d1, path[1..]);
    }
  }

  /** More entries than a set holds, all from that set: one repeats. */
  lemma {:induction false} Pigeonhole(s: seq<nat>, S: set<nat>)
    requires forall i :: 0 <= i < |s| ==> s[i] in S
    requires |s| > |S|
    ensures exists i, j :: 0 <= i < j < |s| && s[i] == s[j]
    decreases |s|
  {
    if s[0] in s[1..] {
      var k :| 0 <= k < |s[1..]| && s[1..][k] == s[0];
      assert s[0] == s[k + 1];
    } else {
      forall i | 0 <= i < |s[1..]|
        ensures s[1..][i] in S - {s[0]}
      {
        assert s[1..][i] in s[1..];
      }
      Pigeonhole(s[1..], S - {s[0]});
      var i, j :| 0 <= i < j < |s[1..]| && s[1..][i] == s[1..][j];
      assert s[i + 1] == s[j + 1];
    }
  }

  /** A cascade with more edges than there are entries with a dependency set
      visits some entry twice, so the graph has a cycle. In an acyclic graph
      no cascade is longer than that. */
  lemma CascadeMeansCycle(deps: map<nat, set<nat>>, path: seq<nat>)
    requires Cascade(deps, path) && |path| > |deps.Keys| + 1
    ensures Cyclic(deps)
  {
    CascadeEdges(deps, path);
    var s := path[1..];
    forall i | 0 <= i < |s|
      ensures s[i] in deps.Keys
    {
      assert path[i] in DepsOf(deps, path[i + 1]);
    }
    Pigeonhole(s, deps.Keys);
    var i, j :| 0 <= i < j < |s| && s[i] == s[j];
    var c := path[i + 1..j + 2];
    forall k | 0 <= k < |c| - 1
      ensures c[k] in DepsOf(deps, c[k + 1])
    {
      assert c[k] == path[i + 1 + k] && c[k + 1] == path[i + 2 + k];
    }
    assert DependentPath(deps, c) && c[|c| - 1] == c[0];
  }

  /** In well-formed tables, a cascade that stopped with at least as much
      fuel as there are computed entries has gone round a dependency cycle:
      with that much fuel, propagation over an acyclic graph always
      completes. */
  lemma StoppedMeansCycle(t: Tables, next: nat, seeds: set<nat>, fuel: nat, path: seq<nat>)
    requires TablesValid(t, next) && StoppedAlong(t.deps, seeds, fuel, path) && fuel >= |t.computed.Keys|
    ensures Cyclic(t.deps)
  {
    assert t.computed.Keys == t.deps.Keys + (t.computed.Keys - t.deps.Keys);
    CascadeMeansCycle(t.deps, path);
  }

  /** Every dependency edge points at an older id. */
  ghost predicate Downward(deps: map<nat, set<nat>>) {
    forall x: nat, y :: y in DepsOf(deps, x) ==> y < x
  }

  /** Every getter mentions only ids older than its own entry, as when each
      entry is defined over entries that already exist. */
  ghost predicate Layered(t: Tables) {
    forall x: nat, i :: x in t.computed && i in Ids(t.computed[x].source.getter) ==> i < x
  }

  /** Propagation over layered tables keeps every edge pointing at an older
      id: each edge it adds goes to an id the dependent's getter mentions. */
  lemma FrameKeepsDownward(a: Tables, b: Tables, done: set<nat>)
    requires Frame(a, b, done) && Layered(a) && Downward(a.deps)
    ensures Layered(b) && Downward(b.deps)
  {
    forall x: nat, y | y in DepsOf(b.deps, x)
      ensures y < x
    {
      assert y in DepsOf(a.deps, x) || y in Mentions(a, x);
    }
  }

  /** Along a walk whose edges point at older ids, the ids strictly rise. */
  lemma {:induction false} DownwardRises(deps: map<nat, set<nat>>, path: seq<nat>, j: nat)
    requires Downward(deps) && DependentPath(deps, path) && 1 <= j < |path|
    ensures path[0] < path[j]
    decreases j
  {
    assert path[j - 1] in DepsOf(deps, path[j]);
    if j > 1 {
      DownwardRises(deps, path, j - 1);
    }
  }

  /** A graph whose edges all point at older ids has no cycle. */
  lemma DownwardAcyclic(deps: map<nat, set<nat>>)
    requires Downward(deps)
    ensures !Cyclic(deps)
  {
    forall path | DependentPath(deps, path) && |path| >= 2
      ensures path[|path| - 1] != path[0]
    {
      DownwardRises(deps, path, |path| - 1);
    }
  }

  /** Propagation from `a` to `b` over layered tables whose edges point at
      older ids, with at least as much fuel as there are computed entries,
      never stops: the graph stays acyclic, and the walk it would stop along
      is longer than any walk an acyclic graph has. */
  lemma LayeredNeverStops(a: Tables, b: Tables, done: set<nat>, seeds: set<nat>, fuel: nat, path: seq<nat>)
    requires Frame(a, b, done) && b.deps.Keys <= b.computed.Keys
    requires Layered(a) && Downward(a.deps) && fuel >= |a.computed.Keys|
    ensures !StoppedAlong(b.deps, seeds, fuel, path)
    ensures Layered(b) && Downward(b.deps)
  {
    FrameKeepsDownward(a, b, done);
    DownwardAcyclic(b.deps);
    if StoppedAlong(b.deps, seeds, fuel, path) {
      assert b.computed.Keys == b.deps.Keys + (b.computed.Keys - b.deps.Keys);
      CascadeMeansCycle(b.deps, path);
      assert false;
    }
  }

  /** Defining a computed entry under the next id, with a getter that
      mentions only known ids, and evaluating it once keeps the tables layered
      with every edge pointing at an older id. */
  lemma DefineKeepsLayered(t: Tables, next: nat, s: ComputedStore)
    requires TablesValid(t, next) && Layered(t) && Downward(t.deps)
    requires Ids(s.source.getter) <= KnownIds(t)
    ensures Layered(Recompute(Define(t, next, s), next))
    ensures Downward(Recompute(Define(t, next, s), next).deps)
  {
    var tA := Define(t, next, s);
    var tB := Recompute(tA, next);
    TouchedInIds(s.source.getter, ViewOf(tA));
    forall x: nat, y | y in DepsOf(tB.deps, x)
      ensures y < x
    {
      if x != next {
        assert DepsOf(tB.deps, x) == DepsOf(t.deps, x);
      }
    }
  }

  /** An entry stays fresh from `a` to `b` when its recorded reads agree. */
  lemma {:induction false} FreshWhenReadsAgree(a: Tables, b: Tables, x: nat)
    requires Fresh(a, x)
    requires a.computed == b.computed && SameShape(ViewOf(a), ViewOf(b))
    requires x in b.cache && b.cache[x] == a.cache[x]
    requires DepsOf(a.deps, x) <= DepsOf(b.deps, x)
    requires forall i :: i in DepsOf(a.deps, x) ==> AgreeAt(ViewOf(a), ViewOf(b), i)
    ensures Fresh(b, x)
    ensures Touched(a.computed[x].source.getter, ViewOf(a)) == Touched(b.computed[x].source.getter, ViewOf(b))
  {
    var g := a.computed[x].source.getter;
    ReadsDecide(g, ViewOf(a), ViewOf(b));
    assert Reads(g, ViewOf(b)) <= DepsOf(b.deps, x);
    forall i | i in Touched(g, ViewOf(a)) ensures AgreeAt(ViewOf(a), ViewOf(b), i) {
      if !Recorded(ViewOf(a), i) {
        assert i !in a.data && i !in a.computed;
      }
    }
    TouchedDecide(g, ViewOf(a), ViewOf(b));
  }

  /** An entry stays fresh from `a` to `b`, even across a change of known ids, when
      every id its getter looks up answers the same. */
  lemma {:induction false} FreshWhenTouchedAgree(a: Tables, b: Tables, x: nat)
    requires Fresh(a, x)
    requires x in b.computed && b.computed[x] == a.computed[x]
    requires x in b.cache && b.cache[x] == a.cache[x]
    requires DepsOf(a.deps, x) <= DepsOf(b.deps, x)
    requires forall i :: i in Touched(a.computed[x].source.getter, ViewOf(a)) ==> AgreeAt(ViewOf(a), ViewOf(b), i)
    ensures Fresh(b, x)
  {
    var g := a.computed[x].source.getter;
    TouchedDecide(g, ViewOf(a), ViewOf(b));
    assert Reads(g, ViewOf(b)) == Reads(g, ViewOf(a)) by {
      forall i | i in Touched(g, ViewOf(a)) ensures Recorded(ViewOf(a), i) <==> Recorded(ViewOf(b), i) {
        AgreeAtLookup(ViewOf(a), ViewOf(b), i, BoolTag);
      }
    }
  }

  /** The heart of push propagation: an entry outside the recomputed set `done`
      that was fresh stays fresh, because any entry it reads that was recomputed
      would, by closure, have pulled it into `done`. */
  lemma {:induction false} StaysFresh(a: Tables, b: Tables, done: set<nat>, x: nat)
    requires Frame(a, b, done) && Closed(b.deps, done, done)
    requires x !in done && Fresh(a, x)
    ensures Fresh(b, x)
    ensures Touched(a.computed[x].source.getter, ViewOf(a)) == Touched(b.computed[x].source.getter, ViewOf(b))
  {
    forall i | i in DepsOf(a.deps, x) ensures AgreeAt(ViewOf(a), ViewOf(b), i) {
      assert i in DepsOf(b.deps, x);
    }
    FreshWhenReadsAgree(a, b, x);
  }

  /** Recomputing `x`: push it, run the getter (recording its reads for `x`), pop
      it and cache the result. Afterwards `x` is fresh unless it read itself. */
  function Recompute(t: Tables, x: nat): (r: Tables)
    requires x in t.computed
    ensures r.data == t.data && r.computed == t.computed
    ensures r.cache == t.cache[x := t.computed[x].Get(ViewOf(t))]
    ensures r.deps == WithEdges(t.deps, x, Reads(t.computed[x].source.getter, ViewOf(t)))
  {
    var g := t.computed[x].source.getter;
    Tables(t.data, t.computed, t.cache[x := t.computed[x].Get(ViewOf(t))], WithEdges(t.deps, x, Reads(g, ViewOf(t))))
  }

  /** Recomputing `x` changes only `x`'s cache and dependency set. */
  lemma RecomputeFrame(t: Tables, x: nat)
    requires x in t.computed
    ensures Frame(t, Recompute(t, x), {x})
  {
    TouchedInIds(t.computed[x].source.getter, ViewOf(t));
  }

  /** Recomputing a well-typed entry keeps the tables well formed. */
  lemma RecomputeKeepsValid(t: Tables, next: nat, x: nat)
    requires TablesValid(t, next) && EdgesKnown(t.deps, next) && x in t.computed
    ensures TablesValid(Recompute(t, x), next) && EdgesKnown(Recompute(t, x).deps, next)
  {
    var g := t.computed[x].source.getter;
    TablesValidView(t, next);
    EdgesKeepValid(t, next, x, Reads(g, ViewOf(t)));
  }

  lemma {:induction false} RecomputeFresh(t: Tables, x: nat)
    requires x in t.computed
    requires x !in Reads(t.computed[x].source.getter, ViewOf(t))
    ensures Frame(t, Recompute(t, x), {x})
    ensures Fresh(Recompute(t, x), x)
    ensures Touched(t.computed[x].source.getter, ViewOf(t)) == Touched(t.computed[x].source.getter, ViewOf(Recompute(t, x)))
  {
    RecomputeFrame(t, x);
    var r := Recompute(t, x);
    var g := t.computed[x].source.getter;
    forall i | i in Reads(g, ViewOf(t)) ensures AgreeAt(ViewOf(t), ViewOf(r), i) {
    }
    ReadsDecide(g, ViewOf(t), ViewOf(r));
    forall i | i in Touched(g, ViewOf(t)) ensures AgreeAt(ViewOf(t), ViewOf(r), i) {
      if !Recorded(ViewOf(t), i) {
        assert i !in t.data && i !in t.computed;
      }
    }
    TouchedDecide(g, ViewOf(t), ViewOf(r));
  }

  /** One step of the recursion: `x` is recomputed (`t0` to `t1`), then propagation
      from `x` recomputes `rest` (`t1` to `t2`). If that propagation completed,
      `x` is fresh as well and the whole of `rest + {x}` is closed. */
  lemma {:induction false} RecomputeThenPropagate(t0: Tables, t1: Tables, t2: Tables, x: nat, rest: set<nat>)
    requires x in t0.computed && t1 == Recompute(t0, x) && Frame(t1, t2, rest)
    requires Closed(t2.deps, rest, rest + {x})
    requires forall y :: y in rest ==> Fresh(t2, y) && y !in DepsOf(t2.deps, y)
    ensures Closed(t2.deps, rest + {x}, rest + {x})
    ensures forall y :: y in rest + {x} ==> Fresh(t2, y) && y !in DepsOf(t2.deps, y)
    ensures x !in Reads(t0.computed[x].source.getter, ViewOf(t0))
  {
    assert Reads(t0.computed[x].source.getter, ViewOf(t0)) <= DepsOf(t2.deps, x);
    if x !in rest {
      RecomputeFresh(t0, x);
      StaysFresh(t1, t2, rest, x);
    }
  }

  /** Everything `computed_execute_getter` promises about the tables, from its
      two halves: `x` is recomputed (`t0` to `t1`), then propagation from `x`
      recomputes `rest` (`t1` to `t2`). */
  lemma ExecuteGetterSteps(t0: Tables, t1: Tables, t2: Tables, x: nat, rest: set<nat>, ok: bool)
    requires x in t0.computed && t1 == Recompute(t0, x) && Frame(t1, t2, rest)
    requires Dependents(t1.deps, x) == {} ==> rest == {} && t2 == t1
    requires ok ==> Settled(t2, rest, {x})
    requires Reached(t1.deps, {x}, rest)
    ensures Frame(t0, t2, rest + {x}) && x in t2.cache
    ensures Reached(t0.deps, {x}, rest + {x})
    ensures Dependents(t1.deps, x) == {} ==> rest + {x} == {x} && t2 == t1
    ensures ok ==> Settled(t2, rest + {x}, {}) && x !in Reads(t0.computed[x].source.getter, ViewOf(t0))
  {
    RecomputeFrame(t0, x);
    ReachedAfterRecompute(t0.deps, t1.deps, x, rest);
    FrameTrans(t0, t1, t2, {x}, rest);
    if ok {
      RecomputeThenPropagate(t0, t1, t2, x, rest);
    }
  }

  /** What the loop over the collected dependents `toCompute` of `dependency`
      knows after its first `i` turns, from `t0` to `t`: only `done` was
      recomputed, `done` is settled, it holds the first `i` dependents, and
      every entry depending on `dependency` is in `done` or still to come. */
  ghost predicate Progress(t0: Tables, t: Tables, done: set<nat>, dependency: nat, toCompute: seq<nat>, i: nat)
    requires i <= |toCompute|
  {
    Frame(t0, t, done) && Settled(t, done, {}) &&
    (forall k :: 0 <= k < i ==> toCompute[k] in done) &&
    (forall y :: dependency in DepsOf(t.deps, y) ==> y in done || y in toCompute[i..])
  }

  /** A pass that has no fuel left for its `i`-th dependent stops along the
      edge from `dependency` to that dependent. */
  lemma StopFirst(t0: Tables, t: Tables, done: set<nat>, dependency: nat, toCompute: seq<nat>, i: nat)
    requires i < |toCompute| && Progress(t0, t, done, dependency, toCompute, i)
    requires dependency in DepsOf(t0.deps, toCompute[i])
    ensures StoppedAlong(t.deps, {dependency}, 0, [dependency, toCompute[i]])
  {
    assert [dependency, toCompute[i]][1..] == [toCompute[i]];
  }

  /** A pass whose `i`-th recomputation stopped along `path` stops along
      `[dependency] + path`, having recomputed `done + doneX`. */
  lemma StopStep(t0: Tables, before: Tables, t: Tables, done: set<nat>, doneX: set<nat>,
                 dependency: nat, toCompute: seq<nat>, i: nat, n: nat, path: seq<nat>)
    requires i < |toCompute| && Progress(t0, before, done, dependency, toCompute, i)
    requires Frame(before, t, doneX)
    requires dependency in DepsOf(t0.deps, toCompute[i]) && StoppedAlong(t.deps, {toCompute[i]}, n, path)
    ensures Frame(t0, t, done + doneX)
    ensures StoppedAlong(t.deps, {dependency}, n + 1, [dependency] + path)
  {
    FrameTrans(t0, before, t, done, doneX);
    CascadeStep(t0, t, done + doneX, dependency, path);
  }

  /** Before the first turn, `toCompute` holds every dependent. */
  lemma ProgressStart(t0: Tables, dependency: nat, toCompute: seq<nat>)
    requires forall y :: y in toCompute <==> y in Dependents(t0.deps, dependency)
    ensures Progress(t0, t0, {}, dependency, toCompute, 0)
  {
    FrameRefl(t0);
    assert toCompute[0..] == toCompute;
  }

  /** After the last turn, every dependent of `dependency` was recomputed. */
  lemma ProgressEnd(t0: Tables, t: Tables, done: set<nat>, dependency: nat, toCompute: seq<nat>)
    requires Progress(t0, t, done, dependency, toCompute, |toCompute|)
    ensures Frame(t0, t, done) && Settled(t, done, {dependency})
  {
  }

  /** Settled sets of two successive recomputations combine. */
  lemma StepSettles(before: Tables, after: Tables, done: set<nat>, doneX: set<nat>)
    requires Settled(before, done, {}) && Frame(before, after, doneX) && Settled(after, doneX, {})
    ensures Settled(after, done + doneX, {})
  {
    forall y | y in done && y !in doneX
      ensures Fresh(after, y) && y !in DepsOf(after.deps, y)
    {
      StaysFresh(before, after, doneX, y);
    }
  }

  /** After the turn on `toCompute[i]`, an entry depending on `dependency` is
      recomputed or still to come. */
  lemma StepCovers(before: Tables, after: Tables, done: set<nat>, doneX: set<nat>,
                   dependency: nat, toCompute: seq<nat>, i: nat)
    requires i < |toCompute| && toCompute[i] in doneX && Frame(before, after, doneX)
    requires forall y :: dependency in DepsOf(before.deps, y) ==> y in done || y in toCompute[i..]
    ensures forall y :: dependency in DepsOf(after.deps, y) ==> y in done + doneX || y in toCompute[i + 1..]
  {
    forall y | dependency in DepsOf(after.deps, y) && y !in doneX
      ensures y in done || y in toCompute[i + 1..]
    {
      assert dependency in DepsOf(before.deps, y);
      if y !in done {
        assert y in toCompute[i..];
        var k :| i <= k < |toCompute| && toCompute[k] == y;
        assert toCompute[k] in toCompute[i + 1..];
      }
    }
  }

  /** One turn of the loop: `doneX` is what the recomputation of `toCompute[i]`
      recomputed (`before` to `after`); the loop's facts carry over to
      `done + doneX`. */
  lemma PropagateStep(t0: Tables, before: Tables, after: Tables, done: set<nat>, doneX: set<nat>,
                      dependency: nat, toCompute: seq<nat>, i: nat)
    requires i < |toCompute| && toCompute[i] in doneX
    requires Progress(t0, before, done, dependency, toCompute, i)
    requires Frame(before, after, doneX) && Settled(after, doneX, {})
    ensures Progress(t0, after, done + doneX, dependency, toCompute, i + 1)
  {
    FrameTrans(t0, before, after, done, doneX);
    StepSettles(before, after, done, doneX);
    StepCovers(before, after, done, doneX, dependency, toCompute, i);
  }

  /** The tables after `x` is defined as the computed entry `s`, before it is
      first evaluated. */
  function Define(t: Tables, x: nat, s: ComputedStore): (r: Tables)
    ensures r.data == t.data && r.cache == t.cache && r.deps == t.deps
    ensures x in r.computed && r.computed[x] == s && r.computed.Keys == t.computed.Keys + {x}
  {
    t.(computed := t.computed[x := s])
  }

  /** A leaf stored under the next unallocated id keeps the tables well formed
      once the counter moves past it. */
  lemma NewLeafKeepsValid(t: Tables, next: nat, c: DataStore)
    requires TablesValid(t, next) && EdgesKnown(t.deps, next) && c.Valid()
    ensures TablesValid(t.(data := t.data[next := c]), next + 1)
    ensures EdgesKnown(t.deps, next + 1)
  {
  }

  /** Replacing an allocated leaf with a valid cell keeps the tables well
      formed. */
  lemma LeafWriteKeepsValid(t: Tables, next: nat, id: nat, c: DataStore)
    requires TablesValid(t, next) && id in t.data && c.Valid()
    ensures TablesValid(t.(data := t.data[id := c]), next)
  {
  }

  /** A well-typed descriptor defined under the next unallocated id keeps the
      tables well formed once the counter moves past it. */
  lemma DefineKeepsValid(t: Tables, next: nat, s: ComputedStore)
    requires TablesValid(t, next) && EdgesKnown(t.deps, next) && s.source.Typed(s.tag)
    ensures TablesValid(Define(t, next, s), next + 1)
    ensures EdgesKnown(t.deps, next + 1)
  {
  }

  /** A fresh definition that does not read itself has no dependents once
      evaluated: every older dependency set names only older ids. */
  lemma DefineHasNoDependents(t: Tables, x: nat, s: ComputedStore)
    requires EdgesKnown(t.deps, x)
    requires x !in Reads(s.source.getter, ViewOf(Define(t, x, s)))
    ensures Dependents(Recompute(Define(t, x, s), x).deps, x) == {}
  {
    var tB := Recompute(Define(t, x, s), x);
    forall y ensures x !in DepsOf(tB.deps, y) {
      if y != x {
        assert DepsOf(tB.deps, y) == DepsOf(t.deps, y);
      }
    }
  }

  /** The known ids of the tables: every leaf and computed entry. */
  function KnownIds(t: Tables): set<nat> {
    t.data.Keys + t.computed.Keys
  }

  /** Defining a leaf under a fresh id keeps every computed entry consistent:
      no sealed getter can look the new id up. */
  lemma {:induction false} NewLeafKeepsConsistent(t: Tables, id: nat, c: DataStore)
    requires AllConsistent(t) && id !in KnownIds(t)
    ensures AllConsistent(t.(data := t.data[id := c]))
  {
    var u := t.(data := t.data[id := c]);
    forall x | x in u.computed ensures Fresh(u, x) && Sealed(u, x) {
      var g := t.computed[x].source.getter;
      TouchedInIds(g, ViewOf(t));
      forall i | i in Touched(g, ViewOf(t)) ensures AgreeAt(ViewOf(t), ViewOf(u), i) {
        assert i != id;
      }
      FreshWhenTouchedAgree(t, u, x);
    }
  }

  /** A leaf write followed by a completed propagation keeps every computed entry
      consistent: an entry that read the written leaf, or an entry that was
      recomputed, was itself recomputed; every other entry read only unchanged
      entries. */
  lemma {:induction false} WriteKeepsConsistent(t0: Tables, t2: Tables, id: nat, c: DataStore, done: set<nat>)
    requires AllConsistent(t0) && id in t0.data
    requires Frame(t0.(data := t0.data[id := c]), t2, done)
    requires Closed(t2.deps, done, done + {id})
    requires forall x :: x in done ==> Fresh(t2, x)
    ensures AllConsistent(t2)
  {
    var t1 := t0.(data := t0.data[id := c]);
    forall x | x in t2.computed ensures Fresh(t2, x) && Sealed(t2, x) {
      if x !in done {
        forall i | i in DepsOf(t0.deps, x) ensures AgreeAt(ViewOf(t0), ViewOf(t2), i) {
          assert i in DepsOf(t2.deps, x);
        }
        FreshWhenReadsAgree(t0, t2, x);
      }
    }
  }

  /** Defining a computed entry under a fresh id, recomputing it once and finding
      that nothing depends on it keeps every entry consistent, the new one
      included, provided its getter mentions only ids known before. */
  lemma {:induction false} DefineKeepsConsistent(t0: Tables, id: nat, s: ComputedStore)
    requires AllConsistent(t0) && id !in KnownIds(t0)
    requires Ids(s.source.getter) <= KnownIds(t0)
    ensures id !in Reads(s.source.getter, ViewOf(Define(t0, id, s)))
    ensures AllConsistent(Recompute(Define(t0, id, s), id))
  {
    var tA := Define(t0, id, s);
    var tB := Recompute(tA, id);
    TouchedInIds(s.source.getter, ViewOf(tA));
    RecomputeFresh(tA, id);
    forall x | x in tB.computed ensures Fresh(tB, x) && Sealed(tB, x) {
      if x != id {
        var g := t0.computed[x].source.getter;
        TouchedInIds(g, ViewOf(t0));
        forall i | i in Touched(g, ViewOf(t0)) ensures AgreeAt(ViewOf(t0), ViewOf(tB), i) {
          assert i != id;
        }
        FreshWhenTouchedAgree(t0, tB, x);
      }
    }
  }

  /** Overwriting one cached result with a valid value of the entry's type keeps
      the tables well formed. */
  lemma OverwriteKeepsValid(t: Tables, next: nat, id: nat, c: DataStore)
    requires TablesValid(t, next) && id in t.computed && c.Valid() && c.typeId == t.computed[id].tag
    ensures TablesValid(t.(cache := t.cache[id := c]), next)
  {
  }

  /** Overwriting one cached result without propagation leaves fresh every other
      entry that does not depend on it. */
  lemma OverwriteKeepsOthers(t: Tables, id: nat, c: DataStore)
    requires AllConsistent(t) && id in t.cache
    ensures forall x :: x in t.computed && x != id && id !in DepsOf(t.deps, x) ==>
              Fresh(t.(cache := t.cache[id := c]), x)
  {
    var u := t.(cache := t.cache[id := c]);
    forall x | x in t.computed && x != id && id !in DepsOf(t.deps, x)
      ensures Fresh(u, x)
    {
      forall i | i in DepsOf(t.deps, x) ensures AgreeAt(ViewOf(t), ViewOf(u), i) {
      }
      FreshWhenReadsAgree(t, u, x);
    }
  }
}
