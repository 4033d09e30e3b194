/** Two histories in which a reload loses its place: its predecessor goes with it, or with what its install unloads. */
module Displaced {
  import opened Prefix
  import opened Tree
  import opened Claims
  import opened ModuleEntry
  import opened Dispatch
  import opened Lifecycle
  import opened HostLemmas
  import opened Tables
  import opened Orders
  import opened Loading
  import opened Reloading
  import opened Loader

  /** A plain module: it opens, has a context and an install that does nothing, and makes no claim. */
  function Plain(path: string): Request {
    Request(path, 0, {}, true, true, true, None, NoHandler, true, [])
  }

  /** Nothing is gated, and no place has been lost. */
  ghost predicate Open(b: Books) {
    b.gates == OPEN && !b.stray && AllLinked(b)
  }

  /** One module alone. */
  ghost predicate Alone(b: Books, e: Module) {
    Open(b) && ROOT in b.lists && b.lists[ROOT] == [e] && b.table == map[e := Entry(1, ROOT)]
  }

  lemma FirstLoaded(b: Books, b': Books, e: Module)
    requires b == Books(SEED, map[ROOT := []], map[], OPEN, 0, {}, false) && AllLinked(b)
    requires Carries(b, b', {}) && Added(ROOT, b, b', Plain(e.path), null, e) && b'.stray == b.stray
    ensures Alone(b', e)
  {
    assert Named([]) == {};
    OnlyAdded(map[], b'.table, e);
    assert [] + [e] == [e];
  }

  method LoadFirst(path: string) returns (r: Registry, e: Module)
    ensures fresh(r) && r.Valid() && r.current == ROOT && Alone(r.Now(), e) && e.path == path && e.loader == null
  {
    r := new Registry();
    ghost var b := r.Now();
    assert Calm([]);
    var status, entry, ts := r.Load(Plain(path), null);
    e := entry.value;
    FirstLoaded(b, r.Now(), e);
  }

  /** Two modules in the root region, neither loaded by the other. */
  ghost predicate Neighbours(b: Books, first: Module, x: Module) {
    && Open(b) && ROOT in b.lists && b.lists[ROOT] == [first, x] && x != first && x.loader == null
    && b.table == map[first := Entry(1, ROOT), x := Entry(1, ROOT)] && x.serial < b.nextSerial
  }

  /** Entered beside the first. */
  lemma EnteredBeside(b: Books, first: Module, x: Module)
    requires Alone(b, first) && x !in b.table && x.loader == null && x.serial == b.nextSerial
    ensures Neighbours(Entered(b, ROOT, x), first, x)
  {
    assert [first] + [x] == [first, x];
  }

  lemma SecondLoaded(b: Books, b': Books, first: Module, x: Module)
    requires Alone(b, first) && Balanced(b') && Carries(b, b', {}) && b'.stray == b.stray
    requires Added(ROOT, b, b', Plain(x.path), null, x)
    ensures Neighbours(b', first, x)
  {
    assert Named([]) == {};
    OnlyAdded(b.table, b'.table, x);
    assert [first] + [x] == [first, x];
    IsOld(b', x);
  }

  method LoadSecond(r: Registry, first: Module, path: string) returns (x: Module)
    requires r.Valid() && r.current == ROOT && Alone(r.Now(), first) && first.path != path
    modifies r
    ensures r.Valid() && r.current == ROOT && Neighbours(r.Now(), first, x) && x.path == path
  {
    ghost var b := r.Now();
    assert Calm([]);
    var status, entry, ts := r.Load(Plain(path), null);
    x := entry.value;
    SecondLoaded(b, r.Now(), first, x);
  }

  /** In front of x stands a module that x loaded. */
  ghost predicate BehindItsChild(b: Books, x: Module, y: Module) {
    && Open(b) && ROOT in b.lists && [y, x] <= b.lists[ROOT] && y.loader == x && y.hasCtx && x.serial < y.serial
    && x in b.table && b.table[x] == Entry(1, ROOT) && y in b.table && b.table[y] == Entry(1, ROOT)
  }

  /** Unloading the first leaves x alone. */
  lemma FirstGone(b: Books, first: Module, x: Module)
    requires Balanced(b) && Neighbours(b, first, x)
    ensures var b1 := Unloaded(b, first);
            ROOT in b1.lists && b1.lists[ROOT] == [x] && b1.table == map[x := Entry(1, ROOT)]
    ensures x.path != first.path
  {
    var gone := DoomedSet(b.table, first);
    assert !Doomed(b.table, first, x);
    forall z | z in gone ensures z == first { assert z == first || z == x; }
    assert first in gone;
    assert [first, x][1..] == [x] && [x][1..] == [] && Without([x], gone) == [x];
    if x.path == first.path { OneHere(b, ROOT, x.path, x, first); }
  }

  /** Reloaded by x's install, the first module takes its old place, in front of its new loader. */
  lemma ReloadedBefore(r: ReloadRun, first: Module, x: Module)
    requires Genuine(r) && r.k == ROOT && r.loader == x && Neighbours(r.b, first, x) && r.req == Plain(first.path)
    ensures r.entry.Some? && BehindItsChild(r.b3, x, r.entry.value)
  {
    OneHere(r.b, ROOT, first.path, r.e, first);
    FirstGone(r.b, first, x);
    assert Named([]) == {} && Calm([]);
    ReloadedAnew(r);
    VacantAfter(r.b, ROOT, r.e, first.path);
    assert r.status == Ok && r.after == None;
    ReloadCarries(r);
    LoadedBeside(r.b1, r.b2, x, r.loaded.value);
    InFront(r.b2, r.b3, x, r.loaded.value, r.lost);
  }

  lemma LoadedBeside(b: Books, b': Books, x: Module, y: Module)
    requires ROOT in b.lists && b.lists[ROOT] == [x] && b.table == map[x := Entry(1, ROOT)] && x.serial < b.nextSerial
    requires Added(ROOT, b, b', Plain(y.path), x, y) && b.gates == OPEN && !b'.stray
    ensures ROOT in b'.lists && b'.lists[ROOT] == [x, y] && x != y && y.loader == x && y.hasCtx && x.serial < y.serial
    ensures b'.table == map[x := Entry(1, ROOT), y := Entry(1, ROOT)] && b'.gates == OPEN
  {
    assert Named([]) == {};
    OnlyAdded(b.table, b'.table, y);
    assert [x] + [y] == [x, y];
  }

  lemma InFront(b: Books, b': Books, x: Module, y: Module, lost: bool)
    requires ROOT in b.lists && b.lists[ROOT] == [x, y] && x != y && y.loader == x && y.hasCtx && x.serial < y.serial
    requires b.table == map[x := Entry(1, ROOT), y := Entry(1, ROOT)] && PutBackEffect(b, b', ROOT, y, None, lost)
    requires b.gates == OPEN && !b.stray
    ensures BehindItsChild(b', x, y)
  {
    assert [x, y][1..] == [y] && [y][1..] == [] && Without([y], {y}) == [];
    assert Without([x, y], {y}) == [x] + Without([y], {y}) == [x];
    assert b'.lists[ROOT] == [y, x];
  }

  /** A reload of a module behind its own child takes the predecessor away. */
  lemma ChildIsLost(r: ReloadRun, x: Module, y: Module)
    requires Genuine(r) && r.k == ROOT && BehindItsChild(r.b, x, y) && r.req == Plain(x.path)
    ensures r.lost
  {
    OneHere(r.b, ROOT, x.path, r.e, x);
    var ms := r.b.lists[ROOT];
    assert ms[0] == y && ms[1] == x;
    ListedOnce(r.b, ROOT);
    assert r.after == Some(y);
    assert Named([]) == {} && Calm([]);
    ReloadedAnew(r);
    VacantAfter(r.b, ROOT, x, x.path);
    assert r.status == Ok;
    SafeNone(y);
    assert Reached(r.b.table, x, y);
    ReloadLosesEarly(r);
  }

  /**
   * The first module is loaded, then x, whose install reloads the first: that takes its old place in front of x, and x
   * is now its loader.
   */
  method PutChildInFront() returns (r: Registry, x: Module, y: Module)
    ensures fresh(r) && r.Valid() && r.current == ROOT && BehindItsChild(r.Now(), x, y) && x.path == "x"
  {
    var first;
    r, first := LoadFirst("first");
    ghost var b := r.Now();
    var status, entry, ts := r.Load(Plain("x").(install := [ReloadModule(Plain("first"))]), null);
    x := entry.value;
    EnteredBeside(b, first, x);
    assert IsHere(Entered(b, ROOT, x).table, ROOT, "first", first);
    FollowsIs(ReloadModule(Plain("first")), x, ts[0], ts[1]);
    ghost var run := ts[1].run.value;
    ReloadedBefore(run, first, x);
    var found := r.Find("first");
    assert !Vacant(r.table, ROOT, "first") by { assert IsHere(r.table, ROOT, "first", run.entry.value); }
    y := found.value;
    OneHere(r.Now(), ROOT, "first", y, run.entry.value);
  }

  /** From there a reload of x takes its own predecessor away. */
  method LoseToCascade() returns (lost: bool)
    ensures lost
  {
    var r, x, y := PutChildInFront();
    assert IsHere(r.table, ROOT, "x", x);
    var status, again;
    ghost var run;
    status, again, lost, run := r.Reload(Plain("x"), null);
    ChildIsLost(run.value, x, y);
  }

  /** Unloading the second leaves the first alone. */
  lemma SecondGone(b: Books, a: Module, e: Module)
    requires Balanced(b) && Neighbours(b, a, e) && a.loader == null
    ensures var b1 := Unloaded(b, e);
            ROOT in b1.lists && b1.lists[ROOT] == [a] && b1.table == map[a := Entry(1, ROOT)] && !Doomed(b.table, e, a)
  {
    var gone := DoomedSet(b.table, e);
    assert !Doomed(b.table, e, a);
    forall z | z in gone ensures z == e { assert z == a || z == e; }
    assert e in gone;
    assert [a, e][1..] == [e] && [e][1..] == [] && Without([e], gone) == [];
    assert Without([a, e], gone) == [a] + Without([e], gone) == [a];
  }

  /** A reload whose install unloads the reloaded module's older neighbour. */
  lemma NeighbourIsLost(r: ReloadRun, a: Module, e: Module)
    requires Genuine(r) && r.k == ROOT && r.loader == null
    requires Neighbours(r.b, a, e) && a.loader == null && a.path == "a" && e.path == "e"
    requires r.req == Plain("e").(install := [UnloadModule("a")])
    ensures r.lost && !Doomed(r.b.table, e, a)
  {
    OneHere(r.b, ROOT, "e", r.e, e);
    SecondGone(r.b, a, e);
    var ms := r.b.lists[ROOT];
    assert ms[0] == a && ms[1] == e && r.after == Some(a);
    VacantAfter(r.b, ROOT, e, "e");
    assert CalmStep(r.req.install[0]) && r.req.install[1..] == [] && Calm(r.req.install);
    var m := r.loaded.value;
    StaysBeside(r.b1, r.b2, a, m);
    assert IsHere(r.b2.table, ROOT, "e", m);
    assert IsHere(r.b1.table, ROOT, "a", a) && TakenAlong(r.b1, ROOT, "a", a);
    ReloadLosesToUnload(r);
  }

  /** The new entry outlives the unload its install makes. */
  lemma StaysBeside(b: Books, b': Books, a: Module, m: Module)
    requires b.table == map[a := Entry(1, ROOT)] && a.path == "a" && m !in b.table && m.loader == null
    requires UnloadedHere(Entered(b, ROOT, m), b', ROOT, "a")
    ensures m in b'.table && b'.table[m].home == ROOT
  {
    var b1 := Entered(b, ROOT, m);
    assert IsHere(b1.table, ROOT, "a", a) && b' == Unloaded(b1, a);
    assert !Doomed(b1.table, a, m);
  }

  /** The predecessor is not safe from the install: the place is lost although it does not go with the module. */
  method LoseToInstall() returns (lost: bool)
    ensures lost
  {
    var r, a := LoadFirst("a");
    var e := LoadSecond(r, a, "e");
    assert IsHere(r.table, ROOT, "e", e);
    var status, again;
    ghost var run;
    status, again, lost, run := r.Reload(Plain("e").(install := [UnloadModule("a")]), null);
    NeighbourIsLost(run.value, a, e);
  }
}
