/** The table of loaded modules and the cascade that dropping a last reference sets off. */
module Lifecycle {
  import opened Prefix
  import opened ModuleEntry
  import opened Dispatch

  /** Reference count and home region of a loaded module. */
  datatype Entry = Entry(refs: nat, home: Key)

  type Table = map<Module, Entry>

  /** A loader is older than what it loads, so loader links cannot run in a circle. */
  ghost predicate Aged(tb: Table) {
    forall x :: x in tb && x.loader != null ==> x.loader.serial < x.serial
  }

  /** One entry for each path and region. */
  ghost predicate Distinct(tb: Table) {
    forall x, y {:trigger SamePlace(tb, x, y)} :: x in tb && y in tb && SamePlace(tb, x, y) ==> x == y
  }

  predicate SamePlace(tb: Table, x: Module, y: Module)
    requires x in tb && y in tb
  {
    x.path == y.path && tb[x].home == tb[y].home
  }

  ghost predicate IsLoaderOf(tb: Table, p: Module, x: Module) {
    x in tb && p in tb && x.loader == p && p.serial < x.serial
  }

  /** The cascade from e reaches x and removes it: only single references with a context, all the way up to e. */
  ghost predicate Doomed(tb: Table, e: Module, x: Module)
    decreases x.serial
  {
    x == e || (x in tb && x.hasCtx && tb[x].refs == 1 && Reached(tb, e, x))
  }

  /** The cascade from e takes a reference away from x: its loader is removed. */
  ghost predicate Reached(tb: Table, e: Module, x: Module)
    decreases x.serial, 0
  {
    x.loader != null && IsLoaderOf(tb, x.loader, x) && Doomed(tb, e, x.loader)
  }

  ghost function DoomedSet(tb: Table, e: Module): set<Module> {
    set x | x in tb && Doomed(tb, e, x)
  }

  /** The table after one reference to e is dropped, in closed form. */
  ghost function AfterUnload(tb: Table, e: Module): Table
    requires e in tb
  {
    if tb[e].refs > 1 then tb[e := tb[e].(refs := tb[e].refs - 1)]
    else map x | x in tb && !Doomed(tb, e, x) ::
           if x.hasCtx && Reached(tb, e, x) && tb[x].refs > 0 then tb[x].(refs := tb[x].refs - 1) else tb[x]
  }

  /** Above every removed module but e itself stands a removed loader. */
  lemma DoomedStep(tb: Table, e: Module, x: Module)
    requires Doomed(tb, e, x) && x != e
    ensures x in tb && x.hasCtx && tb[x].refs == 1 && x.loader != null
    ensures IsLoaderOf(tb, x.loader, x) && Doomed(tb, e, x.loader) && x.loader.serial < x.serial
  {
    assert Reached(tb, e, x);
  }

  // ----- The doomed set is the least one the cascade rule allows

  ghost predicate CascadeClosed(tb: Table, e: Module, gone: set<Module>) {
    e in gone &&
    forall p, x :: p in gone && x in tb && IsLoaderOf(tb, p, x) && x.hasCtx && tb[x].refs == 1 ==> x in gone
  }

  lemma DoomedIsLeast(tb: Table, e: Module, gone: set<Module>)
    requires e in tb && CascadeClosed(tb, e, gone)
    ensures CascadeClosed(tb, e, DoomedSet(tb, e)) && DoomedSet(tb, e) <= gone
  {
    forall x | x in DoomedSet(tb, e) ensures x in gone {
      DoomedIn(tb, e, gone, x);
    }
    forall p, x | p in DoomedSet(tb, e) && x in tb && IsLoaderOf(tb, p, x) && x.hasCtx && tb[x].refs == 1
      ensures x in DoomedSet(tb, e)
    {
      assert Reached(tb, e, x);
    }
  }

  lemma {:induction false} DoomedIn(tb: Table, e: Module, gone: set<Module>, x: Module)
    requires CascadeClosed(tb, e, gone) && Doomed(tb, e, x)
    ensures x in gone
    decreases x.serial
  {
    if x != e {
      DoomedStep(tb, e, x);
      DoomedIn(tb, e, gone, x.loader);
    }
  }

  lemma {:induction false} DoomedYounger(tb: Table, e: Module, x: Module)
    requires Doomed(tb, e, x)
    ensures e.serial <= x.serial && (e.serial == x.serial ==> e == x)
    decreases x.serial
  {
    if x != e {
      DoomedStep(tb, e, x);
      DoomedYounger(tb, e, x.loader);
    }
  }

  // ----- One child after the other, in any order

  /** The children the cascade loop visits. */
  ghost predicate IsChild(tb: Table, e: Module, c: Module) {
    IsLoaderOf(tb, e, c) && c.hasCtx
  }

  /** Removed once the children in done have been visited. */
  ghost predicate Gone(tb: Table, done: set<Module>, x: Module) {
    exists c :: c in done && c in tb && tb[c].refs == 1 && Doomed(tb, c, x)
  }

  ghost predicate LostLoader(tb: Table, done: set<Module>, x: Module) {
    x.loader != null && IsLoaderOf(tb, x.loader, x) && Gone(tb, done, x.loader)
  }

  /** The table once the children in done have been visited. */
  ghost function Partly(tb: Table, done: set<Module>): Table {
    map x | x in tb && !Gone(tb, done, x) ::
      if x.hasCtx && (x in done || LostLoader(tb, done, x)) && tb[x].refs > 0 then tb[x].(refs := tb[x].refs - 1)
      else tb[x]
  }

  /** The subtrees of two children of one module do not meet. */
  lemma {:induction false} SiblingsDisjoint(tb: Table, e: Module, c: Module, d: Module, x: Module)
    requires IsChild(tb, e, c) && IsChild(tb, e, d) && c != d && Doomed(tb, c, x)
    ensures !Doomed(tb, d, x)
    decreases x.serial
  {
    if Doomed(tb, d, x) {
      if x == c {
        DoomedStep(tb, d, x);
        DoomedYounger(tb, d, e);
      } else if x == d {
        DoomedStep(tb, c, x);
        DoomedYounger(tb, c, e);
      } else {
        DoomedStep(tb, c, x);
        DoomedStep(tb, d, x);
        SiblingsDisjoint(tb, e, c, d, x.loader);
      }
    }
  }

  ghost predicate Visited(tb: Table, e: Module, done: set<Module>) {
    forall c :: c in done ==> IsChild(tb, e, c)
  }

  lemma NotGone(tb: Table, e: Module, done: set<Module>, c: Module, x: Module)
    requires Visited(tb, e, done) && IsChild(tb, e, c) && c !in done && Doomed(tb, c, x)
    ensures !Gone(tb, done, x) && x !in done && !LostLoader(tb, done, x)
  {
    forall d | d in done ensures !Doomed(tb, d, x) {
      SiblingsDisjoint(tb, e, c, d, x);
    }
    if x in done { assert Doomed(tb, x, x); }
    if LostLoader(tb, done, x) {
      var d :| d in done && d in tb && tb[d].refs == 1 && Doomed(tb, d, x.loader);
      if x == c {
        DoomedYounger(tb, d, e);
      } else {
        DoomedStep(tb, c, x);
        SiblingsDisjoint(tb, e, d, c, x.loader);
      }
    }
  }

  /** Visiting other children first does not change what the cascade from c removes. */
  lemma {:induction false} DoomedPartly(tb: Table, e: Module, done: set<Module>, c: Module, x: Module)
    requires Visited(tb, e, done) && IsChild(tb, e, c) && c !in done
    ensures Doomed(Partly(tb, done), c, x) <==> Doomed(tb, c, x)
    decreases x.serial
  {
    var mid := Partly(tb, done);
    if x != c {
      if Doomed(tb, c, x) {
        DoomedStep(tb, c, x);
        NotGone(tb, e, done, c, x);
        NotGone(tb, e, done, c, x.loader);
        DoomedPartly(tb, e, done, c, x.loader);
        assert Reached(mid, c, x);
      }
      if Doomed(mid, c, x) {
        DoomedStep(mid, c, x);
        DoomedPartly(tb, e, done, c, x.loader);
        UntouchedBelow(tb, e, done, c, x);
        assert Reached(tb, c, x);
      }
    }
  }

  /** A module loaded by something the cascade from c removes is out of reach of the other children. */
  lemma UntouchedBelow(tb: Table, e: Module, done: set<Module>, c: Module, x: Module)
    requires Visited(tb, e, done) && IsChild(tb, e, c) && c !in done
    requires x in tb && x.loader != null && IsLoaderOf(tb, x.loader, x) && Doomed(tb, c, x.loader)
    ensures x !in done && !LostLoader(tb, done, x) && !Gone(tb, done, x)
  {
    NotGone(tb, e, done, c, x.loader);
    if x in done {
      DoomedYounger(tb, c, e);
    }
    if Gone(tb, done, x) {
      var d :| d in done && d in tb && tb[d].refs == 1 && Doomed(tb, d, x);
      DoomedStep(tb, d, x);
    }
  }

  /** Unloading one more child, whichever it is, moves the partly visited table one child on. */
  lemma VisitStep(tb: Table, e: Module, done: set<Module>, c: Module)
    requires Visited(tb, e, done) && IsChild(tb, e, c) && c !in done && tb[c].refs > 0
    ensures c in Partly(tb, done) && Partly(tb, done)[c] == tb[c]
    ensures AfterUnload(Partly(tb, done), c) == Partly(tb, done + {c})
  {
    NotGone(tb, e, done, c, c);
    if tb[c].refs > 1 {
      forall x ensures Gone(tb, done + {c}, x) <==> Gone(tb, done, x) {
      }
    } else {
      VisitLast(tb, e, done, c);
    }
  }

  lemma VisitLast(tb: Table, e: Module, done: set<Module>, c: Module)
    requires Visited(tb, e, done) && IsChild(tb, e, c) && c !in done && tb[c].refs == 1
    requires c in Partly(tb, done) && Partly(tb, done)[c] == tb[c]
    ensures AfterUnload(Partly(tb, done), c) == Partly(tb, done + {c})
  {
    var mid, after, next := Partly(tb, done), AfterUnload(Partly(tb, done), c), Partly(tb, done + {c});
    forall x ensures x in after <==> x in next {
      GoneOneMore(tb, done, c, x);
      if x in mid { DoomedPartly(tb, e, done, c, x); }
    }
    forall x | x in after ensures after[x] == next[x] {
      VisitValue(tb, e, done, c, x);
    }
  }

  lemma VisitValue(tb: Table, e: Module, done: set<Module>, c: Module, x: Module)
    requires Visited(tb, e, done) && IsChild(tb, e, c) && c !in done && tb[c].refs == 1
    requires c in Partly(tb, done) && Partly(tb, done)[c] == tb[c] && x in AfterUnload(Partly(tb, done), c)
    ensures x in Partly(tb, done + {c}) && AfterUnload(Partly(tb, done), c)[x] == Partly(tb, done + {c})[x]
  {
    GoneOneMore(tb, done, c, x);
    DoomedPartly(tb, e, done, c, x);
    VisitEntry(tb, e, done, c, x);
  }

  lemma GoneOneMore(tb: Table, done: set<Module>, c: Module, x: Module)
    requires c in tb && tb[c].refs == 1
    ensures Gone(tb, done + {c}, x) <==> Gone(tb, done, x) || Doomed(tb, c, x)
  {
  }

  lemma VisitEntry(tb: Table, e: Module, done: set<Module>, c: Module, x: Module)
    requires Visited(tb, e, done) && IsChild(tb, e, c) && c !in done && tb[c].refs == 1
    requires x in tb && !Gone(tb, done, x) && !Doomed(tb, c, x)
    ensures var mid := Partly(tb, done);
      && (Reached(mid, c, x) <==> LostLoader(tb, {c}, x))
      && (LostLoader(tb, {c}, x) ==> x !in done && !LostLoader(tb, done, x))
      && (LostLoader(tb, done + {c}, x) <==> LostLoader(tb, done, x) || LostLoader(tb, {c}, x))
  {
    var mid := Partly(tb, done);
    if x.loader != null {
      forall y ensures Gone(tb, {c}, y) <==> Doomed(tb, c, y) {
      }
      forall y ensures Gone(tb, done + {c}, y) <==> Gone(tb, done, y) || Gone(tb, {c}, y) {
      }
      DoomedPartly(tb, e, done, c, x.loader);
      if LostLoader(tb, {c}, x) {
        UntouchedBelow(tb, e, done, c, x);
        NotGone(tb, e, done, c, x.loader);
      }
    }
  }

  // ----- After the last child

  ghost function Children(tb: Table, e: Module): set<Module> {
    set c | c in tb && IsChild(tb, e, c)
  }

  /** While the cascade runs, e is still in the table with no references left. */
  ghost function Dropped(tb: Table, e: Module): Table
    requires e in tb
  {
    tb[e := tb[e].(refs := 0)]
  }

  lemma {:induction false} ChildDoomed(tb: Table, e: Module, c: Module, x: Module)
    requires e in tb && IsChild(tb, e, c) && tb[c].refs == 1 && Doomed(Dropped(tb, e), c, x)
    ensures Doomed(tb, e, x) && x != e && x in tb
    decreases x.serial
  {
    var tb1 := Dropped(tb, e);
    if x == c {
      assert Reached(tb, e, c);
    } else {
      DoomedStep(tb1, c, x);
      ChildDoomed(tb, e, c, x.loader);
      DoomedYounger(tb1, c, x);
      assert Reached(tb, e, x);
    }
  }

  lemma {:induction false} DoomedChild(tb: Table, e: Module, x: Module) returns (c: Module)
    requires e in tb && Doomed(tb, e, x) && x != e
    ensures IsChild(tb, e, c) && tb[c].refs == 1 && c != e && Doomed(Dropped(tb, e), c, x)
    decreases x.serial
  {
    DoomedStep(tb, e, x);
    if x.loader == e {
      c := x;
    } else {
      c := DoomedChild(tb, e, x.loader);
      assert Reached(Dropped(tb, e), c, x);
    }
  }

  lemma GoneIffDoomed(tb: Table, e: Module, x: Module)
    requires e in tb
    ensures Gone(Dropped(tb, e), Children(tb, e), x) <==> Doomed(tb, e, x) && x != e
  {
    var tb1 := Dropped(tb, e);
    if Gone(tb1, Children(tb, e), x) {
      var c :| c in Children(tb, e) && c in tb1 && tb1[c].refs == 1 && Doomed(tb1, c, x);
      ChildDoomed(tb, e, c, x);
    }
    if Doomed(tb, e, x) && x != e {
      var c := DoomedChild(tb, e, x);
      assert c in Children(tb, e);
    }
  }

  /** When every child has been visited, removing e itself completes the closed form. */
  lemma CascadeDone(tb: Table, e: Module)
    requires e in tb && tb[e].refs == 1
    ensures var tb1 := Dropped(tb, e);
            Visited(tb1, e, Children(tb, e)) && e in Partly(tb1, Children(tb, e)) &&
            Partly(tb1, Children(tb, e)) - {e} == AfterUnload(tb, e)
  {
    var tb1, cs := Dropped(tb, e), Children(tb, e);
    forall x ensures Gone(tb1, cs, x) <==> Doomed(tb, e, x) && x != e {
      GoneIffDoomed(tb, e, x);
    }
    forall x | x in tb && !Doomed(tb, e, x) && x.hasCtx
      ensures (x in cs || LostLoader(tb1, cs, x)) <==> Reached(tb, e, x)
    {
      if x.loader != null { GoneIffDoomed(tb, e, x.loader); }
    }
  }

  // ----- Module lists under a cascade

  /** A list without the modules in gone. */
  function Without(ms: seq<Module>, gone: set<Module>): seq<Module> {
    if ms == [] then [] else (if ms[0] in gone then [] else [ms[0]]) + Without(ms[1..], gone)
  }

  ghost function Purged(lists: Lists, gone: set<Module>): Lists {
    map k | k in lists :: Without(lists[k], gone)
  }

  lemma {:induction false} WithoutTwice(ms: seq<Module>, a: set<Module>, b: set<Module>)
    ensures Without(Without(ms, a), b) == Without(ms, a + b)
  {
    if ms != [] {
      WithoutTwice(ms[1..], a, b);
      if ms[0] !in a {
        assert ([ms[0]] + Without(ms[1..], a))[1..] == Without(ms[1..], a);
      } else {
        assert Without(ms, a) == Without(ms[1..], a);
        assert Without(ms, a + b) == Without(ms[1..], a + b);
      }
    }
  }

  lemma {:induction false} WithoutOne(ms: seq<Module>, i: nat)
    requires i < |ms| && forall x, y :: 0 <= x < y < |ms| ==> ms[x] != ms[y]
    ensures Without(ms, {ms[i]}) == ms[..i] + ms[i + 1..]
  {
    var m := ms[i];
    if i == 0 {
      WithoutNone(ms[1..], {m});
    } else {
      assert ms[1..][i - 1] == m;
      WithoutOne(ms[1..], i - 1);
      assert ms[1..][..i - 1] == ms[1..i] && ms[1..][i..] == ms[i + 1..];
      assert [ms[0]] + (ms[1..i] + ms[i + 1..]) == ms[..i] + ms[i + 1..];
    }
  }

  lemma {:induction false} WithoutNone(ms: seq<Module>, gone: set<Module>)
    requires forall m :: m in ms ==> m !in gone
    ensures Without(ms, gone) == ms
  {
    if ms != [] { WithoutNone(ms[1..], gone); }
  }

  lemma {:induction false} WithoutMember(ms: seq<Module>, gone: set<Module>, m: Module)
    ensures m in Without(ms, gone) <==> m in ms && m !in gone
  {
    if ms != [] { WithoutMember(ms[1..], gone, m); }
  }

  lemma {:induction false} WithoutAppend(a: seq<Module>, b: seq<Module>, gone: set<Module>)
    ensures Without(a + b, gone) == Without(a, gone) + Without(b, gone)
  {
    if a == [] {
      assert a + b == b;
    } else {
      assert (a + b)[1..] == a[1..] + b;
      WithoutAppend(a[1..], b, gone);
    }
  }

  lemma PurgedTwice(lists: Lists, a: set<Module>, b: set<Module>)
    ensures Purged(Purged(lists, a), b) == Purged(lists, a + b)
  {
    forall k | k in lists ensures Without(Without(lists[k], a), b) == Without(lists[k], a + b) {
      WithoutTwice(lists[k], a, b);
    }
  }
}
