/** Lists of modules: what is old in them, what is put behind what, and what stands around it. */
module Orders {
  import opened ModuleEntry
  import opened Dispatch
  import opened Prefix
  import opened Tree
  import opened Runs
  import opened Lifecycle
  import opened Tables

  // ----- What is old

  /** The modules older than a given age, in order. */
  function Olds(ms: seq<Module>, serial: nat): seq<Module> {
    if ms == [] then []
    else if ms[0].serial < serial then [ms[0]] + Olds(ms[1..], serial)
    else Olds(ms[1..], serial)
  }

  lemma {:induction false} OldsOlds(ms: seq<Module>, n: nat, n': nat)
    requires n <= n'
    ensures Olds(Olds(ms, n'), n) == Olds(ms, n)
  {
    if ms != [] {
      var rest := Olds(ms[1..], n');
      OldsOlds(ms[1..], n, n');
      assert ([ms[0]] + rest)[1..] == rest;
    }
  }

  lemma {:induction false} OldsWithout(ms: seq<Module>, n: nat, gone: set<Module>)
    ensures Olds(Without(ms, gone), n) == Without(Olds(ms, n), gone)
  {
    if ms != [] {
      var kept, olds := Without(ms[1..], gone), Olds(ms[1..], n);
      OldsWithout(ms[1..], n, gone);
      assert ([ms[0]] + kept)[1..] == kept && ([ms[0]] + olds)[1..] == olds;
      assert Without(ms, gone) == if ms[0] in gone then kept else [ms[0]] + kept;
      assert Without([ms[0]] + olds, gone) ==
             if ms[0] in gone then Without(olds, gone) else [ms[0]] + Without(olds, gone);
    }
  }

  lemma {:induction false} OldsAll(ms: seq<Module>, n: nat)
    requires forall m :: m in ms ==> m.serial < n
    ensures Olds(ms, n) == ms
  {
    if ms != [] { OldsAll(ms[1..], n); }
  }

  lemma {:induction false} OldsAppend(a: seq<Module>, b: seq<Module>, n: nat)
    ensures Olds(a + b, n) == Olds(a, n) + Olds(b, n)
  {
    if a == [] {
      assert a + b == b;
    } else {
      assert (a + b)[1..] == a[1..] + b;
      OldsAppend(a[1..], b, n);
    }
  }

  lemma {:induction false} OldsMember(ms: seq<Module>, n: nat, m: Module)
    ensures m in Olds(ms, n) <==> m in ms && m.serial < n
  {
    if ms != [] { OldsMember(ms[1..], n, m); }
  }

  // ----- Putting a module behind another

  /** The list with m put behind `after`, or in front of everything. */
  ghost predicate Behind(ms: seq<Module>, after: Option<Module>, m: Module, r: seq<Module>) {
    exists i :: 0 <= i <= |ms| && BehindAt(ms, after, m, i, r)
  }

  ghost predicate BehindAt(ms: seq<Module>, after: Option<Module>, m: Module, i: nat, r: seq<Module>)
    requires i <= |ms|
  {
    r == InsertAt(ms, i, m) && (match after case None => i == 0 case Some(a) => i > 0 && ms[i - 1] == a)
  }

  ghost predicate IsPredecessor(ms: seq<Module>, e: Module, i: int, after: Option<Module>) {
    0 <= i < |ms| && ms[i] == e && after == if i == 0 then None else Some(ms[i - 1])
  }

  lemma {:induction false} WithoutSubset(ms: seq<Module>, gone: set<Module>)
    ensures forall x :: x in Without(ms, gone) <==> x in ms && x !in gone
  {
    forall x ensures x in Without(ms, gone) <==> x in ms && x !in gone { WithoutMember(ms, gone, x); }
  }

  lemma BehindMembers(ms: seq<Module>, after: Option<Module>, m: Module, r: seq<Module>)
    requires Behind(ms, after, m, r)
    ensures forall x :: x in r <==> x == m || x in ms
  {
    var i :| 0 <= i <= |ms| && BehindAt(ms, after, m, i, r);
    assert ms == ms[..i] + ms[i..];
  }

  /** Where a predecessor occurs once, putting m behind it leaves no choice. */
  lemma OnePlace(front: seq<Module>, back: seq<Module>, after: Option<Module>, m: Module, r: seq<Module>)
    requires NoDup(front + back) && Behind(front + back, after, m, r)
    requires after == if front == [] then None else Some(front[|front| - 1])
    ensures r == front + [m] + back
  {
    var ms := front + back;
    var i :| 0 <= i <= |ms| && BehindAt(ms, after, m, i, r);
    if after.Some? { assert ms[|front| - 1] == front[|front| - 1]; }
    assert i == |front|;
    assert ms[..i] == front && ms[i..] == back;
  }

  lemma WithoutAround(ms: seq<Module>, i: nat, gone: set<Module>)
    requires i < |ms| && ms[i] in gone
    ensures Without(ms, gone) == Without(ms[..i], gone) + Without(ms[i + 1..], gone)
  {
    var rest := ms[i..];
    assert ms == ms[..i] + rest && rest[0] == ms[i] && rest[1..] == ms[i + 1..];
    WithoutAppend(ms[..i], rest, gone);
  }

  lemma WithoutLast(ms: seq<Module>, gone: set<Module>)
    requires ms != [] && ms[|ms| - 1] !in gone
    ensures Without(ms, gone) != [] && Without(ms, gone)[|Without(ms, gone)| - 1] == ms[|ms| - 1]
  {
    var n := |ms| - 1;
    assert ms == ms[..n] + [ms[n]];
    WithoutAppend(ms[..n], [ms[n]], gone);
    assert Without([ms[n]], gone) == [ms[n]];
  }

  lemma BackInPlace(ms: seq<Module>, e: Module, i: nat, after: Option<Module>, r: seq<Module>)
    requires NoDup(ms) && IsPredecessor(ms, e, i, after) && Behind(Without(ms, {e}), after, e, r)
    ensures r == ms
  {
    WithoutOne(ms, i);
    WithoutNoDup(ms, {e});
    var front, back := ms[..i], ms[i + 1..];
    assert Without(ms, {e}) == front + back;
    assert i > 0 ==> front[|front| - 1] == ms[i - 1];
    OnePlace(front, back, after, e, r);
    assert ms == ms[..i] + [e] + ms[i + 1..];
  }

  /** The new list: the survivors before e, the new entry, the survivors after e, and at the end what is new. */
  ghost predicate Replaced(ms: seq<Module>, e: Module, gone: set<Module>, m: Module, r: seq<Module>) {
    exists i :: 0 <= i < |ms| && ReplacedAt(ms, e, i, gone, m, r)
  }

  ghost predicate ReplacedAt(ms: seq<Module>, e: Module, i: nat, gone: set<Module>, m: Module, r: seq<Module>)
    requires i < |ms|
  {
    ms[i] == e && Without(ms[..i], gone) + [m] + Without(ms[i + 1..], gone) <= r
  }

  lemma Regrouped<T>(a: seq<T>, b: seq<T>, c: seq<T>)
    ensures a + b + c == a + (b + c)
  {
  }

  lemma IntoPlace(ms: seq<Module>, e: Module, i: nat, after: Option<Module>, gone: set<Module>,
                  m: Module, loaded: seq<Module>, r: seq<Module>)
    requires IsPredecessor(ms, e, i, after) && e in gone && (after.Some? ==> after.value !in gone)
    requires NoDup(loaded) && Without(ms, gone) + [m] <= loaded && Behind(Without(loaded, {m}), after, m, r)
    ensures Replaced(ms, e, gone, m, r)
  {
    var front, back := Without(ms[..i], gone), Without(ms[i + 1..], gone);
    WithoutAround(ms, i, gone);
    if i > 0 { WithoutLast(ms[..i], gone); }
    var n := |front + back|;
    assert loaded[n] == m by { assert (front + back + [m])[n] == m; }
    WithoutOne(loaded, n);
    var tail := loaded[n + 1..];
    assert loaded[..n] == front + back;
    WithoutNoDup(loaded, {m});
    Regrouped(front, back, tail);
    OnePlace(front, back + tail, after, m, r);
    assert front + [m] + back <= r;
    assert ReplacedAt(ms, e, i, gone, m, r);
  }

  // ----- What stands around

  lemma OldsBehind(ms: seq<Module>, after: Option<Module>, m: Module, r: seq<Module>, n: nat)
    requires Behind(Without(ms, {m}), after, m, r) && m.serial >= n
    ensures Olds(r, n) == Olds(ms, n)
  {
    var base := Without(ms, {m});
    var i :| 0 <= i <= |base| && BehindAt(base, after, m, i, r);
    assert base == base[..i] + base[i..] && r == base[..i] + ([m] + base[i..]);
    OldsAppend(base[..i], base[i..], n);
    OldsAppend(base[..i], [m] + base[i..], n);
    OldsAppend([m], base[i..], n);
    assert Olds([m], n) == [];
    OldsWithout(ms, n, {m});
    OldsMember(ms, n, m);
    WithoutNone(Olds(ms, n), {m});
  }

  /**
   * The entry in place of the old one: the old modules before it and after it are those that were, less the removed.
   */
  ghost predicate Around(ms: seq<Module>, e: Module, gone: set<Module>, n: nat, m: Module, r: seq<Module>) {
    exists i, j :: 0 <= i < |ms| && 0 <= j < |r| && AroundAt(ms, e, i, gone, n, m, j, r)
  }

  ghost predicate AroundAt(ms: seq<Module>, e: Module, i: nat, gone: set<Module>, n: nat, m: Module, j: nat,
                           r: seq<Module>)
    requires i < |ms| && j < |r|
  {
    && ms[i] == e && r[j] == m
    && Olds(r[..j], n) == Without(ms[..i], gone) && Olds(r[j + 1..], n) == Without(ms[i + 1..], gone)
  }

  lemma BetweenOlds(ms: seq<Module>, e: Module, i: nat, after: Option<Module>, gone: set<Module>, n: nat,
                    m: Module, j: nat, r: seq<Module>)
    requires NoDup(ms) && IsPredecessor(ms, e, i, after) && IsPredecessor(r, m, j, after)
    requires e in gone && m.serial >= n && (after.Some? ==> after.value !in gone && after.value.serial < n)
    requires Olds(r, n) == Without(ms, gone)
    ensures AroundAt(ms, e, i, gone, n, m, j, r)
  {
    var front, back := Without(ms[..i], gone), Without(ms[i + 1..], gone);
    WithoutAround(ms, i, gone);
    assert r == r[..j] + ([m] + r[j + 1..]);
    OldsAppend(r[..j], [m] + r[j + 1..], n);
    OldsAppend([m], r[j + 1..], n);
    assert Olds([m], n) == [];
    if after.Some? {
      WithoutLast(ms[..i], gone);
      assert r[..j] == r[..j - 1] + [r[j - 1]];
      OldsAppend(r[..j - 1], [r[j - 1]], n);
      assert Olds([r[j - 1]], n) == [r[j - 1]];
      WithoutNoDup(ms, gone);
      SameSplit(front, back, Olds(r[..j], n), Olds(r[j + 1..], n));
    }
  }

  lemma SameSplit(a: seq<Module>, b: seq<Module>, c: seq<Module>, d: seq<Module>)
    requires a + b == c + d && NoDup(a + b) && a != [] && c != [] && a[|a| - 1] == c[|c| - 1]
    ensures a == c && b == d
  {
    assert (a + b)[|a| - 1] == a[|a| - 1] && (c + d)[|c| - 1] == c[|c| - 1];
    assert a == (a + b)[..|a|] && b == (a + b)[|a|..] && c == (c + d)[..|c|] && d == (c + d)[|c|..];
  }

  lemma ReloadInPlace(ms: seq<Module>, e: Module, after: Option<Module>, gone: set<Module>, m: Module,
                      loaded: seq<Module>, r: seq<Module>)
    requires NoDup(ms) && NoDup(loaded) && e in gone && (exists i :: IsPredecessor(ms, e, i, after))
    requires Without(ms, gone) + [m] <= loaded && (after.Some? ==> after.value !in gone)
    requires Behind(Without(loaded, {m}), after, m, r)
    ensures Replaced(ms, e, gone, m, r)
  {
    var i :| IsPredecessor(ms, e, i, after);
    IntoPlace(ms, e, i, after, gone, m, loaded, r);
  }
}
