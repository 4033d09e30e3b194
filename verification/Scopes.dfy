/**
 * What a dispatch may run: hook denials, the exact-region scope beside the subtree scope, and generation wrap-around.
 */
module Scopes {
  import opened Word
  import opened Prefix
  import opened Tree
  import opened Claims
  import opened ModuleEntry
  import opened Dispatch
  import opened Coherence
  import opened Runs

  // ----- Hook denials

  /**
   * The dispatcher's refusal test: look at the chain only when the flag of its first region is up, and skip the caller.
   */
  ghost predicate HookRefused(s: State, k: Key, hook: string)
    requires Aligned(s) && k in s.tree
  {
    var chain := Chain(s.tree, k);
    ChainKnown(s.tree, k);
    s.flag[chain[0]] && exists i :: 0 <= i < |chain| - 1 && hook in s.deny[chain[i]].hooks
  }

  lemma {:induction false} ChainKnown(t: Tree, k: Key)
    requires Shape(t) && k in t
    ensures forall i :: 0 <= i < |Chain(t, k)| ==> Chain(t, k)[i] in t
    decreases k.plen
  {
    assert ParentOk(t, k);
    if t[k].parent.Some? { ChainKnown(t, t[k].parent.value); }
  }

  /** The caller's own region stands at the end of its chain and nowhere else. */
  lemma ChainProper(t: Tree, k: Key, a: Key)
    requires Shape(t) && k in t
    ensures (a != k && IsUnder(t, k, a)) <==> exists i :: 0 <= i < |Chain(t, k)| - 1 && Chain(t, k)[i] == a
  {
    ChainIsAncestors(t, k, a);
    ChainNarrows(t, k);
    var chain := Chain(t, k);
    if a != k && IsUnder(t, k, a) {
      var i :| 0 <= i < |chain| && chain[i] == a;
    }
    if i :| 0 <= i < |chain| - 1 && chain[i] == a {
      assert chain[i].plen < chain[|chain| - 1].plen;
      assert a in chain;
    }
  }

  /** In every reachable state a hook is refused exactly when a strict ancestor of the caller denies it. */
  lemma HookRefusedIff(ops: seq<Op>, k: Key, hook: string)
    requires |ops| < LAST_GEN && Aligned(Run(ops)) && k in Run(ops).tree
    ensures var s := Run(ops);
            HookRefused(s, k, hook) <==>
              exists a :: a in s.tree && a != k && IsUnder(s.tree, k, a) && hook in s.deny[a].hooks
  {
    RunInv(ops);
    var s := Run(ops);
    var chain := Chain(s.tree, k);
    ChainKnown(s.tree, k);
    if a :| a in s.tree && a != k && IsUnder(s.tree, k, a) && hook in s.deny[a].hooks {
      ChainProper(s.tree, k, a);
      assert s.deny[a].hooks != {};
    }
    if i :| 0 <= i < |chain| - 1 && hook in s.deny[chain[i]].hooks {
      ChainProper(s.tree, k, chain[i]);
    }
  }

  // ----- The two scopes

  /** The exact-region walk is the opening stretch of the subtree walk. */
  lemma SelfIsPrefix(s: State, k: Key, h: nat)
    requires Aligned(s) && k in s.tree && h < |s.hooks|
    ensures SelfRuns(s, k, h) <= Naive(s, k, h)
  {
    ChildrenWider(s.tree, k);
    KeepAppend(s.lists[k], SubtreesOf(s.tree, s.lists, k, s.tree[k].children), Denied(s, k), s.hooks[h]);
  }

  function Times(ms: seq<Module>, m: Module): nat {
    multiset(ms)[m]
  }

  lemma TimesAppend(a: seq<Module>, b: seq<Module>, m: Module)
    ensures Times(a + b, m) == Times(a, m) + Times(b, m)
  {
    assert multiset(a + b) == multiset(a) + multiset(b);
  }

  lemma {:induction false} TimesOnce(ms: seq<Module>, m: Module)
    requires forall i, j :: 0 <= i < j < |ms| ==> ms[i] != ms[j]
    ensures Times(ms, m) == if m in ms then 1 else 0
  {
    if ms != [] {
      assert ms == [ms[0]] + ms[1..];
      TimesAppend([ms[0]], ms[1..], m);
      TimesOnce(ms[1..], m);
    }
  }

  lemma {:induction false} TimesKeep(ms: seq<Module>, denied: set<string>, hook: string, m: Module)
    ensures Times(Keep(ms, denied, hook), m) == if Listens(m, denied, hook) then Times(ms, m) else 0
  {
    if ms != [] {
      TimesKeep(ms[1..], denied, hook, m);
      assert ms == [ms[0]] + ms[1..];
      TimesAppend([ms[0]], ms[1..], m);
      TimesAppend(if Listens(ms[0], denied, hook) then [ms[0]] else [], Keep(ms[1..], denied, hook), m);
    }
  }

  /** A linked module occurs once in the subtrees it lies in and not at all in the others. */
  lemma {:induction false} SubtreeTimes(s: State, k: Key, j: Key, m: Module)
    requires Aligned(s) && Linked(s.lists, s.live) && k in s.tree && j in s.tree && m in s.lists[j]
    ensures Times(SubtreeMods(s.tree, s.lists, k), m) == if IsUnder(s.tree, j, k) then 1 else 0
    decreases 64 - k.plen, |s.tree[k].children| + 1
  {
    ChildrenWider(s.tree, k);
    var cs := s.tree[k].children;
    assert ChildrenOk(s.tree, k) && LinkedIn(s.lists, s.live, k);
    SubtreesTimes(s, k, cs, j, m);
    TimesAppend(s.lists[k], SubtreesOf(s.tree, s.lists, k, cs), m);
    TimesOnce(s.lists[k], m);
    if j != k {
      assert Apart(s.lists, j, k);
      if IsUnder(s.tree, j, k) {
        var c := ChildToward(s.tree, j, k);
      } else if c :| c in cs && IsUnder(s.tree, j, c) {
        UnderTransitive(s.tree, j, c, k);
      }
    } else if c :| c in cs && IsUnder(s.tree, j, c) {
      UnderWider(s.tree, j, c);
    }
  }

  /** Distinct children of one region have disjoint subtrees. */
  lemma SiblingsApart(t: Tree, k: Key, c: Key, d: Key, j: Key)
    requires Shape(t) && k in t && c in t[k].children && d in t[k].children && c != d
    requires j in t && IsUnder(t, j, c)
    ensures !IsUnder(t, j, d)
  {
    ChildrenWider(t, k);
    assert ChildrenOk(t, k);
    if IsUnder(t, j, d) {
      UnderLinear(t, j, c, d);
      if IsUnder(t, c, d) { UnderWider(t, k, d); } else { UnderWider(t, k, c); }
    }
  }

  lemma {:induction false} SubtreesTimes(s: State, k: Key, rest: seq<Key>, j: Key, m: Module)
    requires Aligned(s) && Linked(s.lists, s.live) && k in s.tree && j in s.tree && m in s.lists[j]
    requires forall c :: c in rest ==> c in s.tree && c.plen > k.plen && c in s.tree[k].children
    requires forall x, y :: 0 <= x < y < |rest| ==> rest[x] != rest[y]
    ensures Times(SubtreesOf(s.tree, s.lists, k, rest), m) ==
            if exists c :: c in rest && IsUnder(s.tree, j, c) then 1 else 0
    decreases 64 - k.plen, |rest|
  {
    if rest != [] {
      var c := rest[0];
      SubtreeTimes(s, c, j, m);
      SubtreesTimes(s, k, rest[1..], j, m);
      TimesAppend(SubtreeMods(s.tree, s.lists, c), SubtreesOf(s.tree, s.lists, k, rest[1..]), m);
      assert forall d :: d in rest <==> d == c || d in rest[1..];
      if IsUnder(s.tree, j, c) {
        forall d | d in rest[1..] ensures !IsUnder(s.tree, j, d) {
          SiblingsApart(s.tree, k, c, d, j);
        }
      }
    }
  }

  /** How often m runs when every region of a path dispatches the hook once. */
  ghost function SelfTotal(s: State, path: seq<Key>, h: nat, m: Module): nat
    requires Aligned(s) && h < |s.hooks| && forall k :: k in path ==> k in s.tree
  {
    if path == [] then 0 else Times(SelfRuns(s, path[0], h), m) + SelfTotal(s, path[1..], h, m)
  }

  ghost function SubtreeTotal(s: State, path: seq<Key>, h: nat, m: Module): nat
    requires Aligned(s) && h < |s.hooks| && forall k :: k in path ==> k in s.tree
  {
    if path == [] then 0 else Times(Naive(s, path[0], h), m) + SubtreeTotal(s, path[1..], h, m)
  }

  /** The regions of the path that are j or above it. */
  ghost function AtOrAbove(s: State, path: seq<Key>, j: Key): nat {
    if path == [] then 0 else (if IsUnder(s.tree, j, path[0]) then 1 else 0) + AtOrAbove(s, path[1..], j)
  }

  /**
   * Walking a path of distinct regions free of denials of m: the exact-region scope runs m once, at its own region,
   * while the subtree scope runs it once for every region of the path at or above its own.
   */
  lemma {:induction false} PathTotals(s: State, path: seq<Key>, h: nat, j: Key, m: Module)
    requires Aligned(s) && Linked(s.lists, s.live) && h < |s.hooks| && (forall k :: k in path ==> k in s.tree)
    requires forall x, y :: 0 <= x < y < |path| ==> path[x] != path[y]
    requires j in s.tree && m in s.lists[j]
    requires forall k :: k in path ==> Listens(m, Denied(s, k), s.hooks[h])
    ensures SelfTotal(s, path, h, m) == if j in path then 1 else 0
    ensures SubtreeTotal(s, path, h, m) == AtOrAbove(s, path, j)
  {
    if path != [] {
      var k := path[0];
      PathTotals(s, path[1..], h, j, m);
      PathRegionTimes(s, k, h, j, m);
      assert forall r :: r in path <==> r == k || r in path[1..];
    }
  }

  lemma PathRegionTimes(s: State, k: Key, h: nat, j: Key, m: Module)
    requires Aligned(s) && Linked(s.lists, s.live) && h < |s.hooks| && k in s.tree && j in s.tree && m in s.lists[j]
    requires Listens(m, Denied(s, k), s.hooks[h])
    ensures Times(SelfRuns(s, k, h), m) == if j == k then 1 else 0
    ensures Times(Naive(s, k, h), m) == if IsUnder(s.tree, j, k) then 1 else 0
  {
    TimesKeep(s.lists[k], Denied(s, k), s.hooks[h], m);
    TimesKeep(Mods(s, k), Denied(s, k), s.hooks[h], m);
    SubtreeTimes(s, k, j, m);
    assert LinkedIn(s.lists, s.live, k);
    TimesOnce(s.lists[k], m);
    if j != k { assert Apart(s.lists, j, k); }
  }

  lemma {:induction false} AllAbove(s: State, path: seq<Key>, j: Key)
    requires forall a :: a in path ==> IsUnder(s.tree, j, a)
    ensures AtOrAbove(s, path, j) == |path|
  {
    if path != [] { AllAbove(s, path[1..], j); }
  }

  /**
   * From the root down to the region of a module nobody on the way denies: calling the exact-region scope at every step
   * runs the module once, calling the subtree scope runs it once for every region of the chain.
   */
  lemma ChainTotal(s: State, k: Key, h: nat, m: Module)
    requires Aligned(s) && Linked(s.lists, s.live) && h < |s.hooks| && k in s.tree && m in s.lists[k]
    requires Listens(m, Denied(s, k), s.hooks[h])
    ensures forall a :: a in Chain(s.tree, k) ==> a in s.tree
    ensures SelfTotal(s, Chain(s.tree, k), h, m) == 1
    ensures SubtreeTotal(s, Chain(s.tree, k), h, m) == |Chain(s.tree, k)|
  {
    var chain := Chain(s.tree, k);
    ChainKnown(s.tree, k);
    ChainNarrows(s.tree, k);
    forall a | a in chain ensures IsUnder(s.tree, k, a) && Listens(m, Denied(s, a), s.hooks[h]) {
      ChainIsAncestors(s.tree, k, a);
      DeniedPathsMember(s.tree, s.deny, a, m.path);
      DeniedPathsMember(s.tree, s.deny, k, m.path);
      forall b | b in s.tree && IsUnder(s.tree, a, b)
        ensures IsUnder(s.tree, k, b)
      {
        UnderTransitive(s.tree, k, a, b);
      }
    }
    PathTotals(s, chain, h, k, m);
    AllAbove(s, chain, k);
    assert chain[|chain| - 1] == k;
  }

  // ----- What the cached scope runs

  /** With exact vectors the exact-region walk is an opening stretch of what the cached subtree dispatch runs. */
  lemma SelfIsPrefixOfCall(s: State, k: Key, h: nat)
    requires Inv(s) && k in s.tree && ExactAt(s, k) && h < |s.hooks|
    ensures SelfRuns(s, k, h) <= Dispatched(s, k, h).1
  {
    assert CacheOkAt(s, k);
    DispatchedCache(s, k, h);
    SelfIsPrefix(s, k, h);
  }

  /** How often m runs when every region of a path calls the hook once, one after the other, caches and all. */
  ghost function CallTotal(s: State, path: seq<Key>, h: nat, m: Module): nat
    requires Aligned(s) && h < |s.hooks| && forall k :: k in path ==> k in s.tree
    decreases |path|
  {
    if path == [] then 0
    else
      var (s', runs) := Dispatched(s, path[0], h);
      Times(runs, m) + CallTotal(s', path[1..], h, m)
  }

  /** With exact vectors the calls of a path run m as often as the simple walks do. */
  lemma {:induction false} CallTotals(s: State, path: seq<Key>, h: nat, m: Module)
    requires Inv(s) && Exact(s) && h < |s.hooks| && forall k :: k in path ==> k in s.tree
    ensures CallTotal(s, path, h, m) == SubtreeTotal(s, path, h, m)
    decreases |path|
  {
    if path != [] {
      var (s', runs) := Dispatched(s, path[0], h);
      DispatchedKeeps(s, path[0], h);
      CallTotals(s', path[1..], h, m);
      SameTotals(s, s', path[1..], h, m);
    }
  }

  /** The simple walks do not look at the caches. */
  lemma {:induction false} SameTotals(s: State, s': State, path: seq<Key>, h: nat, m: Module)
    requires Aligned(s) && Aligned(s') && s' == s.(cache := s'.cache)
    requires h < |s.hooks| && forall k :: k in path ==> k in s.tree
    ensures SubtreeTotal(s', path, h, m) == SubtreeTotal(s, path, h, m)
  {
    if path != [] { SameTotals(s, s', path[1..], h, m); }
  }

  // ----- Generation wrap-around

  function GenAfter(g: nat, n: nat): nat {
    if n == 0 then g else NextGen(GenAfter(g, n - 1))
  }

  /** Stepping from g, the counter runs through 1 .. 2^64 - 1 and starts over. */
  lemma {:induction false} GenAfterValue(g: nat, n: nat)
    requires 1 <= g <= LAST_GEN
    ensures GenAfter(g, n) == 1 + (g - 1 + n) % LAST_GEN
  {
    if n == 0 {
      SmallMod(g - 1, LAST_GEN);
    } else {
      GenAfterValue(g, n - 1);
      NextGenValue(g - 1 + (n - 1));
    }
  }

  lemma NextGenValue(x: nat)
    ensures NextGen(1 + x % LAST_GEN) == 1 + (x + 1) % LAST_GEN
  {
    var q, r := x / LAST_GEN, x % LAST_GEN;
    if r + 1 < LAST_GEN {
      DivModUnique(x + 1, LAST_GEN, q, r + 1);
      SmallMod(r + 2, WORD_SIZE);
    } else {
      DivModUnique(x + 1, LAST_GEN, q + 1, 0);
      DivModUnique(WORD_SIZE, WORD_SIZE, 1, 0);
    }
  }

  /** A stamp is taken for current again after n steps if and only if n is a multiple of 2^64 - 1. */
  lemma StampRecurs(g: nat, n: nat)
    requires 1 <= g <= LAST_GEN
    ensures GenAfter(g, n) == g <==> n % LAST_GEN == 0
  {
    GenAfterValue(g, n);
    SmallMod(g - 1, LAST_GEN);
    var q, r := n / LAST_GEN, n % LAST_GEN;
    if g - 1 + r < LAST_GEN {
      DivModUnique(g - 1 + n, LAST_GEN, q, g - 1 + r);
    } else {
      DivModUnique(g - 1 + n, LAST_GEN, q + 1, g - 1 + r - LAST_GEN);
    }
  }

  /** At the wrap a vector built at generation 1 is taken for current although the list has changed since. */
  lemma WrapHidesListener(s: State, k: Key, h: nat, m: Module)
    requires Inv(s) && k in s.tree && h < |s.hooks| && h < |s.cache[k].vec|
    requires s.cache[k].gen == LAST_GEN && s.cache[k].vec[h] == Vector([], 1)
    requires Listens(m, Denied(s, k), s.hooks[h])
    ensures var s' := Relist(s, k, s.lists[k] + [m]);
            Aligned(s') && Dispatched(s', k, h).1 == [] && m in Naive(s', k, h)
  {
    var s' := Relist(s, k, s.lists[k] + [m]);
    assert Aligned(s');
    assert NextGen(LAST_GEN) == 1 by { DivModUnique(WORD_SIZE, WORD_SIZE, 1, 0); }
    assert s'.cache[k].gen == 1;
    assert Grown(s.cache[k].vec, h) == s.cache[k].vec;
    assert m in s'.lists[k];
    ChildrenWider(s'.tree, k);
    assert m in Mods(s', k);
    KeepMember(Mods(s', k), Denied(s', k), s'.hooks[h], m);
  }
}
