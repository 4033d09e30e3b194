/** The order regions are made in, and what it means for a call: the younger of two sister regions runs first. */
module Siblings {
  import opened Word
  import opened Prefix
  import opened Tree
  import opened Claims
  import opened Slots
  import opened ModuleEntry
  import opened Dispatch
  import opened Coherence
  import opened Runs
  import opened Vectors

  // ----- Children, youngest first

  /** The children of p among regions given in the order they were made, youngest first. */
  ghost function NewestOf(births: seq<Key>, t: Tree, p: Key): seq<Key> {
    if births == [] then []
    else
      var n := |births| - 1;
      (if births[n] in t && t[births[n]].parent == Some(p) then [births[n]] else []) + NewestOf(births[..n], t, p)
  }

  /** Every region's children are exactly its child regions in reverse order of making. */
  ghost predicate YoungestFirst(t: Tree, births: seq<Key>) {
    && (forall k :: k in births <==> k in t && k != ROOT)
    && (forall i, j :: 0 <= i < j < |births| ==> births[i] != births[j])
    && (forall p {:trigger t[p]} :: p in t ==> t[p].children == NewestOf(births, t, p))
  }

  lemma {:induction false} NewestFrame(births: seq<Key>, t: Tree, t': Tree, p: Key)
    requires forall k :: k in births ==> k in t && k in t' && t'[k].parent == t[k].parent
    ensures NewestOf(births, t', p) == NewestOf(births, t, p)
  {
    if births != [] { NewestFrame(births[..|births| - 1], t, t', p); }
  }

  lemma AttachYoungest(t: Tree, p: Key, k: Key, births: seq<Key>)
    requires Shape(t) && Hangable(t, p, k) && YoungestFirst(t, births)
    ensures YoungestFirst(Attach(t, p, k), births + [k])
  {
    var t' := Attach(t, p, k);
    assert (births + [k])[..|births|] == births;
    forall q | q in t' ensures t'[q].children == NewestOf(births + [k], t', q) {
      NewestFrame(births, t, t', q);
      if q == k {
        NoneBelow(births, t, k);
      } else {
        assert t[q].children == NewestOf(births, t, q);
      }
    }
  }

  lemma {:induction false} NoneBelow(births: seq<Key>, t: Tree, k: Key)
    requires Shape(t) && k !in t
    ensures NewestOf(births, t, k) == []
  {
    if births != [] {
      NoneBelow(births[..|births| - 1], t, k);
      if births[|births| - 1] in t { assert ParentOk(t, births[|births| - 1]); }
    }
  }

  lemma SeedYoungest()
    ensures YoungestFirst(SEED, [])
  {
  }

  // ----- Lists of claims

  /** The regions a list of claims makes, in order: each shape the first time it is asked for. */
  function Claimed(reqs: seq<Key>): seq<Key> {
    if reqs == [] then []
    else
      var n := |reqs| - 1;
      Claimed(reqs[..n]) + (if Canonical(reqs[n]) && reqs[n] != ROOT && reqs[n] !in reqs[..n] then [reqs[n]] else [])
  }

  lemma ClaimYoungest(t: Tree, k: Key, births: seq<Key>)
    requires TreeInv(t) && IsWord(k.id) && YoungestFirst(t, births)
    ensures YoungestFirst(ClaimAt(t, k).0, births + if Canonical(k) && k !in t then [k] else [])
  {
    ClaimAtEffect(t, k);
    assert births + [] == births;
    if Canonical(k) && k !in t {
      NearestAncestorFound(t, k);
      AttachYoungest(t, NearestAncestor(t, k).value, k, births);
    }
  }

  /** After any list of claims each region's children stand youngest first. */
  lemma {:induction false} ClaimAllYoungest(reqs: seq<Key>)
    requires forall k :: k in reqs ==> IsWord(k.id)
    ensures YoungestFirst(ClaimAll(reqs), Claimed(reqs))
  {
    if reqs == [] {
      SeedYoungest();
    } else {
      var n := |reqs| - 1;
      var init, k := reqs[..n], reqs[n];
      assert forall x :: x in init ==> x in reqs;
      assert k in reqs;
      ClaimAllYoungest(init);
      ClaimAllRegions(init);
      ClaimYoungest(ClaimAll(init), k, Claimed(init));
      assert Canonical(k) ==> (k !in ClaimAll(init) <==> k != ROOT && k !in init);
    }
  }

  // ----- Runs

  /** The regions a run makes, in order, by comparing the states before and after each step. */
  ghost function Births(ops: seq<Op>): seq<Key> {
    if ops == [] then []
    else
      var n := |ops| - 1;
      Births(ops[..n]) + Newborn(Run(ops[..n]).tree.Keys, Run(ops).tree.Keys)
  }

  ghost function Newborn(before: set<Key>, after: set<Key>): seq<Key> {
    if exists k :: k in after && k !in before then
      var k :| k in after && k !in before; [k]
    else []
  }

  /** A step makes no region, or hangs one under another. */
  lemma StepMakes(s: State, op: Op) returns (p: Key, k: Key)
    requires Inv(s)
    ensures Step(s, op).tree == s.tree || (Hangable(s.tree, p, k) && Step(s, op).tree == Attach(s.tree, p, k))
  {
    p, k := ROOT, ROOT;
    if Enabled(s, op) {
      match op {
        case Claim(j) =>
          if Canonical(j) && j !in s.tree {
            NearestAncestorFound(s.tree, j);
            p, k := NearestAncestor(s.tree, j).value, j;
          }
        case Grant(q, bits) =>
          if Alloc(s.tree.Keys, q, bits) == INVALID_ID {
            GrantFails(s, op);
          } else {
            GrantIs(s, q, bits);
            p, k := q, Key(Alloc(s.tree.Keys, q, bits), q.plen + bits);
          }
        case _ =>
      }
    }
  }

  lemma StepYoungest(s: State, op: Op, births: seq<Key>)
    requires Inv(s) && YoungestFirst(s.tree, births)
    ensures YoungestFirst(Step(s, op).tree, births + Newborn(s.tree.Keys, Step(s, op).tree.Keys))
  {
    var p, k := StepMakes(s, op);
    if Step(s, op).tree == s.tree {
      assert births + [] == births;
    } else {
      assert Attach(s.tree, p, k).Keys == s.tree.Keys + {k};
      assert k in Step(s, op).tree.Keys && k !in s.tree.Keys;
      assert Newborn(s.tree.Keys, Step(s, op).tree.Keys) == [k];
      AttachYoungest(s.tree, p, k, births);
    }
  }

  /** After any run: the regions but the root are those the run made, and each one's children stand youngest first. */
  lemma {:induction false} RunYoungest(ops: seq<Op>)
    requires |ops| < LAST_GEN
    ensures YoungestFirst(Run(ops).tree, Births(ops))
  {
    if ops == [] {
      SeedYoungest();
    } else {
      var n := |ops| - 1;
      RunInv(ops[..n]);
      RunYoungest(ops[..n]);
      StepYoungest(Run(ops[..n]), ops[n], Births(ops[..n]));
    }
  }

  // ----- Who runs before whom

  predicate Before<T(==)>(ms: seq<T>, x: T, y: T) {
    exists i, j :: 0 <= i < j < |ms| && ms[i] == x && ms[j] == y
  }

  lemma BeforeAcross<T>(a: seq<T>, b: seq<T>, x: T, y: T)
    requires x in a && y in b
    ensures Before(a + b, x, y)
  {
    var i :| 0 <= i < |a| && a[i] == x;
    var j :| 0 <= j < |b| && b[j] == y;
    assert (a + b)[i] == x && (a + b)[|a| + j] == y;
  }

  lemma BeforeInside<T>(a: seq<T>, ms: seq<T>, b: seq<T>, x: T, y: T)
    requires Before(ms, x, y)
    ensures Before(a + ms + b, x, y)
  {
    var i, j :| 0 <= i < j < |ms| && ms[i] == x && ms[j] == y;
    assert (a + ms + b)[|a| + i] == x && (a + ms + b)[|a| + j] == y;
  }

  /** Of two sisters the one made later stands first. */
  lemma {:induction false} NewestOrder(births: seq<Key>, t: Tree, p: Key, i: nat, j: nat)
    requires i < j < |births| && births[i] in t && births[j] in t
    requires t[births[i]].parent == Some(p) && t[births[j]].parent == Some(p)
    ensures Before(NewestOf(births, t, p), births[j], births[i])
  {
    var n := |births| - 1;
    var rest := NewestOf(births[..n], t, p);
    if j == n {
      NewestHas(births[..n], t, p, i);
      BeforeAcross([births[n]], rest, births[j], births[i]);
    } else {
      NewestOrder(births[..n], t, p, i, j);
      var front := if births[n] in t && t[births[n]].parent == Some(p) then [births[n]] else [];
      BeforeInside(front, rest, [], births[j], births[i]);
      assert front + rest + [] == front + rest;
    }
  }

  lemma {:induction false} NewestHas(births: seq<Key>, t: Tree, p: Key, i: nat)
    requires i < |births| && births[i] in t && t[births[i]].parent == Some(p)
    ensures births[i] in NewestOf(births, t, p)
  {
    if i < |births| - 1 { NewestHas(births[..|births| - 1], t, p, i); }
  }

  lemma {:induction false} SubtreesSplit(t: Tree, lists: Lists, k: Key, a: seq<Key>, b: seq<Key>)
    requires Shape(t) && lists.Keys == t.Keys && k in t
    requires forall c :: c in a + b ==> c in t && c.plen > k.plen
    ensures (forall c :: c in a ==> c in t && c.plen > k.plen) && (forall c :: c in b ==> c in t && c.plen > k.plen)
    ensures SubtreesOf(t, lists, k, a + b) == SubtreesOf(t, lists, k, a) + SubtreesOf(t, lists, k, b)
  {
    if a == [] {
      assert a + b == b;
    } else {
      assert (a + b)[0] == a[0] && (a + b)[1..] == a[1..] + b;
      forall c | c in a ensures c in a + b {}
      forall c | c in b ensures c in a + b {}
      assert forall c :: c in a[1..] + b ==> c in a + b;
      SubtreesSplit(t, lists, k, a[1..], b);
    }
  }

  /** The walk of a child is a block of the walk of the region. */
  lemma ChildBlock(t: Tree, lists: Lists, k: Key, i: nat) returns (a: seq<Module>, b: seq<Module>)
    requires Shape(t) && lists.Keys == t.Keys && k in t && i < |t[k].children|
    ensures t[k].children[i] in t
    ensures SubtreeMods(t, lists, k) == a + SubtreeMods(t, lists, t[k].children[i]) + b
    ensures forall m :: m in lists[k] ==> m in a
    ensures forall j, m :: 0 <= j < i && t[k].children[j] in t && m in SubtreeMods(t, lists, t[k].children[j]) ==>
              m in a
  {
    ChildrenWider(t, k);
    var cs := t[k].children;
    var c, front, back := cs[i], cs[..i], cs[i + 1..];
    assert cs == front + ([c] + back);
    SubtreesSplit(t, lists, k, front, [c] + back);
    assert ([c] + back)[1..] == back;
    a, b := lists[k] + SubtreesOf(t, lists, k, front), SubtreesOf(t, lists, k, back);
    forall j, m | 0 <= j < i && cs[j] in t && m in SubtreeMods(t, lists, cs[j]) ensures m in a {
      SubtreesHave(t, lists, k, front, j, m);
    }
  }

  lemma {:induction false} SubtreesHave(t: Tree, lists: Lists, k: Key, rest: seq<Key>, j: nat, m: Module)
    requires Shape(t) && lists.Keys == t.Keys && k in t && forall c :: c in rest ==> c in t && c.plen > k.plen
    requires j < |rest| && m in SubtreeMods(t, lists, rest[j])
    ensures m in SubtreesOf(t, lists, k, rest)
  {
    if j > 0 { SubtreesHave(t, lists, k, rest[1..], j - 1, m); }
  }

  /** The walk of any region below is a block of the walk. */
  lemma {:induction false} BlockBelow(t: Tree, lists: Lists, top: Key, k: Key) returns (a: seq<Module>, b: seq<Module>)
    requires Shape(t) && lists.Keys == t.Keys && top in t && k in Below(t, top)
    ensures SubtreeMods(t, lists, top) == a + SubtreeMods(t, lists, k) + b
    decreases 64 - top.plen
  {
    if k == top {
      a, b := [], [];
    } else {
      ChildrenWider(t, top);
      var c := ChildToward(t, k, top);
      var i :| 0 <= i < |t[top].children| && t[top].children[i] == c;
      var a1, b1 := ChildBlock(t, lists, top, i);
      var a2, b2 := BlockBelow(t, lists, c, k);
      a, b := a1 + a2, b2 + b1;
      assert a1 + (a2 + SubtreeMods(t, lists, k) + b2) + b1 == a + SubtreeMods(t, lists, k) + b;
    }
  }

  lemma {:induction false} KeepBefore(ms: seq<Module>, denied: set<string>, hook: string, i: nat, j: nat)
    requires i < j < |ms| && Listens(ms[i], denied, hook) && Listens(ms[j], denied, hook)
    ensures Before(Keep(ms, denied, hook), ms[i], ms[j])
  {
    var rest := Keep(ms[1..], denied, hook);
    if i == 0 {
      KeepMember(ms[1..], denied, hook, ms[j]);
      assert ms[1..][j - 1] == ms[j];
      BeforeAcross([ms[0]], rest, ms[0], ms[j]);
    } else {
      KeepBefore(ms[1..], denied, hook, i - 1, j - 1);
      var front := if Listens(ms[0], denied, hook) then [ms[0]] else [];
      BeforeInside(front, rest, [], ms[i], ms[j]);
      assert front + rest + [] == front + rest;
    }
  }

  /** What a call from region top runs keeps the order of the walk, whatever vector it trusts. */
  lemma CallKeepsOrder(ops: seq<Op>, top: Key, h: nat, x: Module, y: Module)
    requires |ops| < LAST_GEN && Enabled(Run(ops), Call(top, h))
    requires var runs := Dispatched(Run(ops), top, h).1; x in runs && y in runs
    requires Before(Mods(Run(ops), top), x, y)
    ensures Before(Dispatched(Run(ops), top, h).1, x, y)
  {
    var s := Run(ops);
    RunInv(ops);
    VectorsAreBuilt(ops, top, h);
    DispatchRuns(s, top, h);
    var d := if IsFresh(s.cache[top], h) then BuiltUnder(ops, top, h) else Denied(s, top);
    assert CacheOkAt(s, top);
    assert Dispatched(s, top, h).1 == Keep(Mods(s, top), d, s.hooks[h]);
    KeepMember(Mods(s, top), d, s.hooks[h], x);
    KeepMember(Mods(s, top), d, s.hooks[h], y);
    var i, j :| 0 <= i < j < |Mods(s, top)| && Mods(s, top)[i] == x && Mods(s, top)[j] == y;
    KeepBefore(Mods(s, top), d, s.hooks[h], i, j);
  }

  /** Children of one region, the one with index j made after the one with index i. */
  ghost predicate Sisters(t: Tree, births: seq<Key>, k: Key, i: nat, j: nat) {
    && i < j < |births| && births[i] in t && births[j] in t
    && t[births[i]].parent == Some(k) && t[births[j]].parent == Some(k)
  }

  lemma WalkOrder(t: Tree, lists: Lists, births: seq<Key>, top: Key, k: Key, i: nat, j: nat, x: Module, y: Module)
    requires Shape(t) && lists.Keys == t.Keys && YoungestFirst(t, births) && top in t && k in Below(t, top)
    requires Sisters(t, births, k, i, j)
    requires x in SubtreeMods(t, lists, births[i]) && y in SubtreeMods(t, lists, births[j])
    ensures Before(SubtreeMods(t, lists, top), y, x)
  {
    NewestOrder(births, t, k, i, j);
    var cs := t[k].children;
    assert cs == NewestOf(births, t, k);
    var v, u :| 0 <= v < u < |cs| && cs[v] == births[j] && cs[u] == births[i];
    var a, b := ChildBlock(t, lists, k, u);
    InBlock(t, lists, top, k, a, SubtreeMods(t, lists, cs[u]), b, y, x);
  }

  lemma InBlock(t: Tree, lists: Lists, top: Key, k: Key, a: seq<Module>, mid: seq<Module>, b: seq<Module>, x: Module,
                y: Module)
    requires Shape(t) && lists.Keys == t.Keys && top in t && k in Below(t, top)
    requires SubtreeMods(t, lists, k) == a + mid + b && x in a && y in mid
    ensures Before(SubtreeMods(t, lists, top), x, y)
  {
    BeforeAcross(a, mid, x, y);
    BeforeInside([], a + mid, b, x, y);
    assert [] + (a + mid) + b == a + mid + b;
    var a', b' := BlockBelow(t, lists, top, k);
    BeforeInside(a', a + mid + b, b', x, y);
  }

  lemma OwnBefore(t: Tree, lists: Lists, top: Key, k: Key, c: Key, x: Module, y: Module)
    requires Shape(t) && lists.Keys == t.Keys && top in t && k in Below(t, top)
    requires c in t && t[c].parent == Some(k) && x in lists[k] && y in SubtreeMods(t, lists, c)
    ensures Before(SubtreeMods(t, lists, top), x, y)
  {
    assert ChildrenOk(t, k);
    var i :| 0 <= i < |t[k].children| && t[k].children[i] == c;
    var a, b := ChildBlock(t, lists, k, i);
    InBlock(t, lists, top, k, a, SubtreeMods(t, lists, c), b, x, y);
  }

  /**
   * Of two listeners in two sister regions' subtrees, at any depth below the caller, a call runs the one in the region
   * that was made later first.
   */
  lemma YoungerSisterFirst(ops: seq<Op>, top: Key, h: nat, k: Key, i: nat, j: nat, x: Module, y: Module)
    requires |ops| < LAST_GEN && Enabled(Run(ops), Call(top, h)) && k in Below(Run(ops).tree, top)
    requires Sisters(Run(ops).tree, Births(ops), k, i, j)
    requires var s, bs := Run(ops), Births(ops); x in Mods(s, bs[i]) && y in Mods(s, bs[j])
    requires var runs := Dispatched(Run(ops), top, h).1; x in runs && y in runs
    ensures Before(Dispatched(Run(ops), top, h).1, y, x)
  {
    RunInv(ops);
    RunYoungest(ops);
    WalkOrder(Run(ops).tree, Run(ops).lists, Births(ops), top, k, i, j, x, y);
    CallKeepsOrder(ops, top, h, y, x);
  }

  /** And a region's own listeners run before those below it. */
  lemma OwnFirst(ops: seq<Op>, top: Key, h: nat, k: Key, c: Key, x: Module, y: Module)
    requires |ops| < LAST_GEN && Enabled(Run(ops), Call(top, h)) && k in Below(Run(ops).tree, top)
    requires var s := Run(ops); c in s.tree && s.tree[c].parent == Some(k) && x in s.lists[k] && y in Mods(s, c)
    requires var runs := Dispatched(Run(ops), top, h).1; x in runs && y in runs
    ensures Before(Dispatched(Run(ops), top, h).1, x, y)
  {
    RunInv(ops);
    OwnBefore(Run(ops).tree, Run(ops).lists, top, k, c, x, y);
    CallKeepsOrder(ops, top, h, x, y);
  }
}
