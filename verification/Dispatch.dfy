/** The cached dispatcher over the region tree, as a value: lists, denies, dirty bits, generations and vectors. */
module Dispatch {
  import opened Word
  import opened Prefix
  import opened Tree
  import opened Claims
  import opened ModuleEntry

  type Lists = map<Key, seq<Module>>

  datatype Denies = Denies(hooks: set<string>, mods: set<string>)

  const NO_DENIES := Denies({}, {})

  /** A per-hook dispatch vector and the generation it was built at; stamp 0 means never built. */
  datatype Vector = Vector(slots: seq<Module>, stamp: nat)

  datatype Cache = Cache(gen: nat, dirty: bool, subtree: seq<Module>, vec: seq<Vector>)

  const NEW_CACHE := Cache(1, false, [], [])

  /** The dispatcher's tables; hook numbers are the positions of their names in `hooks`. */
  datatype State = State(
    tree: Tree,
    lists: Lists,
    deny: map<Key, Denies>,
    flag: map<Key, bool>,
    cache: map<Key, Cache>,
    live: set<Module>,
    hooks: seq<string>)

  // ----- The simple walk

  /** The modules of a region's subtree: its own in list order, then each child's subtree. */
  ghost function SubtreeMods(t: Tree, lists: Lists, k: Key): seq<Module>
    requires Shape(t) && lists.Keys == t.Keys && k in t
    decreases 64 - k.plen, |t[k].children| + 1
  {
    ChildrenWider(t, k);
    lists[k] + SubtreesOf(t, lists, k, t[k].children)
  }

  ghost function SubtreesOf(t: Tree, lists: Lists, k: Key, rest: seq<Key>): seq<Module>
    requires Shape(t) && lists.Keys == t.Keys && k in t
    requires forall c :: c in rest ==> c in t && c.plen > k.plen
    decreases 64 - k.plen, |rest|
  {
    if rest == [] then [] else SubtreeMods(t, lists, rest[0]) + SubtreesOf(t, lists, k, rest[1..])
  }

  /** The module paths some region from the root down to k denies. */
  ghost function DeniedPaths(t: Tree, deny: map<Key, Denies>, k: Key): set<string>
    requires Shape(t) && deny.Keys == t.Keys && k in t
    decreases k.plen
  {
    assert ParentOk(t, k);
    deny[k].mods + (if t[k].parent.Some? then DeniedPaths(t, deny, t[k].parent.value) else {})
  }

  predicate Listens(m: Module, denied: set<string>, hook: string) {
    m.hasCtx && m.path !in denied && hook in m.exports
  }

  /** The listeners among ms, in order. */
  function Keep(ms: seq<Module>, denied: set<string>, hook: string): seq<Module> {
    if ms == [] then []
    else (if Listens(ms[0], denied, hook) then [ms[0]] else []) + Keep(ms[1..], denied, hook)
  }

  ghost predicate Aligned(s: State) {
    && Shape(s.tree)
    && s.lists.Keys == s.deny.Keys == s.flag.Keys == s.cache.Keys == s.tree.Keys
  }

  ghost function Mods(s: State, k: Key): seq<Module>
    requires Aligned(s) && k in s.tree
  {
    SubtreeMods(s.tree, s.lists, k)
  }

  ghost function Denied(s: State, k: Key): set<string>
    requires Aligned(s) && k in s.tree
  {
    DeniedPaths(s.tree, s.deny, k)
  }

  /** What a dispatch of hook number h from region k has to run. */
  ghost function Naive(s: State, k: Key, h: nat): seq<Module>
    requires Aligned(s) && k in s.tree && h < |s.hooks|
  {
    Keep(Mods(s, k), Denied(s, k), s.hooks[h])
  }

  // ----- Facts about the walk

  lemma {:induction false} SubtreeModsMember(t: Tree, lists: Lists, k: Key, m: Module)
    requires Shape(t) && lists.Keys == t.Keys && k in t
    ensures m in SubtreeMods(t, lists, k) <==> exists j :: j in Below(t, k) && m in lists[j]
    decreases 64 - k.plen, |t[k].children| + 1
  {
    ChildrenWider(t, k);
    SubtreesOfMember(t, lists, k, t[k].children, m);
    BelowSplits(t, k);
  }

  lemma {:induction false} SubtreesOfMember(t: Tree, lists: Lists, k: Key, rest: seq<Key>, m: Module)
    requires Shape(t) && lists.Keys == t.Keys && k in t
    requires forall c :: c in rest ==> c in t && c.plen > k.plen
    ensures m in SubtreesOf(t, lists, k, rest) <==> exists j :: j in BelowAny(t, rest) && m in lists[j]
    decreases 64 - k.plen, |rest|
  {
    if rest != [] {
      SubtreeModsMember(t, lists, rest[0], m);
      SubtreesOfMember(t, lists, k, rest[1..], m);
      BelowAnySplits(t, rest);
    }
  }

  /** The walk below k reads only the links and lists of the regions below k. */
  ghost predicate SameBelow(t: Tree, lists: Lists, t': Tree, lists': Lists, k: Key)
    requires lists.Keys == t.Keys && lists'.Keys == t'.Keys
  {
    forall j :: j in Below(t, k) ==> j in t' && t'[j].children == t[j].children && lists'[j] == lists[j]
  }

  lemma {:induction false} SubtreeModsFrame(t: Tree, lists: Lists, t': Tree, lists': Lists, k: Key)
    requires Shape(t) && lists.Keys == t.Keys && Shape(t') && lists'.Keys == t'.Keys && k in t
    requires SameBelow(t, lists, t', lists', k)
    ensures k in t' && SubtreeMods(t', lists', k) == SubtreeMods(t, lists, k)
    decreases 64 - k.plen, |t[k].children| + 1
  {
    assert k in Below(t, k);
    BelowSplits(t, k);
    ChildrenWider(t, k);
    ChildrenWider(t', k);
    SubtreesOfFrame(t, lists, t', lists', k, t[k].children);
  }

  lemma {:induction false} SubtreesOfFrame(t: Tree, lists: Lists, t': Tree, lists': Lists, k: Key, rest: seq<Key>)
    requires Shape(t) && lists.Keys == t.Keys && Shape(t') && lists'.Keys == t'.Keys && k in t && k in t'
    requires forall c :: c in rest ==> c in t && c in t' && c.plen > k.plen
    requires forall j :: j in BelowAny(t, rest) ==> j in t' && t'[j].children == t[j].children && lists'[j] == lists[j]
    ensures SubtreesOf(t', lists', k, rest) == SubtreesOf(t, lists, k, rest)
    decreases 64 - k.plen, |rest|
  {
    if rest != [] {
      BelowAnySplits(t, rest);
      SubtreeModsFrame(t, lists, t', lists', rest[0]);
      SubtreesOfFrame(t, lists, t', lists', k, rest[1..]);
    }
  }

  /** The denied paths at k come from the regions above k only. */
  lemma {:induction false} DeniedPathsFrame(t: Tree, deny: map<Key, Denies>, t': Tree, deny': map<Key, Denies>, k: Key)
    requires Shape(t) && deny.Keys == t.Keys && Shape(t') && deny'.Keys == t'.Keys && k in t && k in t'
    requires forall a :: a in t && IsUnder(t, k, a) ==>
               a in t' && t'[a].parent == t[a].parent && deny'[a].mods == deny[a].mods
    ensures DeniedPaths(t', deny', k) == DeniedPaths(t, deny, k)
    decreases k.plen
  {
    assert ParentOk(t, k);
    if t[k].parent.Some? {
      var p := t[k].parent.value;
      assert ParentOk(t', k);
      DeniedPathsFrame(t, deny, t', deny', p);
    }
  }

  lemma {:induction false} DeniedPathsMember(t: Tree, deny: map<Key, Denies>, k: Key, path: string)
    requires Shape(t) && deny.Keys == t.Keys && k in t
    ensures path in DeniedPaths(t, deny, k) <==> exists a :: a in t && IsUnder(t, k, a) && path in deny[a].mods
    decreases k.plen
  {
    assert ParentOk(t, k);
    if t[k].parent.Some? {
      DeniedPathsMember(t, deny, t[k].parent.value, path);
    }
  }

  lemma {:induction false} KeepMember(ms: seq<Module>, denied: set<string>, hook: string, m: Module)
    ensures m in Keep(ms, denied, hook) <==> m in ms && Listens(m, denied, hook)
  {
    if ms != [] {
      KeepMember(ms[1..], denied, hook, m);
    }
  }

  lemma {:induction false} KeepAppend(a: seq<Module>, b: seq<Module>, denied: set<string>, hook: string)
    ensures Keep(a + b, denied, hook) == Keep(a, denied, hook) + Keep(b, denied, hook)
  {
    if a == [] {
      assert a + b == b;
    } else {
      assert (a + b)[1..] == a[1..] + b;
      KeepAppend(a[1..], b, denied, hook);
    }
  }

  lemma KeepOneMore(ms: seq<Module>, i: nat, denied: set<string>, hook: string)
    requires i < |ms|
    ensures Keep(ms[..i + 1], denied, hook) ==
              Keep(ms[..i], denied, hook) + if Listens(ms[i], denied, hook) then [ms[i]] else []
  {
    assert ms[..i + 1] == ms[..i] + [ms[i]] && [ms[i]][1..] == [];
    KeepAppend(ms[..i], [ms[i]], denied, hook);
  }

  /** Denying one more path changes the result exactly when one of the listeners has that path. */
  lemma {:induction false} KeepDenyOne(ms: seq<Module>, denied: set<string>, path: string, hook: string)
    ensures Keep(ms, denied + {path}, hook) == Keep(ms, denied, hook) <==>
            forall m :: m in Keep(ms, denied, hook) ==> m.path != path
    ensures |Keep(ms, denied + {path}, hook)| <= |Keep(ms, denied, hook)|
  {
    if ms != [] {
      KeepDenyOne(ms[1..], denied, path, hook);
      var m, more, fewer := ms[0], Keep(ms[1..], denied, hook), Keep(ms[1..], denied + {path}, hook);
      if Listens(m, denied, hook) {
        var longer := [m] + more;
        assert forall x :: x in longer <==> x == m || x in more;
        assert Keep(ms, denied, hook) == longer;
        assert Keep(ms, denied + {path}, hook) == if m.path == path then fewer else [m] + fewer;
        if m.path != path && fewer != more {
          assert ([m] + fewer)[1..] == fewer && longer[1..] == more;
        }
      }
    }
  }
}
