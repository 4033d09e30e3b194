/** The operations on the dispatcher's tables, and why the caches agree with the simple walk. */
module Coherence {
  import opened Word
  import opened Prefix
  import opened Tree
  import opened Claims
  import opened Slots
  import opened ModuleEntry
  import opened Dispatch

  // ----- Generations

  /** The 64-bit counter step that never lands on 0. */
  function NextGen(g: nat): nat {
    var next := (g + 1) % WORD_SIZE;
    if next == 0 then 1 else next
  }

  const LAST_GEN: nat := WORD_SIZE - 1

  /** Walk from k to the root, stepping every generation and, for a list change, setting every dirty bit. */
  ghost function Touch(t: Tree, cache: map<Key, Cache>, k: Key, dirty: bool): map<Key, Cache> {
    map j | j in cache ::
      if IsUnder(t, k, j) then cache[j].(gen := NextGen(cache[j].gen), dirty := cache[j].dirty || dirty)
      else cache[j]
  }

  /** No generation on the walk from k is about to wrap. */
  ghost predicate NoWrap(s: State, k: Key)
    requires Aligned(s)
  {
    forall j :: j in s.tree && IsUnder(s.tree, k, j) ==> s.cache[j].gen < LAST_GEN
  }

  // ----- Operations

  /** A region's module list changes: `module_region_insert_after` and `module_region_detach`. */
  ghost function Relist(s: State, k: Key, ms: seq<Module>): State {
    s.(lists := s.lists[k := ms], cache := Touch(s.tree, s.cache, k, true))
  }

  /** A new region under p. */
  ghost function AddRegion(s: State, p: Key, k: Key): State
    requires p in s.tree
  {
    s.(tree := Attach(s.tree, p, k),
       lists := s.lists[k := []],
       deny := s.deny[k := NO_DENIES],
       flag := s.flag[k := false],
       cache := Touch(s.tree, s.cache, p, true)[k := NEW_CACHE])
  }

  ghost function RaiseFlags(t: Tree, flag: map<Key, bool>, k: Key): map<Key, bool> {
    map j | j in flag :: flag[j] || IsUnder(t, k, j)
  }

  ghost function DenyHook(s: State, k: Key, hook: string): State
    requires k in s.deny
  {
    s.(deny := s.deny[k := s.deny[k].(hooks := s.deny[k].hooks + {hook})],
       flag := RaiseFlags(s.tree, s.flag, k),
       cache := Touch(s.tree, s.cache, k, false))
  }

  ghost function DenyMod(s: State, k: Key, path: string): State
    requires k in s.deny
  {
    s.(deny := s.deny[k := s.deny[k].(mods := s.deny[k].mods + {path})],
       flag := RaiseFlags(s.tree, s.flag, k),
       cache := Touch(s.tree, s.cache, k, false))
  }

  /** Unloading from region k: the region's own denial of that path is lifted and the module is unlinked. */
  ghost function Drop(s: State, k: Key, path: string, ms: seq<Module>): State
    requires k in s.deny
  {
    Relist(s.(deny := s.deny[k := s.deny[k].(mods := s.deny[k].mods - {path})]), k, ms)
  }

  // ----- The cached dispatch

  /** `region_rebuild_subtree_mods`, when the dirty bit asks for it. */
  ghost function Collected(s: State, k: Key): Cache
    requires Aligned(s) && k in s.tree
  {
    var c := s.cache[k];
    if c.dirty then c.(dirty := false, subtree := Mods(s, k)) else c
  }

  /** The vector array grown to hold hook number h. */
  function Grown(vec: seq<Vector>, h: nat): (r: seq<Vector>)
    ensures |r| > h && |r| >= |vec| && r[..|vec|] == vec
    ensures forall i :: |vec| <= i < |r| ==> r[i] == Vector([], 0)
  {
    if h < |vec| then vec else vec + seq(h + 16 - |vec|, _ => Vector([], 0))
  }

  /** The region's cache after a subtree dispatch of hook h has made its vector fresh. */
  ghost function Freshened(s: State, k: Key, h: nat): (c: Cache)
    requires Aligned(s) && k in s.tree && h < |s.hooks|
    ensures h < |c.vec|
  {
    var c := Collected(s, k);
    var vec := Grown(c.vec, h);
    if vec[h].stamp == c.gen then c.(vec := vec)
    else c.(vec := vec[h := Vector(Keep(c.subtree, Denied(s, k), s.hooks[h]), c.gen)])
  }

  /** The tables after a dispatch, and the modules it ran. */
  ghost function Dispatched(s: State, k: Key, h: nat): (State, seq<Module>)
    requires Aligned(s) && k in s.tree && h < |s.hooks|
  {
    var c := Freshened(s, k, h);
    (s.(cache := s.cache[k := c]), c.vec[h].slots)
  }

  /** The exact-region walk: the region's own listeners, nothing cached. */
  ghost function SelfRuns(s: State, k: Key, h: nat): seq<Module>
    requires Aligned(s) && k in s.tree && h < |s.hooks|
  {
    Keep(s.lists[k], Denied(s, k), s.hooks[h])
  }

  // ----- What the caches may hold

  ghost predicate IsFresh(c: Cache, h: int) {
    0 <= h < |c.vec| && c.vec[h].stamp == c.gen
  }

  /** Generations are live, stamps lie in the past, clean lists are right and fresh vectors hold no stranger. */
  ghost predicate CacheOk(c: Cache, ms: seq<Module>, minted: nat) {
    && 1 <= c.gen <= LAST_GEN
    && (forall h :: 0 <= h < |c.vec| ==> c.vec[h].stamp <= c.gen)
    && (forall h :: IsFresh(c, h) ==> h < minted && forall m :: m in c.vec[h].slots ==> m in ms)
    && (!c.dirty ==> c.subtree == ms)
  }

  /** Fresh vectors hold exactly the listeners. */
  ghost predicate CacheExact(c: Cache, ms: seq<Module>, denied: set<string>, hooks: seq<string>) {
    forall h :: IsFresh(c, h) && h < |hooks| ==> c.vec[h].slots == Keep(ms, denied, hooks[h])
  }

  ghost predicate LinkedIn(lists: Lists, live: set<Module>, k: Key)
    requires k in lists
  {
    && (forall m :: m in lists[k] ==> m in live)
    && (forall i, j :: 0 <= i < j < |lists[k]| ==> lists[k][i] != lists[k][j])
  }

  ghost predicate Apart(lists: Lists, j: Key, k: Key)
    requires j in lists && k in lists
  {
    forall m :: m in lists[j] ==> m !in lists[k]
  }

  /** A module is linked at most once, and only live modules are linked. */
  ghost predicate Linked(lists: Lists, live: set<Module>) {
    && (forall k {:trigger LinkedIn(lists, live, k)} :: k in lists ==> LinkedIn(lists, live, k))
    && (forall j, k {:trigger Apart(lists, j, k)} :: j in lists && k in lists && j != k ==> Apart(lists, j, k))
  }

  /** A hook denial anywhere shows in the root's summary flag. */
  ghost predicate FlagsOk(s: State)
    requires Aligned(s)
  {
    (exists k :: k in s.deny && s.deny[k].hooks != {}) ==> s.flag[ROOT]
  }

  ghost predicate CacheOkAt(s: State, k: Key)
    requires Aligned(s) && k in s.tree
  {
    CacheOk(s.cache[k], Mods(s, k), |s.hooks|)
  }

  ghost predicate ExactAt(s: State, k: Key)
    requires Aligned(s) && k in s.tree
  {
    CacheExact(s.cache[k], Mods(s, k), Denied(s, k), s.hooks)
  }

  ghost predicate CachesOk(s: State)
    requires Aligned(s)
  {
    forall k {:trigger CacheOkAt(s, k)} :: k in s.tree ==> CacheOkAt(s, k)
  }

  ghost predicate Exact(s: State)
    requires Aligned(s)
  {
    forall k {:trigger ExactAt(s, k)} :: k in s.tree ==> ExactAt(s, k)
  }

  ghost predicate Inv(s: State) {
    Aligned(s) && Nested(s.tree) && CachesOk(s) && Linked(s.lists, s.live) && FlagsOk(s)
  }

  // ----- Touching makes every vector on the walk stale

  ghost predicate TouchedFrom(c: Cache, c': Cache) {
    c' == c.(gen := c'.gen, dirty := c'.dirty) && c.gen < LAST_GEN && c'.gen == NextGen(c.gen)
  }

  lemma TouchedIsStale(c: Cache, c': Cache, ms: seq<Module>, ms': seq<Module>, minted: nat)
    requires CacheOk(c, ms, minted) && TouchedFrom(c, c')
    requires c'.dirty || (c'.dirty == c.dirty && ms' == ms)
    ensures CacheOk(c', ms', minted)
    ensures forall h :: !IsFresh(c', h)
  {
    SmallMod(c.gen + 1, WORD_SIZE);
  }

  // ----- List changes

  /** A list change at k is invisible to every region that does not have k in its subtree. */
  lemma RelistMods(s: State, k: Key, ms: seq<Module>, j: Key)
    requires Aligned(s) && k in s.tree && j in s.tree && !IsUnder(s.tree, k, j)
    ensures Aligned(Relist(s, k, ms)) && Mods(Relist(s, k, ms), j) == Mods(s, j)
  {
    SubtreeModsFrame(s.tree, s.lists, s.tree, s.lists[k := ms], j);
  }

  /** After a list change at k the regions above k have nothing fresh, and the others are as they were. */
  lemma RelistAt(s: State, k: Key, ms: seq<Module>, j: Key)
    requires Aligned(s) && k in s.tree && NoWrap(s, k) && j in s.tree && CacheOkAt(s, j)
    ensures var s' := Relist(s, k, ms);
            Aligned(s') && CacheOkAt(s', j) && (ExactAt(s, j) ==> ExactAt(s', j))
  {
    var s' := Relist(s, k, ms);
    if IsUnder(s.tree, k, j) {
      TouchedIsStale(s.cache[j], s'.cache[j], Mods(s, j), Mods(s', j), |s.hooks|);
    } else {
      RelistMods(s, k, ms, j);
    }
  }

  lemma RelistCaches(s: State, k: Key, ms: seq<Module>)
    requires Aligned(s) && CachesOk(s) && k in s.tree && NoWrap(s, k)
    ensures Aligned(Relist(s, k, ms)) && CachesOk(Relist(s, k, ms))
  {
    var s' := Relist(s, k, ms);
    RelistAt(s, k, ms, k);
    forall j | j in s'.tree ensures CacheOkAt(s', j) {
      RelistAt(s, k, ms, j);
    }
  }

  lemma RelistExact(s: State, k: Key, ms: seq<Module>)
    requires Aligned(s) && CachesOk(s) && Exact(s) && k in s.tree && NoWrap(s, k)
    ensures Aligned(Relist(s, k, ms)) && Exact(Relist(s, k, ms))
  {
    var s' := Relist(s, k, ms);
    RelistAt(s, k, ms, k);
    forall j | j in s'.tree ensures ExactAt(s', j) {
      RelistAt(s, k, ms, j);
    }
  }

  lemma RelistKeeps(s: State, k: Key, ms: seq<Module>)
    requires Inv(s) && k in s.tree && NoWrap(s, k) && Linked(s.lists[k := ms], s.live)
    ensures Inv(Relist(s, k, ms))
    ensures Exact(s) ==> Exact(Relist(s, k, ms))
  {
    RelistCaches(s, k, ms);
    if Exact(s) { RelistExact(s, k, ms); }
  }

  // ----- New regions

  /** Attaching a leaf changes the walk only for the regions above it. */
  lemma AddRegionMods(s: State, p: Key, k: Key, j: Key)
    requires Aligned(s) && Attachable(s.tree, p, k) && j in s.tree
    ensures var s' := AddRegion(s, p, k);
            Aligned(s') && Denied(s', j) == Denied(s, j) && (!IsUnder(s.tree, p, j) ==> Mods(s', j) == Mods(s, j))
  {
    var s' := AddRegion(s, p, k);
    AttachKeepsShape(s.tree, p, k);
    forall a | a in s.tree && IsUnder(s.tree, j, a)
      ensures s'.tree[a].parent == s.tree[a].parent && s'.deny[a] == s.deny[a]
    {
    }
    DeniedPathsFrame(s.tree, s.deny, s'.tree, s'.deny, j);
    if !IsUnder(s.tree, p, j) {
      AttachSameBelow(s, p, k, j);
      SubtreeModsFrame(s.tree, s.lists, s'.tree, s'.lists, j);
    }
  }

  lemma AttachSameBelow(s: State, p: Key, k: Key, j: Key)
    requires Aligned(s) && Attachable(s.tree, p, k) && j in s.tree && !IsUnder(s.tree, p, j)
    ensures var s' := AddRegion(s, p, k);
            s'.lists.Keys == s'.tree.Keys && SameBelow(s.tree, s.lists, s'.tree, s'.lists, j)
  {
    var s' := AddRegion(s, p, k);
    forall i | i in Below(s.tree, j)
      ensures i in s'.tree && s'.tree[i].children == s.tree[i].children && s'.lists[i] == s.lists[i]
    {
      assert i != k && i != p;
    }
  }

  lemma AddRegionAt(s: State, p: Key, k: Key, j: Key)
    requires Aligned(s) && Attachable(s.tree, p, k) && NoWrap(s, p) && j in s.tree && CacheOkAt(s, j)
    ensures var s' := AddRegion(s, p, k);
            Aligned(s') && CacheOkAt(s', j) && (ExactAt(s, j) ==> ExactAt(s', j))
  {
    var s' := AddRegion(s, p, k);
    AddRegionMods(s, p, k, j);
    if IsUnder(s.tree, p, j) {
      TouchedIsStale(s.cache[j], s'.cache[j], Mods(s, j), Mods(s', j), |s.hooks|);
    }
  }

  lemma AddRegionLeaf(s: State, p: Key, k: Key)
    requires Aligned(s) && Attachable(s.tree, p, k)
    ensures var s' := AddRegion(s, p, k); Aligned(s') && CacheOkAt(s', k) && ExactAt(s', k)
  {
    AttachKeepsShape(s.tree, p, k);
    Pow2Monotone(1, 64);
    var s' := AddRegion(s, p, k);
    assert s'.lists[k] == [] && s'.tree[k].children == [];
    assert SubtreesOf(s'.tree, s'.lists, k, []) == [];
    assert Mods(s', k) == [];
  }

  lemma AddRegionKeeps(s: State, p: Key, k: Key)
    requires Inv(s) && Attachable(s.tree, p, k) && NoWrap(s, p)
    ensures Inv(AddRegion(s, p, k))
    ensures Exact(s) ==> Exact(AddRegion(s, p, k))
  {
    var s' := AddRegion(s, p, k);
    AddRegionLeaf(s, p, k);
    AttachKeepsInv(s.tree, p, k);
    forall j | j in s'.tree ensures CacheOkAt(s', j) && (Exact(s) ==> ExactAt(s', j)) {
      if j != k { AddRegionAt(s, p, k, j); }
    }
    AddRegionLinked(s, p, k);
  }

  lemma AddRegionLinked(s: State, p: Key, k: Key)
    requires Aligned(s) && Linked(s.lists, s.live) && FlagsOk(s) && Attachable(s.tree, p, k)
    ensures Linked(AddRegion(s, p, k).lists, s.live)
    ensures var s' := AddRegion(s, p, k); Aligned(s') ==> FlagsOk(s')
  {
    var lists := s.lists[k := []];
    forall j | j in lists ensures LinkedIn(lists, s.live, j) {
      if j != k { assert LinkedIn(s.lists, s.live, j); }
    }
    forall i, j | i in lists && j in lists && i != j ensures Apart(lists, i, j) {
      if i != k && j != k { assert Apart(s.lists, i, j); }
    }
  }

  // ----- Denials

  lemma DenyHookKeeps(s: State, k: Key, hook: string)
    requires Inv(s) && k in s.tree && NoWrap(s, k)
    ensures Inv(DenyHook(s, k, hook))
    ensures Exact(s) ==> Exact(DenyHook(s, k, hook))
  {
    var s' := DenyHook(s, k, hook);
    assert Aligned(s');
    forall j | j in s'.tree ensures CacheOkAt(s', j) && (Exact(s) ==> ExactAt(s', j)) {
      DenyHookAt(s, k, hook, j);
    }
    UnderRoot(s.tree, k);
  }

  lemma DenyHookAt(s: State, k: Key, hook: string, j: Key)
    requires Aligned(s) && k in s.tree && NoWrap(s, k) && j in s.tree && CacheOkAt(s, j)
    ensures var s' := DenyHook(s, k, hook);
            Aligned(s') && CacheOkAt(s', j) && (ExactAt(s, j) ==> ExactAt(s', j))
  {
    var s' := DenyHook(s, k, hook);
    DeniedPathsFrame(s.tree, s.deny, s'.tree, s'.deny, j);
    if IsUnder(s.tree, k, j) {
      TouchedIsStale(s.cache[j], s'.cache[j], Mods(s, j), Mods(s', j), |s.hooks|);
    }
  }

  lemma DenyModKeeps(s: State, k: Key, path: string)
    requires Inv(s) && k in s.tree && NoWrap(s, k)
    ensures Inv(DenyMod(s, k, path))
  {
    var s' := DenyMod(s, k, path);
    assert Aligned(s');
    forall j | j in s'.tree ensures CacheOkAt(s', j) {
      DenyModAt(s, k, path, j);
    }
  }

  /** A module denial at k reaches the regions below k, whose generations it does not step. */
  lemma DenyModAt(s: State, k: Key, path: string, j: Key)
    requires Aligned(s) && k in s.tree && NoWrap(s, k) && j in s.tree && CacheOkAt(s, j)
    ensures var s' := DenyMod(s, k, path);
      && Aligned(s') && CacheOkAt(s', j) && Mods(s', j) == Mods(s, j)
      && Denied(s', j) == (if IsUnder(s.tree, j, k) then Denied(s, j) + {path} else Denied(s, j))
      && (if IsUnder(s.tree, k, j) then forall h :: !IsFresh(s'.cache[j], h) else s'.cache[j] == s.cache[j])
  {
    var s' := DenyMod(s, k, path);
    assert Aligned(s');
    if IsUnder(s.tree, k, j) {
      TouchedIsStale(s.cache[j], s'.cache[j], Mods(s, j), Mods(s', j), |s.hooks|);
    }
    DenyModDenied(s, k, path, j);
  }

  lemma DenyModDenied(s: State, k: Key, path: string, j: Key)
    requires Aligned(s) && k in s.tree && j in s.tree
    ensures var s' := DenyMod(s, k, path);
            Aligned(s') && Denied(s', j) == (if IsUnder(s.tree, j, k) then Denied(s, j) + {path} else Denied(s, j))
  {
    var d := DeniedPaths(s.tree, s.deny, j);
    DenyOne(s.tree, s.deny, DenyMod(s, k, path).deny, k, path, j);
    assert d + {} == d;
  }

  /** One more denied path at k shows in the denied paths of exactly the regions from k downwards. */
  lemma {:induction false} DenyOne(t: Tree, deny: map<Key, Denies>, deny': map<Key, Denies>, k: Key, path: string,
                                   j: Key)
    requires Shape(t) && deny.Keys == t.Keys && deny'.Keys == t.Keys && k in t && j in t
    requires deny'[k].mods == deny[k].mods + {path} && forall a :: a in t && a != k ==> deny'[a] == deny[a]
    ensures DeniedPaths(t, deny', j) == DeniedPaths(t, deny, j) + (if IsUnder(t, j, k) then {path} else {})
    decreases j.plen
  {
    assert ParentOk(t, j);
    if t[j].parent.Some? {
      DenyOne(t, deny, deny', k, path, t[j].parent.value);
    }
  }

  ghost predicate StrictlyBelow(t: Tree, j: Key, k: Key) {
    j in t && j != k && IsUnder(t, j, k)
  }

  /** No region strictly below k has a fresh vector with a listener from that path. */
  ghost predicate DenyIsSeen(s: State, k: Key, path: string)
    requires Aligned(s)
  {
    forall j, h :: StrictlyBelow(s.tree, j, k) && IsFresh(s.cache[j], h) ==>
      forall m :: m in s.cache[j].vec[h].slots ==> m.path != path
  }

  /** A module denial keeps the caches exact if and only if no vector below still lists a module of that path. */
  lemma DenyModExactIff(s: State, k: Key, path: string)
    requires Inv(s) && Exact(s) && k in s.tree && NoWrap(s, k)
    ensures Aligned(DenyMod(s, k, path))
    ensures Exact(DenyMod(s, k, path)) <==> DenyIsSeen(s, k, path)
  {
    var s' := DenyMod(s, k, path);
    DenyModAt(s, k, path, k);
    forall j | j in s.tree
      ensures ExactAt(s', j) <==> (StrictlyBelow(s.tree, j, k) ==> VectorsAvoid(s, j, path))
    {
      DenyModExactAt(s, k, path, j);
    }
    if Exact(s') {
      forall j, h | StrictlyBelow(s.tree, j, k) && IsFresh(s.cache[j], h)
        ensures forall m :: m in s.cache[j].vec[h].slots ==> m.path != path
      {
        assert ExactAt(s', j);
        assert VectorsAvoid(s, j, path);
      }
    }
    if DenyIsSeen(s, k, path) {
      forall j | j in s'.tree ensures ExactAt(s', j) {
      }
    }
  }

  ghost predicate VectorsAvoid(s: State, j: Key, path: string)
    requires Aligned(s) && j in s.tree
  {
    forall h :: IsFresh(s.cache[j], h) ==> forall m :: m in s.cache[j].vec[h].slots ==> m.path != path
  }

  lemma DenyModExactAt(s: State, k: Key, path: string, j: Key)
    requires Aligned(s) && k in s.tree && NoWrap(s, k) && j in s.tree && CacheOkAt(s, j) && ExactAt(s, j)
    ensures Aligned(DenyMod(s, k, path))
    ensures ExactAt(DenyMod(s, k, path), j) <==> (StrictlyBelow(s.tree, j, k) ==> VectorsAvoid(s, j, path))
  {
    var s' := DenyMod(s, k, path);
    DenyModAt(s, k, path, j);
    if StrictlyBelow(s.tree, j, k) {
      if IsUnder(s.tree, k, j) { UnderWider(s.tree, k, j); UnderWider(s.tree, j, k); }
      assert s'.cache[j] == s.cache[j];
      forall h | IsFresh(s.cache[j], h)
        ensures s.cache[j].vec[h].slots == Keep(Mods(s, j), Denied(s', j), s.hooks[h]) <==>
                forall m :: m in s.cache[j].vec[h].slots ==> m.path != path
      {
        KeepDenyOne(Mods(s, j), Denied(s, j), path, s.hooks[h]);
      }
    }
  }

  // ----- Unloading lifts the region's own denial of the module's path

  ghost function Lifted(s: State, k: Key, path: string): State
    requires k in s.deny
  {
    s.(deny := s.deny[k := s.deny[k].(mods := s.deny[k].mods - {path})])
  }

  lemma LiftedDenied(s: State, k: Key, path: string, j: Key)
    requires Aligned(s) && k in s.tree && j in s.tree
    ensures Aligned(Lifted(s, k, path))
    ensures Denied(s, j) == Denied(Lifted(s, k, path), j) +
                            (if IsUnder(s.tree, j, k) && path in s.deny[k].mods then {path} else {})
  {
    var s1 := Lifted(s, k, path);
    if path in s.deny[k].mods {
      assert s.deny[k].mods == s1.deny[k].mods + {path};
      DenyOne(s.tree, s1.deny, s.deny, k, path, j);
    } else {
      assert s.deny[k].mods - {path} == s.deny[k].mods;
      assert s1.deny == s.deny;
    }
  }

  lemma DropKeeps(s: State, k: Key, path: string, ms: seq<Module>)
    requires Inv(s) && k in s.tree && NoWrap(s, k) && Linked(s.lists[k := ms], s.live)
    ensures Inv(Drop(s, k, path, ms))
  {
    LiftedInv(s, k, path);
    RelistKeeps(Lifted(s, k, path), k, ms);
  }

  lemma LiftedInv(s: State, k: Key, path: string)
    requires Inv(s) && k in s.tree
    ensures Inv(Lifted(s, k, path))
  {
    var s1 := Lifted(s, k, path);
    assert Aligned(s1);
    forall j | j in s1.tree ensures CacheOkAt(s1, j) {
      assert CacheOkAt(s, j);
    }
  }

  /** No fresh vector strictly below k hides a listener of that path which only k's denial was hiding. */
  ghost predicate LiftIsSeen(s: State, k: Key, path: string)
    requires Aligned(s) && k in s.tree
  {
    path in s.deny[k].mods ==>
      forall j, h :: StrictlyBelow(s.tree, j, k) && IsFresh(s.cache[j], h) && h < |s.hooks| ==>
        Aligned(Lifted(s, k, path)) &&
        forall m :: m in Keep(Mods(s, j), Denied(Lifted(s, k, path), j), s.hooks[h]) ==> m.path != path
  }

  lemma DropExactAt(s: State, k: Key, path: string, ms: seq<Module>, j: Key)
    requires Aligned(s) && k in s.tree && NoWrap(s, k) && j in s.tree && CacheOkAt(s, j) && ExactAt(s, j)
    ensures Aligned(Lifted(s, k, path)) && Aligned(Drop(s, k, path, ms))
    ensures ExactAt(Drop(s, k, path, ms), j) <==>
            (path in s.deny[k].mods && StrictlyBelow(s.tree, j, k) ==> VectorsShow(s, Lifted(s, k, path), j, path))
  {
    var s1 := Lifted(s, k, path);
    LiftedDenied(s, k, path, j);
    assert CacheOkAt(s1, j);
    assert Relist(s1, k, ms) == Drop(s, k, path, ms);
    DropShape(s1, k, ms, j);
    if StrictlyBelow(s.tree, j, k) {
      if IsUnder(s.tree, k, j) { UnderWider(s.tree, k, j); UnderWider(s.tree, j, k); }
      if path in s.deny[k].mods {
        forall h | IsFresh(s.cache[j], h)
          ensures s.cache[j].vec[h].slots == Keep(Mods(s, j), Denied(s1, j), s.hooks[h]) <==>
                  forall m :: m in Keep(Mods(s, j), Denied(s1, j), s.hooks[h]) ==> m.path != path
        {
          KeepDenyOne(Mods(s, j), Denied(s1, j), path, s.hooks[h]);
        }
      } else {
        assert Denied(s, j) == Denied(s1, j);
      }
    } else if !IsUnder(s.tree, j, k) {
      assert Denied(s, j) == Denied(s1, j);
    }
  }

  ghost predicate VectorsShow(s: State, s1: State, j: Key, path: string)
    requires Aligned(s) && Aligned(s1) && j in s.tree && j in s1.tree
  {
    forall h :: IsFresh(s.cache[j], h) && h < |s.hooks| ==>
      forall m :: m in Keep(Mods(s, j), Denied(s1, j), s.hooks[h]) ==> m.path != path
  }

  lemma DropShape(s: State, k: Key, ms: seq<Module>, j: Key)
    requires Aligned(s) && k in s.tree && NoWrap(s, k) && j in s.tree && CacheOkAt(s, j)
    ensures var s' := Relist(s, k, ms);
      && Aligned(s') && Denied(s', j) == Denied(s, j)
      && (if IsUnder(s.tree, k, j) then forall h :: !IsFresh(s'.cache[j], h)
          else s'.cache[j] == s.cache[j] && Mods(s', j) == Mods(s, j))
  {
    var s' := Relist(s, k, ms);
    if IsUnder(s.tree, k, j) {
      TouchedIsStale(s.cache[j], s'.cache[j], Mods(s, j), Mods(s', j), |s.hooks|);
    } else {
      RelistMods(s, k, ms, j);
    }
  }

  /** Unloading keeps the caches exact if and only if lifting the denial reveals no listener to a vector below. */
  lemma DropExactIff(s: State, k: Key, path: string, ms: seq<Module>)
    requires Inv(s) && Exact(s) && k in s.tree && NoWrap(s, k)
    ensures Aligned(Drop(s, k, path, ms))
    ensures Exact(Drop(s, k, path, ms)) <==> LiftIsSeen(s, k, path)
  {
    var s', s1 := Drop(s, k, path, ms), Lifted(s, k, path);
    DropExactAt(s, k, path, ms, k);
    forall j | j in s.tree
      ensures ExactAt(s', j) <==>
              (path in s.deny[k].mods && StrictlyBelow(s.tree, j, k) ==> VectorsShow(s, s1, j, path))
    {
      DropExactAt(s, k, path, ms, j);
    }
    if Exact(s') && path in s.deny[k].mods {
      forall j, h | StrictlyBelow(s.tree, j, k) && IsFresh(s.cache[j], h) && h < |s.hooks|
        ensures forall m :: m in Keep(Mods(s, j), Denied(s1, j), s.hooks[h]) ==> m.path != path
      {
        assert ExactAt(s', j);
        assert VectorsShow(s, s1, j, path);
      }
    }
    if LiftIsSeen(s, k, path) {
      forall j | j in s'.tree ensures ExactAt(s', j) {
      }
    }
  }

  // ----- Dispatching

  lemma DispatchedCache(s: State, k: Key, h: nat)
    requires Aligned(s) && k in s.tree && CacheOkAt(s, k) && h < |s.hooks|
    ensures var c := Freshened(s, k, h);
      && CacheOk(c, Mods(s, k), |s.hooks|) && IsFresh(c, h)
      && (ExactAt(s, k) ==> CacheExact(c, Mods(s, k), Denied(s, k), s.hooks) && c.vec[h].slots == Naive(s, k, h))
  {
    var c := Collected(s, k);
    var vec := Grown(c.vec, h);
    assert c.subtree == Mods(s, k) && c.vec == s.cache[k].vec && c.gen == s.cache[k].gen;
    var d := Freshened(s, k, h);
    forall i | IsFresh(d, i) && i != h ensures IsFresh(s.cache[k], i) && d.vec[i] == s.cache[k].vec[i] {
      if i < |c.vec| { assert vec[..|c.vec|][i] == c.vec[i]; }
    }
    if vec[h].stamp == c.gen {
      assert h < |c.vec| && vec[..|c.vec|][h] == c.vec[h];
    }
    forall m | m in Keep(c.subtree, Denied(s, k), s.hooks[h]) ensures m in Mods(s, k) {
      KeepMember(c.subtree, Denied(s, k), s.hooks[h], m);
    }
    forall i | 0 <= i < |d.vec| ensures d.vec[i].stamp <= d.gen {
      if i != h && i < |c.vec| { assert vec[..|c.vec|][i] == c.vec[i]; }
    }
  }

  lemma DispatchedKeeps(s: State, k: Key, h: nat)
    requires Inv(s) && k in s.tree && h < |s.hooks|
    ensures var (s', runs) := Dispatched(s, k, h);
      && Inv(s') && (Exact(s) ==> Exact(s') && runs == Naive(s, k, h))
      && (forall m :: m in runs ==> m in Mods(s, k))
  {
    var s' := Dispatched(s, k, h).0;
    assert CacheOkAt(s, k);
    DispatchedCache(s, k, h);
    assert Aligned(s');
    forall j | j in s'.tree ensures CacheOkAt(s', j) && (Exact(s) ==> ExactAt(s', j)) {
      if j != k { assert CacheOkAt(s, j); }
      if Exact(s) { assert ExactAt(s, j); }
    }
    assert IsFresh(Freshened(s, k, h), h);
  }
}
