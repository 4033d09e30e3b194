/** The runtime: its tables, keyed by region identity, and the loops of the source over them. */
module Host {
  import opened Word
  import opened Prefix
  import opened Tree
  import opened Claims
  import opened Slots
  import opened ModuleEntry
  import opened Dispatch
  import opened Coherence
  import opened Runs
  import opened Scopes
  import opened HostLemmas
  import opened Lifecycle
  import opened Tables

  /** Every live module's memo agrees with the resolver. Folded, see `Look`. */
  ghost predicate AllOk(live: set<Module>, hooks: seq<string>)
    reads live
  {
    forall n {:trigger Look(n)} :: Look(n) ==> forall m :: m in live ==> MemoOk(m.Entries(), m.Names(), hooks)
  }

  /** No live module is left with an unresolved minted hook. Folded, see `Look`. */
  ghost predicate AllComplete(live: set<Module>, hooks: seq<string>)
    reads live
  {
    forall n {:trigger Look(n)} :: Look(n) ==> forall m :: m in live ==> MemoComplete(m.Entries(), hooks)
  }

  lemma MemosAre(live: set<Module>, hooks: seq<string>)
    ensures AllOk(live, hooks) <==> forall m :: m in live ==> MemoOk(m.Entries(), m.Names(), hooks)
    ensures AllComplete(live, hooks) <==> forall m :: m in live ==> MemoComplete(m.Entries(), hooks)
  {
    assert Look(0);
  }

  predicate IsEntry(m: Module, path: string, hasCtx: bool, image: nat, exports: set<string>, loader: Module?) {
    m.path == path && m.hasCtx == hasCtx && m.image == image && m.exports == exports && m.loader == loader
  }

  /** One more than an `unsigned` holds. */
  const HALF: nat := 0x1_0000_0000

  /** The step a grant takes: a new region of the granted width, at the slot found, hangs under the parent. */
  ghost predicate Granted(s: State, s': State, parent: Key, bits: nat, k: Key) {
    && Hangable(s.tree, parent, k) && k == Key(Alloc(s.tree.Keys, parent, bits), parent.plen + bits)
    && s' == AddRegion(s, parent, k)
    && (StaysInside(s.tree.Keys, parent, bits) ==> s' == Step(s, Grant(parent, bits)) && Contains(parent, k))
  }

  lemma GrantedBy(s: State, parent: Key, bits: nat, k: Key)
    requires Inv(s) && parent in s.tree && bits > 0
    requires k == Key(Alloc(s.tree.Keys, parent, bits), parent.plen + bits) && k.id != INVALID_ID
    ensures Granted(s, AddRegion(s, parent, k), parent, bits, k)
    ensures StaysInside(s.tree.Keys, parent, bits) ==> Attachable(s.tree, parent, k)
  {
    GrantHangs(s.tree.Keys, parent, bits);
    if StaysInside(s.tree.Keys, parent, bits) { GrantIs(s, parent, bits); }
  }

  /** A slot that is found is free and narrower than the parent, wherever it lies. */
  lemma GrantHangs(keys: set<Key>, parent: Key, bits: nat)
    requires Alloc(keys, parent, bits) != INVALID_ID && bits > 0
    ensures Key(Alloc(keys, parent, bits), parent.plen + bits) !in keys && parent.plen < parent.plen + bits <= 64
  {
  }

  /**
   * Only regions have claim handlers and gates; the names that have an adapter are those that have a number. Folded,
   * see `Look`.
   */
  ghost predicate AllTidy(t: Tree, handlers: map<Key, nat>, required: set<Key>, hooks: seq<string>,
                          adapters: map<string, Word>)
  {
    forall n {:trigger Look(n)} :: Look(n) ==>
      && (forall k :: k in handlers || k in required ==> k in t)
      && (forall h :: h in hooks <==> h in adapters)
  }

  lemma TidyIs(t: Tree, handlers: map<Key, nat>, required: set<Key>, hooks: seq<string>, adapters: map<string, Word>)
    ensures AllTidy(t, handlers, required, hooks, adapters) <==>
            && (forall k :: k in handlers || k in required ==> k in t)
            && (forall h :: h in hooks <==> h in adapters)
  {
    assert Look(0);
  }

  lemma TidyGrows(t: Tree, t': Tree, handlers: map<Key, nat>, required: set<Key>, hooks: seq<string>,
                  adapters: map<string, Word>)
    requires AllTidy(t, handlers, required, hooks, adapters) && forall k :: k in t ==> k in t'
    ensures AllTidy(t', handlers, required, hooks, adapters)
  {
    TidyIs(t, handlers, required, hooks, adapters);
    TidyIs(t', handlers, required, hooks, adapters);
  }

  /** What a call comes to: its number is looked up, an oversized return is refused, then the dispatch is made. */
  ghost predicate Called(s: State, s': State, k: Key, hook: string, retSize: nat, selfOnly: bool, status: Status,
                         runs: seq<Module>)
  {
    Aligned(s) && k in s.tree &&
    var h := NumberOf(s.hooks, hook);
    if h.None? then status == NotFound && runs == [] && s' == s
    else if retSize > MAX_RET then status == TooBig && runs == [] && s' == s
    else if HookRefused(s, k, hook) then status == Refused && runs == [] && s' == s
    else && status == (if runs == [] then NotFound else Ok)
         && (s', runs) == (if selfOnly then (s, SelfRuns(s, k, h.value)) else Dispatched(s, k, h.value))
  }

  lemma Joins(s: State, m: Module)
    requires Inv(s)
    ensures Step(s, Publish(m)) == s.(live := s.live + {m}) && Inv(s.(live := s.live + {m}))
  {
    LiveKeeps(s, s.live + {m});
  }

  class Runtime {
    /** The region entries, one table for each group of fields; a reference to an entry is its identity. */
    var tree: Tree
    var lists: Lists
    var deny: map<Key, Denies>
    var flag: map<Key, bool>
    var cache: map<Key, Cache>
    /** The loaded modules, and the hook names in the order their numbers were handed out. */
    var live: set<Module>
    var hooks: seq<string>
    /** Reference count and home region of each loaded module. */
    var table: Table
    /** The current region, and the age the next module entry gets. */
    var current: Key
    var nextSerial: nat
    /** The claim handlers of the regions, and the regions that refuse modules without a claim. */
    var handlers: map<Key, nat>
    var required: set<Key>
    /** Where the adapter of each hook name lies. */
    var adapters: map<string, Word>

    ghost function View(): State
      reads this
    {
      State(tree, lists, deny, flag, cache, live, hooks)
    }

    ghost predicate Valid()
      reads this
    {
      Inv(View()) && current in tree
    }

    ghost predicate Tidy()
      reads this
    {
      AllTidy(tree, handlers, required, hooks, adapters)
    }

    ghost predicate MemosOk()
      reads this, live
    {
      AllOk(live, hooks)
    }

    /** What every operation keeps of the memos: they agree with the resolver, and no minted hook is left unresolved. */
    ghost predicate Warm()
      reads this, live
    {
      AllOk(live, hooks) && AllComplete(live, hooks)
    }

    /** The module table holds the live modules and fits regions and lists. */
    ghost predicate Loaded()
      reads this
    {
      Seated(tree, lists, table, live, nextSerial)
    }

    /** `region_ensure_root`: a fresh runtime holds the root region and nothing else. */
    constructor ()
      ensures Valid() && Warm() && Loaded() && Tidy() && View() == START && current == ROOT && table == map[]
    {
      tree, lists, deny := SEED, map[ROOT := []], map[ROOT := NO_DENIES];
      flag, cache, live, hooks := map[ROOT := false], map[ROOT := NEW_CACHE], {}, [];
      table, current, nextSerial, handlers, required, adapters := map[], ROOT, 0, map[], {}, map[];
      new;
      StartInv();
      TidyIs(tree, handlers, required, hooks, adapters);
    }

    // ----- Walks to the root

    /** `region_dispatch_gen_bump` with, for list changes, `region_mark_subtree_dirty`. */
    method TouchUp(start: Key, mark: bool)
      requires Shape(tree) && cache.Keys == tree.Keys && start in tree
      modifies this`cache
      ensures cache == Touch(tree, old(cache), start, mark)
    {
      SteppedNone(tree, cache, start, mark);
      var e: Option<Key> := Some(start);
      while e.Some?
        invariant cache == Stepped(tree, old(cache), start, mark, e)
        invariant e.Some? ==> e.value in tree && IsUnder(tree, start, e.value)
        decreases if e.Some? then e.value.plen + 1 else 0
      {
        var k := e.value;
        SteppedOnce(tree, old(cache), start, mark, k);
        cache := cache[k := cache[k].(gen := NextGen(cache[k].gen))];
        if mark { cache := cache[k := cache[k].(dirty := true)]; }
        e := tree[k].parent;
      }
    }

    /** `region_propagate_deny`. */
    method RaiseUp(start: Key)
      requires Shape(tree) && flag.Keys == tree.Keys && start in tree
      modifies this`flag
      ensures flag == RaiseFlags(tree, old(flag), start)
    {
      RaisedNone(tree, flag, start);
      var e: Option<Key> := Some(start);
      while e.Some?
        invariant flag == Raised(tree, old(flag), start, e)
        invariant e.Some? ==> e.value in tree && IsUnder(tree, start, e.value)
        decreases if e.Some? then e.value.plen + 1 else 0
      {
        RaisedOnce(tree, old(flag), start, e.value);
        flag := flag[e.value := true];
        e := tree[e.value].parent;
      }
    }

    /** `region_ancestor_chain`: fill the buffer walking up, then reverse it in place. */
    method AncestorChain(start: Key, chain: array<Key>) returns (n: nat)
      requires Shape(tree) && start in tree && chain.Length == 65
      modifies chain
      ensures n <= 65 && chain[..n] == Chain(tree, start)
    {
      n := WalkUp(start, chain);
      ghost var walk := chain[..n];
      ReverseFirst(chain, n);
      WalkIsChain(tree, start);
      assert forall i :: 0 <= i < n ==> chain[..n][i] == walk[n - 1 - i];
    }

    /** The buffer holds the walk from the region up to the root; 65 cells are enough. */
    method WalkUp(start: Key, chain: array<Key>) returns (n: nat)
      requires Shape(tree) && start in tree && chain.Length == 65
      modifies chain
      ensures n <= 65 && chain[..n] == Walk(tree, Some(start))
    {
      n := 0;
      ChainNarrows(tree, start);
      WalkIsChain(tree, start);
      var e: Option<Key> := Some(start);
      while e.Some? && n < chain.Length
        invariant n <= chain.Length && (e.Some? ==> e.value in tree)
        invariant chain[..n] + Walk(tree, e) == Walk(tree, Some(start))
        decreases if e.Some? then e.value.plen + 1 else 0
      {
        WalkSteps(tree, e.value, chain[..n]);
        chain[n] := e.value;
        n := n + 1;
        e := tree[e.value].parent;
      }
    }

    /** Reverse the first n cells in place. */
    static method ReverseFirst(a: array<Key>, n: nat)
      requires n <= a.Length
      modifies a
      ensures forall i :: 0 <= i < n ==> a[i] == old(a[n - 1 - i])
    {
      var lo, hi := 0, n;
      while lo + 1 < hi
        invariant 0 <= lo <= hi <= n && lo + hi == n
        invariant forall i :: 0 <= i < lo || hi <= i < n ==> a[i] == old(a[n - 1 - i])
        invariant forall i :: lo <= i < hi ==> a[i] == old(a[i])
      {
        hi := hi - 1;
        a[lo], a[hi] := a[hi], a[lo];
        lo := lo + 1;
      }
    }

    // ----- The prefix searches

    /** `region_find_ancestor_rec`: the widest region narrower than plen that agrees with id, or best. */
    method FindAncestor(node: Key, id: nat, plen: nat, best: Option<Key>) returns (r: Option<Key>)
      requires Shape(tree) && node in tree
      ensures r == Search(tree, node, Agreeing(tree, id), plen, best)
      decreases 64 - node.plen
    {
      ghost var hits := Agreeing(tree, id);
      SearchStarts(tree, node, hits, plen, best);
      r := best;
      if node.plen >= plen { return; }
      if And(id, RegionMask(node.plen)) == node.id && (best.None? || node.plen > best.value.plen) {
        r := Some(node);
      }
      ghost var found := r;
      for i := 0 to |tree[node].children|
        invariant SearchFrom(tree, node, i, hits, plen, r) == SearchFrom(tree, node, 0, hits, plen, found)
      {
        SearchSteps(tree, node, i, hits, plen, r);
        r := FindAncestor(tree[node].children[i], id, plen, r);
      }
    }

    /** `region_find_cover_rec`: the widest region at most plen wide that agrees with id, or best. */
    method FindCover(node: Key, id: nat, plen: nat, best: Option<Key>) returns (r: Option<Key>)
      requires Shape(tree) && node in tree
      ensures r == Search(tree, node, Agreeing(tree, id), plen + 1, best)
      decreases 64 - node.plen
    {
      ghost var hits := Agreeing(tree, id);
      SearchStarts(tree, node, hits, plen + 1, best);
      r := best;
      if node.plen > plen { return; }
      if And(id, RegionMask(node.plen)) == node.id && (best.None? || node.plen > best.value.plen) {
        r := Some(node);
      }
      ghost var found := r;
      for i := 0 to |tree[node].children|
        invariant SearchFrom(tree, node, i, hits, plen + 1, r) == SearchFrom(tree, node, 0, hits, plen + 1, found)
      {
        SearchSteps(tree, node, i, hits, plen + 1, r);
        r := FindCover(tree[node].children[i], id, plen, r);
      }
    }

    /** `xy_region_at`: the id and width of the longest prefix, or the failure id with width 0. */
    method LookupAt(id: nat, plen: nat) returns (status: Status, found: nat, width: nat)
      requires Valid() && IsWord(id)
      ensures plen > 64 ==> (status, found, width) == (TooBig, INVALID_ID, 0)
      ensures plen <= 64 ==> status == Ok && IsLongest(tree.Keys, id, plen + 1, Key(found, width))
    {
      if plen > 64 { return TooBig, INVALID_ID, 0; }
      SearchIsLongest(tree, id, plen + 1);
      var hit := FindCover(ROOT, id, plen, None);
      return Ok, hit.value.id, hit.value.plen;
    }

    // ----- Creating regions

    /** Hang a new region under p, as both ways of claiming do, and make it current. */
    method Hang(p: Key, k: Key)
      requires Aligned(View()) && Hangable(tree, p, k)
      modifies this`tree, this`lists, this`deny, this`flag, this`cache, this`current
      ensures View() == AddRegion(old(View()), p, k) && current == k && (old(Tidy()) ==> Tidy())
    {
      TouchAttached(tree, cache, p, k);
      AttachKeepsShape(tree, p, k);
      lists, deny, flag, cache := lists[k := []], deny[k := NO_DENIES], flag[k := false], cache[k := NEW_CACHE];
      Link(p, k);
      TouchUp(p, true);
      current := k;
    }

    /** The new entry names its parent and goes in front of the parent's other children. */
    method Link(p: Key, k: Key)
      requires Hangable(tree, p, k)
      modifies this`tree
      ensures tree == Attach(old(tree), p, k) && (old(Tidy()) ==> Tidy())
    {
      if Tidy() { TidyGrows(tree, Attach(tree, p, k), handlers, required, hooks, adapters); }
      tree := tree[k := Links(Some(p), [])];
      tree := tree[p := tree[p].(children := [k] + tree[p].children)];
    }

    method Adopt(p: Key, k: Key)
      requires Valid() && Attachable(tree, p, k) && NoWrap(View(), p)
      modifies this`tree, this`lists, this`deny, this`flag, this`cache, this`current
      ensures Valid() && View() == AddRegion(old(View()), p, k) && current == k
      ensures (old(Loaded()) ==> Loaded()) && (old(Tidy()) ==> Tidy())
    {
      AddRegionKeeps(View(), p, k);
      SeatedRegion(tree, Attach(tree, p, k), lists, k, table, live, nextSerial);
      Hang(p, k);
    }

    /** A new region under the nearest ancestor. */
    method ClaimNew(k: Key)
      requires Valid() && Steady(View()) && Canonical(k) && k !in tree
      modifies this`tree, this`lists, this`deny, this`flag, this`cache, this`current
      ensures Valid() && (old(Loaded()) ==> Loaded()) && (old(Tidy()) ==> Tidy())
      ensures View() == Step(old(View()), Claim(k)) && current == k
    {
      NearestAncestorFound(tree, k);
      var parent := FindAncestor(ROOT, k.id, k.plen, None);
      Adopt(parent.value, k);
    }

    /** `xy_claim_at`: on success the requested region exists and is current, with the handler if one was given. */
    method ClaimAt(id: nat, plen: nat, fn: Option<nat>) returns (status: Status)
      requires Valid() && IsWord(id) && Steady(View())
      modifies this`tree, this`lists, this`deny, this`flag, this`cache, this`current, this`handlers
      ensures Valid() && (old(Loaded()) ==> Loaded()) && (old(Tidy()) ==> Tidy())
      ensures status == ClaimShape(id, plen) && View() == Step(old(View()), Claim(Key(id, plen)))
      ensures current == if status == Ok then Key(id, plen) else old(current)
      ensures handlers == if status == Ok then Handled(old(handlers), Key(id, plen), fn) else old(handlers)
    {
      if plen > 64 { return TooBig; }
      if And(id, RegionMask(plen)) != id { return Invalid; }
      ClaimFit(Key(id, plen), fn);
      return Ok;
    }

    method ClaimFit(k: Key, fn: Option<nat>)
      requires Valid() && Steady(View()) && Canonical(k)
      modifies this`tree, this`lists, this`deny, this`flag, this`cache, this`current, this`handlers
      ensures Valid() && (old(Loaded()) ==> Loaded()) && (old(Tidy()) ==> Tidy())
      ensures View() == Step(old(View()), Claim(k)) && current == k && handlers == Handled(old(handlers), k, fn)
    {
      Enter(k);
      SetHandler(fn);
    }

    /** A region of that shape is made current, and new if there is none. */
    method Enter(k: Key)
      requires Valid() && Steady(View()) && Canonical(k)
      modifies this`tree, this`lists, this`deny, this`flag, this`cache, this`current
      ensures Valid() && (old(Loaded()) ==> Loaded()) && (old(Tidy()) ==> Tidy())
      ensures View() == Step(old(View()), Claim(k)) && current == k
    {
      if k in tree { current := k; } else { ClaimNew(k); }
    }

    /** The current region gets the handler given, if any. */
    method SetHandler(fn: Option<nat>)
      requires current in tree
      modifies this`handlers
      ensures (old(Valid()) ==> Valid()) && (old(Loaded()) ==> Loaded()) && View() == old(View())
      ensures (old(Tidy()) ==> Tidy()) && handlers == Handled(old(handlers), current, fn)
    {
      TidyIs(tree, handlers, required, hooks, adapters);
      if fn.Some? { handlers := handlers[current := fn.value]; }
      TidyIs(tree, handlers, required, hooks, adapters);
    }

    /** `xy_require_claim`, on the current region: a handler closes the gate, none opens it. */
    method RequireClaim(fn: Option<nat>)
      requires current in tree
      modifies this`handlers, this`required
      ensures old(Tidy()) ==> Tidy()
      ensures handlers == if fn.Some? then old(handlers)[current := fn.value] else old(handlers) - {current}
      ensures required == if fn.Some? then old(required) + {current} else old(required) - {current}
    {
      TidyIs(tree, handlers, required, hooks, adapters);
      if fn.None? {
        handlers, required := handlers - {current}, required - {current};
      } else {
        handlers, required := handlers[current := fn.value], required + {current};
      }
      TidyIs(tree, handlers, required, hooks, adapters);
    }

    /** `region_alloc_slot`: probe the slots in order; the counter is a 64-bit word and so is the bound. */
    method AllocSlot(parent: Key, bits: nat) returns (id: nat)
      requires parent in tree && parent.plen <= 64 && 0 < bits <= 64
      ensures id == Alloc(tree.Keys, parent, bits)
    {
      var cplen := parent.plen + bits;
      if cplen > 64 { return INVALID_ID; }
      ghost var n := Probes(bits, cplen);
      var numSlots := if cplen == 64 then 0 else Pow2(bits);
      var shift := if cplen < 64 then 64 - cplen else 0;
      ProbesBound(bits, cplen);
      var s := 0;
      while true
        invariant s < n && FirstFree(tree.Keys, parent, cplen, 0, n) == FirstFree(tree.Keys, parent, cplen, s, n)
        decreases n - s
      {
        var candidate := Or(parent.id, ShiftLeft(s, shift));
        if Key(candidate, cplen) !in tree { return candidate; }
        if s + 1 == WORD_SIZE { DivModUnique(s + 1, WORD_SIZE, 1, 0); } else { SmallMod(s + 1, WORD_SIZE); }
        if (s + 1) % WORD_SIZE == numSlots { return INVALID_ID; }
        s := (s + 1) % WORD_SIZE;
      }
    }

    /** `_xy_claim_for_load`, given what the parent's claim handler answers, if there is one. */
    method ClaimForLoad(parent: Key, bits: nat, answer: ClaimAnswer) returns (status: Status)
      requires Valid() && Steady(View())
      modifies this`tree, this`lists, this`deny, this`flag, this`cache, this`current
      ensures status == ClaimStatus(old(tree), parent, bits, if parent in handlers then answer else NoHandler)
      ensures status != Ok ==> View() == old(View()) && current == old(current)
      ensures status == Ok ==> Granted(old(View()), View(), parent, answer.granted, current)
      ensures old(Tidy()) ==> Tidy()
      ensures (status == Ok ==> StaysInside(old(tree).Keys, parent, answer.granted)) ==>
                Valid() && (old(Loaded()) ==> Loaded())
    {
      if bits == 0 || bits > 64 { return Invalid; }
      if parent !in tree { return NotFound; }
      if parent !in handlers { return Refused; }
      if !answer.Grants? { return Refused; }
      var granted := answer.granted;
      if granted == 0 || granted > 64 { return Refused; }
      var id := AllocSlot(parent, granted);
      if id == INVALID_ID { return TooBig; }
      AdoptSlot(parent, granted, Key(id, parent.plen + granted));
      return Ok;
    }

    /** The free slot the parent's handler granted becomes a region, and current. */
    method AdoptSlot(parent: Key, granted: nat, k: Key)
      requires Valid() && Steady(View()) && parent in tree && 0 < granted <= 64
      requires k == Key(Alloc(tree.Keys, parent, granted), parent.plen + granted) && k.id != INVALID_ID
      modifies this`tree, this`lists, this`deny, this`flag, this`cache, this`current
      ensures current == k && Granted(old(View()), View(), parent, granted, k) && (old(Tidy()) ==> Tidy())
      ensures StaysInside(old(tree).Keys, parent, granted) ==> Valid() && (old(Loaded()) ==> Loaded())
    {
      GrantHangs(tree.Keys, parent, granted);
      GrantedBy(View(), parent, granted, k);
      if StaysInside(tree.Keys, parent, granted) {
        AddRegionKeeps(View(), parent, k);
      }
      SeatedRegion(tree, Attach(tree, parent, k), lists, k, table, live, nextSerial);
      Hang(parent, k);
    }

    // ----- Module lists

    /** `module_region_insert_after`: at the head when there is no predecessor, else right behind it. */
    method InsertAfter(k: Key, m: Module, after: Option<Module>)
      requires Valid() && NoWrap(View(), k) && k in tree && m in live && !IsLinked(lists, m)
      requires after.Some? ==> after.value in lists[k]
      modifies this`lists, this`cache
      ensures Valid() && (old(Loaded() && m in table && table[m].home == k) ==> Loaded())
      ensures exists i :: 0 <= i <= |old(lists)[k]| && View() == Step(old(View()), Insert(k, i, m))
                          && (if after.Some? then i > 0 && old(lists)[k][i - 1] == after.value else i == 0)
    {
      var i := 0;
      if after.Some? {
        var j :| 0 <= j < |lists[k]| && lists[k][j] == after.value;
        i := j + 1;
      }
      InsertPlace(k, i, m);
    }

    /** Link m as the i-th module of region k. */
    method InsertPlace(k: Key, i: nat, m: Module)
      requires Valid() && NoWrap(View(), k) && k in tree && m in live && !IsLinked(lists, m) && i <= |lists[k]|
      modifies this`lists, this`cache
      ensures Valid() && View() == Step(old(View()), Insert(k, i, m))
      ensures old(Loaded() && m in table && table[m].home == k) ==> Loaded()
    {
      InsertLinked(View(), k, i, m);
      RelistKeeps(View(), k, InsertAt(lists[k], i, m));
      if Loaded() && m in table && table[m].home == k { SeatedInserted(tree, lists, table, live, nextSerial, m, i); }
      Assign(k, InsertAt(lists[k], i, m));
    }

    /** A region's list is replaced and the walk from it is touched. */
    method Assign(k: Key, ms: seq<Module>)
      requires Aligned(View()) && k in tree
      modifies this`lists, this`cache
      ensures View() == Relist(old(View()), k, ms)
    {
      lists := lists[k := ms];
      TouchUp(k, true);
    }

    /** `module_region_detach`. */
    method Detach(k: Key, m: Module)
      requires Valid() && NoWrap(View(), k) && k in tree && m in lists[k]
      modifies this`lists, this`cache
      ensures Valid() && (old(Loaded()) ==> Loaded())
      ensures exists i :: 0 <= i < |old(lists)[k]| && old(lists)[k][i] == m && View() == Step(old(View()), Unlink(k, i))
    {
      var i :| 0 <= i < |lists[k]| && lists[k][i] == m;
      DetachAt(k, i, m);
    }

    method DetachAt(k: Key, i: nat, m: Module)
      requires Valid() && NoWrap(View(), k) && k in tree && i < |lists[k]| && lists[k][i] == m
      modifies this`lists, this`cache
      ensures Valid() && (old(Loaded()) ==> Loaded()) && View() == Step(old(View()), Unlink(k, i))
    {
      Taken(View(), k, i);
      if Loaded() { SeatedUnlinked(tree, lists, table, live, nextSerial, m); }
      Assign(k, RemoveAt(lists[k], i));
    }

    // ----- Denials

    /** Every denial raises the flags and steps the generations on the walk from its region. */
    method Announce(k: Key)
      requires Shape(tree) && flag.Keys == tree.Keys && cache.Keys == tree.Keys && k in tree
      modifies this`flag, this`cache
      ensures flag == RaiseFlags(tree, old(flag), k) && cache == Touch(tree, old(cache), k, false)
    {
      RaiseUp(k);
      TouchUp(k, false);
    }

    /** `xy_deny` of a hook, on the current region. */
    method ForbidHere(hook: string)
      requires Valid() && NoWrap(View(), current)
      modifies this`deny, this`flag, this`cache
      ensures Valid() && View() == Step(old(View()), ForbidHook(current, hook))
    {
      ghost var s := View();
      deny := deny[current := deny[current].(hooks := deny[current].hooks + {hook})];
      Announce(current);
      assert View() == DenyHook(s, current, hook);
      DenyHookKeeps(s, current, hook);
    }

    /** `xy_deny` of a module path, on the current region. */
    method ForbidModuleHere(path: string)
      requires Valid() && NoWrap(View(), current)
      modifies this`deny, this`flag, this`cache
      ensures Valid() && View() == Step(old(View()), ForbidModule(current, path))
    {
      ghost var s := View();
      deny := deny[current := deny[current].(mods := deny[current].mods + {path})];
      Announce(current);
      assert View() == DenyMod(s, current, path);
      DenyModKeeps(s, current, path);
    }

    // ----- Collecting a subtree

    /** `region_subtree_mods_push` for each module of a list. */
    method PushAll(root: Key, ms: seq<Module>)
      requires root in cache
      modifies this`cache
      ensures OnlySubtree(old(cache), cache, root, old(cache)[root].subtree + ms)
    {
      ghost var start := cache[root].subtree;
      assert start + ms[..0] == start;
      for i := 0 to |ms|
        invariant OnlySubtree(old(cache), cache, root, start + ms[..i])
      {
        cache := cache[root := cache[root].(subtree := cache[root].subtree + [ms[i]])];
        assert start + ms[..i] + [ms[i]] == start + ms[..i + 1];
      }
      assert ms[..|ms|] == ms;
    }

    /** `region_collect_subtree_mods`: append the modules of node's subtree to root's vector. */
    method Collect(root: Key, node: Key)
      requires Shape(tree) && lists.Keys == tree.Keys && root in cache && node in tree
      modifies this`cache
      ensures OnlySubtree(old(cache), cache, root, old(cache)[root].subtree + SubtreeMods(tree, lists, node))
      decreases 64 - node.plen
    {
      ghost var before, start := cache, cache[root].subtree;
      ghost var whole := SubtreeMods(tree, lists, node);
      SubtreeStarts(tree, lists, node);
      PushAll(root, lists[node]);
      for i := 0 to |tree[node].children|
        invariant root in cache && OnlySubtree(before, cache, root, cache[root].subtree)
        invariant cache[root].subtree + SubtreeFrom(tree, lists, node, i) == start + whole
      {
        SubtreeSteps(tree, lists, node, i);
        Collect(root, tree[node].children[i]);
      }
    }

    /** `region_rebuild_subtree_mods`. */
    method RebuildSubtree(root: Key)
      requires Shape(tree) && lists.Keys == tree.Keys && root in tree && root in cache
      modifies this`cache
      ensures cache == old(cache)[root := old(cache)[root].(subtree := SubtreeMods(tree, lists, root), dirty := false)]
    {
      ghost var before := cache;
      cache := cache[root := cache[root].(subtree := [])];
      Collect(root, root);
      OnlySubtreeIs(before, cache, root, SubtreeMods(tree, lists, root));
      cache := cache[root := cache[root].(dirty := false)];
    }

    // ----- Dispatching

    /** Some region of the chain denies the path: `module_denied_by_ancestors`. */
    method DeniedByChain(chain: array<Key>, n: nat, ghost k: Key, path: string) returns (denied: bool)
      requires Aligned(View()) && k in tree && n <= chain.Length && chain[..n] == Chain(tree, k)
      ensures denied == (path in Denied(View(), k))
    {
      DeniedPathsMember(tree, deny, k, path);
      forall a ensures a in chain[..n] <==> IsUnder(tree, k, a) { ChainIsAncestors(tree, k, a); }
      ChainKnown(tree, k);
      for i := 0 to n
        invariant forall j :: 0 <= j < i ==> path !in deny[chain[..n][j]].mods
      {
        assert chain[..n][i] in chain[..n];
        if path in deny[chain[i]].mods { return true; }
      }
      return false;
    }

    /** Whether the module listens to hook h: believe a set bit, else resolve; the callback is then at hand. */
    method Implements(m: Module, h: nat) returns (yes: bool)
      requires h < |hooks| && MemoOk(m.Entries(), m.Names(), hooks)
      modifies m
      ensures yes == (hooks[h] in m.exports) && (yes ==> HasCallback(m.Entries(), h))
      ensures MemoOk(m.Entries(), m.Names(), hooks)
      ensures old(MemoComplete(m.Entries(), hooks)) ==> MemoComplete(m.Entries(), hooks)
    {
      if HasBit(m.Entries(), h) { return true; }
      var cb := m.Resolve(h, hooks, hooks[h]);
      return cb.Callback?;
    }

    /** The filters both scopes apply to one module. */
    method Admit(m: Module, chain: array<Key>, n: nat, k: Key, h: nat) returns (yes: bool)
      requires Aligned(View()) && MemosOk() && k in tree && h < |hooks| && m in live
      requires n <= chain.Length && chain[..n] == Chain(tree, k)
      modifies live
      ensures MemosOk() && yes == Listens(m, Denied(View(), k), hooks[h]) && (yes ==> HasCallback(m.Entries(), h))
      ensures forall x :: x in live && x != m ==> x.Entries() == old(x.Entries())
      ensures old(AllComplete(live, hooks)) ==> AllComplete(live, hooks)
    {
      MemosAre(live, hooks);
      if !m.hasCtx { return false; }
      var no := DeniedByChain(chain, n, k, m.path);
      if no { return false; }
      yes := Implements(m, h);
      MemosAre(live, hooks);
    }

    /** The modules of ms that survive the filters, in order, each with its callback at hand. */
    method Filter(ms: seq<Module>, chain: array<Key>, n: nat, k: Key, h: nat) returns (slots: seq<Module>)
      requires Aligned(View()) && MemosOk() && k in tree && h < |hooks| && (forall m :: m in ms ==> m in live)
      requires n <= chain.Length && chain[..n] == Chain(tree, k)
      modifies live
      ensures MemosOk() && (old(Warm()) ==> Warm()) && slots == Keep(ms, Denied(View(), k), hooks[h])
      ensures forall m :: m in slots ==> m in live && HasCallback(m.Entries(), h)
    {
      slots := [];
      ghost var denied := Denied(View(), k);
      for i := 0 to |ms|
        invariant MemosOk() && (old(AllComplete(live, hooks)) ==> AllComplete(live, hooks))
        invariant slots == Keep(ms[..i], denied, hooks[h])
        invariant forall m :: m in slots ==> m in live && HasCallback(m.Entries(), h)
      {
        var m := ms[i];
        KeepOneMore(ms, i, denied, hooks[h]);
        KeepMember(ms[..i], denied, hooks[h], m);
        var yes := Admit(m, chain, n, k, h);
        if yes { slots := slots + [m]; }
      }
      assert ms[..|ms|] == ms;
    }

    /** Make the vector of hook h fresh: collect if dirty, grow if short, filter if stale. */
    method Freshen(k: Key, h: nat, chain: array<Key>, n: nat)
      requires Inv(View()) && MemosOk() && k in tree && h < |hooks|
      requires n <= chain.Length && chain[..n] == Chain(tree, k)
      modifies this`cache, live
      ensures MemosOk() && (old(Warm()) ==> Warm())
      ensures cache == old(cache)[k := Freshened(old(View()), k, h)]
    {
      ModsLive(View(), k);
      CollectedIs(View(), k);
      Prepare(k, h);
      if cache[k].vec[h].stamp != cache[k].gen { Refill(k, h, chain, n); }
    }

    /** The subtree vector collected, the array of vectors grown. */
    method Prepare(k: Key, h: nat)
      requires Aligned(View()) && k in tree
      modifies this`cache
      ensures var c := Collected(old(View()), k); cache == old(cache)[k := c.(vec := Grown(c.vec, h))]
    {
      ghost var s := View();
      if cache[k].dirty { RebuildSubtree(k); }
      assert cache == s.cache[k := Collected(s, k)];
      cache := cache[k := cache[k].(vec := Grown(cache[k].vec, h))];
    }

    /** `region_rebuild_hook_dispatch`. */
    method Refill(k: Key, h: nat, chain: array<Key>, n: nat)
      requires Aligned(View()) && MemosOk() && k in tree && h < |hooks| && h < |cache[k].vec|
      requires forall m :: m in cache[k].subtree ==> m in live
      requires n <= chain.Length && chain[..n] == Chain(tree, k)
      modifies this`cache, live
      ensures MemosOk() && (old(Warm()) ==> Warm())
      ensures var c := old(cache)[k];
              var slots := Keep(c.subtree, DeniedPaths(tree, deny, k), hooks[h]);
              cache == old(cache)[k := c.(vec := c.vec[h := Vector(slots, c.gen)])]
    {
      var slots := Filter(cache[k].subtree, chain, n, k, h);
      cache := cache[k := cache[k].(vec := cache[k].vec[h := Vector(slots, cache[k].gen)])];
    }

    /** The refusal test on the caller's chain. */
    method HookDenied(k: Key, hook: string, chain: array<Key>, n: nat) returns (denied: bool)
      requires Aligned(View()) && k in tree && n <= chain.Length && chain[..n] == Chain(tree, k)
      ensures denied == HookRefused(View(), k, hook)
    {
      ChainKnown(tree, k);
      ghost var full := chain[..n];
      if !flag[chain[0]] { return false; }
      for i := 0 to n - 1
        invariant forall j :: 0 <= j < i ==> hook !in deny[full[j]].hooks
      {
        if hook in deny[chain[i]].hooks {
          assert full[i] == chain[i];
          return true;
        }
      }
      return false;
    }

    /** `xy_call` and `xy_call_self` from the current region: what is run, in order. */
    method Dispatch(h: nat, selfOnly: bool) returns (status: Status, runs: seq<Module>)
      requires Valid() && MemosOk() && h < |hooks|
      modifies this`cache, live
      ensures Valid() && MemosOk() && (old(Warm()) ==> Warm())
      ensures HookRefused(old(View()), current, hooks[h]) ==> status == Refused && runs == [] && View() == old(View())
      ensures !HookRefused(old(View()), current, hooks[h]) ==>
                && status == (if runs == [] then NotFound else Ok)
                && (View(), runs) == (if selfOnly then (old(View()), SelfRuns(old(View()), current, h))
                                      else Dispatched(old(View()), current, h))
    {
      var chain := new Key[65];
      var n := AncestorChain(current, chain);
      assert MemosOk() && (old(Warm()) ==> Warm());
      var denied := HookDenied(current, hooks[h], chain, n);
      if denied { return Refused, []; }
      runs := Listeners(h, selfOnly, chain, n);
      status := if runs == [] then NotFound else Ok;
    }

    /** The two scopes, once the call is not refused. */
    method Listeners(h: nat, selfOnly: bool, chain: array<Key>, n: nat) returns (runs: seq<Module>)
      requires Valid() && MemosOk() && h < |hooks| && n <= chain.Length && chain[..n] == Chain(tree, current)
      modifies this`cache, live
      ensures Valid() && MemosOk() && (old(Warm()) ==> Warm())
      ensures (View(), runs) == (if selfOnly then (old(View()), SelfRuns(old(View()), current, h))
                                 else Dispatched(old(View()), current, h))
    {
      if selfOnly {
        assert LinkedIn(lists, live, current);
        runs := Filter(lists[current], chain, n, current, h);
      } else {
        DispatchedKeeps(View(), current, h);
        Freshen(current, h, chain, n);
        runs := cache[current].vec[h].slots;
      }
    }

    /** The whole call: the hook's number is looked up, an oversized return is refused, then the dispatch is made. */
    method Call(hook: string, retSize: nat, selfOnly: bool) returns (status: Status, runs: seq<Module>)
      requires Valid() && MemosOk()
      modifies this`cache, live
      ensures Valid() && MemosOk() && (old(Warm()) ==> Warm())
      ensures Called(old(View()), View(), current, hook, retSize, selfOnly, status, runs)
    {
      var h := NumberOf(hooks, hook);
      if h.None? { return NotFound, []; }
      if retSize > MAX_RET { return TooBig, []; }
      status, runs := Dispatch(h.value, selfOnly);
    }

    // ----- Hook names

    /** `fn_cache_prewarm` for every loaded module, in whatever order the table yields them. */
    method PrewarmAll()
      requires forall m :: m in live ==> MemoSound(m.Entries(), m.Names(), hooks)
      modifies live
      ensures MemosOk() && AllComplete(live, hooks)
    {
      var rest := live;
      while rest != {}
        invariant rest <= live
        invariant forall m :: m in rest ==> MemoSound(m.Entries(), m.Names(), hooks)
        invariant forall m :: m in live - rest ==>
                    MemoOk(m.Entries(), m.Names(), hooks) && MemoComplete(m.Entries(), hooks)
        decreases |rest|
      {
        var m :| m in rest;
        m.Prewarm(hooks);
        rest := rest - {m};
      }
      MemosAre(live, hooks);
    }

    /**
     * `xy_areg`: an oversized return is refused; a known name keeps its number, and what is returned is the low half of
     * its adapter's address; a new one gets the next number.
     */
    method Areg(hook: string, retSize: nat, adapter: Word) returns (status: Status, ret: nat)
      requires Valid() && MemosOk() && Tidy()
      modifies this`hooks, this`adapters, live
      ensures Valid() && MemosOk() && Tidy() && (old(Warm()) ==> Warm())
      ensures status == if retSize > MAX_RET then TooBig else Ok
      ensures ret == if status != Ok then HALF - 1 else if hook in old(adapters) then old(adapters)[hook] % HALF else 0
      ensures hook in old(adapters) <==> hook in old(hooks)
      ensures status != Ok || hook in old(hooks) ==>
                View() == old(View()) && adapters == old(adapters)
                  && forall m :: m in live ==> m.Entries() == old(m.Entries())
      ensures status == Ok && hook !in old(hooks) ==>
                && View() == Step(old(View()), Mint(hook)) && adapters == old(adapters)[hook := adapter]
                && NumberOf(hooks, hook) == Some(|old(hooks)|) && AllComplete(live, hooks)
    {
      TidyIs(tree, handlers, required, hooks, adapters);
      if retSize > MAX_RET { return TooBig, HALF - 1; }
      if hook in adapters { return Ok, adapters[hook] % HALF; }
      Number(hook, adapter);
      PrewarmAll();
      return Ok, 0;
    }

    /** A new name gets the next number. */
    method Number(hook: string, adapter: Word)
      requires Valid() && MemosOk() && Tidy() && hook !in hooks
      modifies this`hooks, this`adapters
      ensures Valid() && Tidy() && forall m :: m in live ==> MemoSound(m.Entries(), m.Names(), hooks)
      ensures View() == Step(old(View()), Mint(hook)) && adapters == old(adapters)[hook := adapter]
      ensures hooks == old(hooks) + [hook] && NumberOf(hooks, hook) == Some(|old(hooks)|)
    {
      MintKeeps(View(), hook);
      MemosAre(live, hooks);
      TidyIs(tree, handlers, required, hooks, adapters);
      forall m | m in live ensures MemoSound(m.Entries(), m.Names(), hooks + [hook]) {
        MintedSound(m.Entries(), m.Names(), hooks, hook);
      }
      hooks, adapters := hooks + [hook], adapters[hook := adapter];
      TidyIs(tree, handlers, required, hooks, adapters);
    }

    // ----- Loading

    /** A new entry with every minted hook resolved: `fn_cache_prewarm` at the end of a load. */
    method NewEntry(path: string, hasCtx: bool, image: nat, exports: set<string>, loader: Module?) returns (m: Module)
      ensures fresh(m) && IsEntry(m, path, hasCtx, image, exports, loader) && m.serial == nextSerial
      ensures MemoOk(m.Entries(), m.Names(), hooks) && MemoComplete(m.Entries(), hooks)
    {
      m := new Module(path, hasCtx, image, exports, nextSerial, loader);
      assert MemoOk(m.Entries(), m.Names(), hooks);
      m.Prewarm(hooks);
    }

    /** Publish a new entry in the current region, where none has its path yet. */
    method Enlist(m: Module)
      requires Valid() && Loaded() && m !in live && m.serial == nextSerial
      requires m.loader != null ==> m.loader.serial < nextSerial
      requires forall x :: x in table ==> x.path != m.path || table[x].home != current
      modifies this`live, this`table, this`nextSerial
      ensures Valid() && Loaded() && View() == Step(old(View()), Publish(m)) && live == old(live) + {m}
      ensures table == old(table)[m := Entry(1, current)] && !IsLinked(lists, m)
    {
      Joins(View(), m);
      SeatedEnlisted(tree, lists, table, live, nextSerial, m, current);
      live, table, nextSerial := live + {m}, table[m := Entry(1, current)], nextSerial + 1;
    }

    // ----- Unloading

    /** `module_clear_fn_cache_for_handle`: every other entry forgets its callbacks into the unloaded object. */
    method ForgetElsewhere(others: set<Module>, gone: nat)
      modifies others
      ensures forall m :: m in others ==> m.Entries() == Cleared(old(m.Entries()), gone)
    {
      var rest := others;
      while rest != {}
        invariant rest <= others
        invariant forall m :: m in rest ==> m.Entries() == old(m.Entries())
        invariant forall m :: m in others - rest ==> m.Entries() == Cleared(old(m.Entries()), gone)
        decreases |rest|
      {
        var m :| m in rest;
        m.ForgetImage(gone);
        rest := rest - {m};
      }
    }

    /** Unlink the i-th module of region k, lifting the region's denial of its path. */
    method UnlistAt(k: Key, i: nat)
      requires Inv(View()) && k in tree && i < |lists[k]| && NoWrap(View(), k)
      modifies this`lists, this`deny, this`cache
      ensures Inv(View()) && View() == Step(old(View()), Op.Unload(k, i))
    {
      ghost var s := View();
      RemoveLinked(s, k, i);
      DropKeeps(s, k, lists[k][i].path, RemoveAt(lists[k], i));
      deny := deny[k := deny[k].(mods := deny[k].mods - {lists[k][i].path})];
      Assign(k, RemoveAt(lists[k], i));
      assert View() == Drop(s, k, s.lists[k][i].path, RemoveAt(s.lists[k], i));
    }

    /** Unlink a module whose last reference is gone, if it is linked at all; home is its region. */
    method Unlist(e: Module, home: Key, ghost b: int)
      requires Inv(View()) && home in tree && GensUpTo(View(), b) && 1 <= b < LAST_GEN
      requires forall j :: j in lists && e in lists[j] ==> j == home
      modifies this`lists, this`deny, this`cache
      ensures Inv(View()) && lists == Purged(old(lists), {e}) && GensUpTo(View(), b + 1)
      ensures UnlinkedBy(old(View()), View(), e, home)
    {
      ghost var s := View();
      if e in lists[home] {
        var i :| 0 <= i < |lists[home]| && lists[home][i] == e;
        UnlistAt(home, i);
        StepGens(s, Op.Unload(home, i), b);
        PurgedOne(s.lists, s.live, home, i);
      } else {
        PurgedAtHome(s, home, e);
      }
    }

    /** Take an unlinked entry out of the table. */
    method Erase(e: Module)
      requires Inv(View()) && !IsLinked(lists, e)
      modifies this`live, this`table
      ensures Inv(View()) && live == old(live) - {e} && table == old(table) - {e}
      ensures View() == old(View()).(live := live)
    {
      LiveKeeps(View(), live - {e});
      live := live - {e};
      table := table - {e};
    }

    /** Links and table, without the memos. */
    method Depart(e: Module, home: Key, ghost b: int)
      requires Inv(View()) && home in tree && e in live && GensUpTo(View(), b) && 1 <= b < LAST_GEN
      requires forall j :: j in lists && e in lists[j] ==> j == home
      modifies this`lists, this`deny, this`cache, this`live, this`table
      ensures Inv(View()) && live == old(live) - {e} && Departed(old(View()), View(), e, home)
      ensures table == old(table) - {e} && lists == Purged(old(lists), {e}) && GensUpTo(View(), b + 1)
    {
      NotLinked(lists, e);
      ghost var s := View();
      Unlist(e, home, b);
      ghost var mid := View();
      Erase(e);
      DepartedBy(s, mid, View(), e, home);
    }

    /** The entry leaves its region's list, the live modules and the table. */
    method Leave(e: Module, ghost b: int)
      requires Valid() && Loaded() && e in live && GensUpTo(View(), b) && 1 <= b < LAST_GEN
      modifies this`lists, this`deny, this`cache, this`live, this`table
      ensures Valid() && Loaded() && live == old(live) - {e} && GensUpTo(View(), b + 1)
      ensures e in old(table) && table == old(table) - {e} && lists == Purged(old(lists), {e})
      ensures Departed(old(View()), View(), e, old(table)[e].home)
    {
      SeatedGone(tree, lists, table, live, nextSerial, e);
      Depart(e, table[e].home, b);
    }

    /** The last steps of an unload: the other memos forget the object, then the entry leaves. */
    method Discard(e: Module, ghost b: int)
      requires Valid() && Loaded() && e in live && GensUpTo(View(), b) && 1 <= b < LAST_GEN
      modifies this`lists, this`deny, this`cache, this`live, this`table, live
      ensures Valid() && Loaded() && live == old(live) - {e} && GensUpTo(View(), b + 1)
      ensures e in old(table) && table == old(table) - {e} && lists == Purged(old(lists), {e})
      ensures Departed(old(View()), View(), e, old(table)[e].home)
      ensures forall m :: m in live ==> m.Entries() == Cleared(old(m.Entries()), e.image)
    {
      ForgetElsewhere(live - {e}, e.image);
      Leave(e, b);
    }
  }
}
