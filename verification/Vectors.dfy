/** What a fresh vector holds in any reachable state, and when the dispatch that trusts it is the simple walk. */
module Vectors {
  import opened Prefix
  import opened Tree
  import opened Claims
  import opened Slots
  import opened ModuleEntry
  import opened Dispatch
  import opened Coherence
  import opened Runs

  // ----- One step and one region

  /** After the step region j has no fresh vector, or vectors and subtree are what they were. */
  ghost predicate StaleOrSame(s: State, s': State, j: Key)
    requires Aligned(s) && j in s.tree
  {
    && Aligned(s') && j in s'.tree && s.hooks <= s'.hooks
    && ((forall h :: !IsFresh(s'.cache[j], h))
        || (s'.cache[j].vec == s.cache[j].vec && s'.cache[j].gen == s.cache[j].gen && Mods(s', j) == Mods(s, j)))
  }

  lemma AddRegionLeaves(s: State, p: Key, k: Key, j: Key)
    requires Inv(s) && Attachable(s.tree, p, k) && NoWrap(s, p) && j in s.tree
    ensures StaleOrSame(s, AddRegion(s, p, k), j)
  {
    var s' := AddRegion(s, p, k);
    assert CacheOkAt(s, j);
    AddRegionMods(s, p, k, j);
    if IsUnder(s.tree, p, j) {
      TouchedIsStale(s.cache[j], s'.cache[j], Mods(s, j), Mods(s', j), |s.hooks|);
    }
  }

  lemma ClaimLeaves(s: State, op: Op, j: Key)
    requires Steady(s) && Enabled(s, op) && op.Claim? && j in s.tree
    ensures StaleOrSame(s, Step(s, op), j)
  {
    if Canonical(op.k) && op.k !in s.tree {
      NearestAncestorFound(s.tree, op.k);
      AddRegionLeaves(s, NearestAncestor(s.tree, op.k).value, op.k, j);
    }
  }

  lemma GrantLeaves(s: State, op: Op, j: Key)
    requires Steady(s) && Enabled(s, op) && op.Grant? && j in s.tree
    ensures StaleOrSame(s, Step(s, op), j)
  {
    if Alloc(s.tree.Keys, op.parent, op.bits) == INVALID_ID {
      GrantFails(s, op);
    } else {
      GrantAttachable(s, op.parent, op.bits);
      GrantStep(s, op);
      AddRegionLeaves(s, op.parent, Key(Alloc(s.tree.Keys, op.parent, op.bits), op.parent.plen + op.bits), j);
    }
  }

  lemma RelistLeaves(s: State, op: Op, j: Key)
    requires Steady(s) && Enabled(s, op) && (op.Insert? || op.Unlink?) && j in s.tree
    ensures StaleOrSame(s, Step(s, op), j)
  {
    assert CacheOkAt(s, j);
    DropShape(s, op.k, if op.Insert? then InsertAt(s.lists[op.k], op.i, op.m) else RemoveAt(s.lists[op.k], op.i), j);
  }

  lemma UnloadLeaves(s: State, op: Op, j: Key)
    requires Steady(s) && Enabled(s, op) && op.Unload? && j in s.tree
    ensures StaleOrSame(s, Step(s, op), j)
  {
    var s1 := Lifted(s, op.k, s.lists[op.k][op.i].path);
    LiftedInv(s, op.k, s.lists[op.k][op.i].path);
    assert CacheOkAt(s1, j);
    DropShape(s1, op.k, RemoveAt(s.lists[op.k], op.i), j);
  }

  lemma DenialLeaves(s: State, op: Op, j: Key)
    requires Steady(s) && Enabled(s, op) && (op.ForbidHook? || op.ForbidModule?) && j in s.tree
    ensures StaleOrSame(s, Step(s, op), j)
  {
    assert CacheOkAt(s, j);
    if op.ForbidModule? {
      DenyModAt(s, op.k, op.path, j);
    } else {
      var s' := DenyHook(s, op.k, op.hook);
      DenyHookAt(s, op.k, op.hook, j);
      if IsUnder(s.tree, op.k, j) {
        TouchedIsStale(s.cache[j], s'.cache[j], Mods(s, j), Mods(s', j), |s.hooks|);
      }
    }
  }

  /**
   * No step but a dispatch from j itself leaves j with a fresh vector that is new or a subtree that is not the old one.
   */
  lemma StepLeaves(s: State, op: Op, j: Key)
    requires Steady(s) && j in s.tree && !op.Call?
    ensures StaleOrSame(s, Step(s, op), j)
  {
    if Enabled(s, op) {
      match op {
        case Claim(_) => ClaimLeaves(s, op, j);
        case Grant(_, _) => GrantLeaves(s, op, j);
        case Insert(_, _, _) => RelistLeaves(s, op, j);
        case Unlink(_, _) => RelistLeaves(s, op, j);
        case Unload(_, _) => UnloadLeaves(s, op, j);
        case ForbidHook(_, _) => DenialLeaves(s, op, j);
        case ForbidModule(_, _) => DenialLeaves(s, op, j);
        case _ =>
      }
    }
  }

  // ----- The denials a vector was built under

  /** A fresh vector holds exactly the listeners of the subtree, denials being those of d. */
  ghost predicate BuiltAt(s: State, k: Key, h: nat, d: set<string>)
    requires Aligned(s) && k in s.tree
  {
    IsFresh(s.cache[k], h) && h < |s.hooks| ==> s.cache[k].vec[h].slots == Keep(Mods(s, k), d, s.hooks[h])
  }

  /** The step is the dispatch that builds the vector. */
  ghost predicate Builds(s: State, op: Op, k: Key, h: nat) {
    Enabled(s, op) && op == Call(k, h) && !IsFresh(s.cache[k], h)
  }

  /** The paths that were denied at k when its vector for h was last built along the run. */
  ghost function BuiltUnder(ops: seq<Op>, k: Key, h: nat): set<string> {
    if ops == [] then {}
    else
      var n := |ops| - 1;
      var s := Run(ops[..n]);
      if Builds(s, ops[n], k, h) then Denied(s, k) else BuiltUnder(ops[..n], k, h)
  }

  lemma CallBuilds(s: State, j: Key, i: nat, k: Key, h: nat, d: set<string>)
    requires Inv(s) && Enabled(s, Call(j, i)) && k in s.tree && BuiltAt(s, k, h, d)
    ensures var s' := Dispatched(s, j, i).0;
            Aligned(s') && BuiltAt(s', k, h, if Builds(s, Call(j, i), k, h) then Denied(s, k) else d)
  {
    var s' := Dispatched(s, j, i).0;
    assert Aligned(s');
    if j == k {
      assert CacheOkAt(s, k);
      var c := Collected(s, k);
      var vec := Grown(c.vec, i);
      assert c.subtree == Mods(s, k) && Mods(s', k) == Mods(s, k);
      if h < |c.vec| { assert vec[..|c.vec|][h] == c.vec[h]; }
      if i < |c.vec| { assert vec[..|c.vec|][i] == c.vec[i]; }
    }
  }

  lemma StepBuilds(s: State, op: Op, k: Key, h: nat, d: set<string>)
    requires Steady(s) && k in s.tree && BuiltAt(s, k, h, d)
    ensures Aligned(Step(s, op)) && k in Step(s, op).tree
    ensures BuiltAt(Step(s, op), k, h, if Builds(s, op, k, h) then Denied(s, k) else d)
  {
    if op.Call? {
      if Enabled(s, op) { CallBuilds(s, op.k, op.h, k, h, d); }
    } else {
      StepLeaves(s, op, k);
      assert CacheOkAt(s, k);
    }
  }

  /** A region the step has just made has no vectors. */
  lemma NewRegionBuilds(s: State, op: Op, k: Key, h: nat, d: set<string>)
    requires Aligned(s) && Aligned(Step(s, op)) && k !in s.tree && k in Step(s, op).tree
    ensures BuiltAt(Step(s, op), k, h, d)
  {
    assert op.Claim? || op.Grant?;
    assert Step(s, op).cache[k] == NEW_CACHE;
  }

  /** In every reachable state a fresh vector is the simple walk under the denials it was built under. */
  lemma {:induction false} VectorsAreBuilt(ops: seq<Op>, k: Key, h: nat)
    requires |ops| < LAST_GEN && Aligned(Run(ops)) && k in Run(ops).tree
    ensures BuiltAt(Run(ops), k, h, BuiltUnder(ops, k, h))
  {
    if ops != [] {
      var n := |ops| - 1;
      var s := Run(ops[..n]);
      RunInv(ops[..n]);
      if k in s.tree {
        VectorsAreBuilt(ops[..n], k, h);
        StepBuilds(s, ops[n], k, h, BuiltUnder(ops[..n], k, h));
      } else {
        NewRegionBuilds(s, ops[n], k, h, BuiltUnder(ops[..n], k, h));
      }
    }
  }

  // ----- When the dispatch is the walk

  /** Two denial sets keep the same modules exactly when no module that could listen is in just one of them. */
  lemma {:induction false} KeepSameIff(ms: seq<Module>, d: set<string>, e: set<string>, hook: string)
    ensures Keep(ms, d, hook) == Keep(ms, e, hook) <==>
            forall m :: m in ms && m.hasCtx && hook in m.exports ==> (m.path in d <==> m.path in e)
  {
    if Keep(ms, d, hook) == Keep(ms, e, hook) {
      forall m | m in ms && m.hasCtx && hook in m.exports ensures m.path in d <==> m.path in e {
        KeepMember(ms, d, hook, m);
        KeepMember(ms, e, hook, m);
      }
    } else {
      KeepSame(ms, d, e, hook);
    }
  }

  lemma {:induction false} KeepSame(ms: seq<Module>, d: set<string>, e: set<string>, hook: string)
    ensures (forall m :: m in ms ==> (Listens(m, d, hook) <==> Listens(m, e, hook))) ==>
            Keep(ms, d, hook) == Keep(ms, e, hook)
  {
    if ms != [] { KeepSame(ms[1..], d, e, hook); }
  }

  /**
   * In every reachable state, whatever was denied and when: the cached dispatch runs exactly what the simple walk would
   * if and only if its vector is stale, or no module of the subtree that could listen has been denied or freed since
   * the vector was built.
   */
  lemma CachedDispatchIsTheWalk(ops: seq<Op>, k: Key, h: nat)
    requires |ops| < LAST_GEN && Enabled(Run(ops), Call(k, h))
    ensures var s := Run(ops);
            Dispatched(s, k, h).1 == Naive(s, k, h) <==>
            (IsFresh(s.cache[k], h) ==>
               forall m :: m in Mods(s, k) && m.hasCtx && s.hooks[h] in m.exports ==>
                 (m.path in BuiltUnder(ops, k, h) <==> m.path in Denied(s, k)))
  {
    var s := Run(ops);
    RunInv(ops);
    VectorsAreBuilt(ops, k, h);
    DispatchRuns(s, k, h);
    KeepSameIff(Mods(s, k), BuiltUnder(ops, k, h), Denied(s, k), s.hooks[h]);
  }

  /** What a dispatch runs: the vector if it is fresh, else what the rebuild finds. */
  lemma DispatchRuns(s: State, k: Key, h: nat)
    requires Inv(s) && Enabled(s, Call(k, h))
    ensures Dispatched(s, k, h).1 == if IsFresh(s.cache[k], h) then s.cache[k].vec[h].slots else Naive(s, k, h)
  {
    assert CacheOkAt(s, k);
    var c := Collected(s, k);
    var vec := Grown(c.vec, h);
    assert c.subtree == Mods(s, k);
    if h < |c.vec| { assert vec[..|c.vec|][h] == c.vec[h]; }
  }
}
