/** What the past of a run says about its present: who was denied, and which number a hook name has. */
module History {
  import opened Prefix
  import opened Tree
  import opened Claims
  import opened ModuleEntry
  import opened Dispatch
  import opened Coherence
  import opened Runs
  import Siblings
  import opened Scopes

  // ----- Hook numbers

  ghost predicate NoRepeat(hooks: seq<string>) {
    forall i, j :: 0 <= i < j < |hooks| ==> hooks[i] != hooks[j]
  }

  lemma StepHooks(s: State, op: Op)
    ensures s.hooks <= Step(s, op).hooks
    ensures NoRepeat(s.hooks) ==> NoRepeat(Step(s, op).hooks)
  {
    if !op.Mint? { StepNumbers(s, op); }
  }

  lemma StepNumbers(s: State, op: Op)
    requires !op.Mint?
    ensures Step(s, op).hooks == s.hooks
  {
  }

  /** Numbers are handed out once: a name keeps its number for the rest of the run, and no two names share one. */
  lemma {:induction false} NumbersStay(ops: seq<Op>, n: nat)
    requires n <= |ops|
    ensures Run(ops[..n]).hooks <= Run(ops).hooks && NoRepeat(Run(ops).hooks)
    decreases |ops|
  {
    if ops != [] {
      var init := ops[..|ops| - 1];
      StepHooks(Run(init), ops[|ops| - 1]);
      if n < |ops| {
        NumbersStay(init, n);
        assert init[..n] == ops[..n];
      } else {
        NumbersStay(init, n - 1);
        assert ops[..n] == ops;
      }
    } else {
      assert ops[..n] == [];
    }
  }

  // ----- Hook denials

  /** Somewhere along the run region a forbade the hook. */
  ghost predicate Forbade(ops: seq<Op>, a: Key, hook: string) {
    exists i :: 0 <= i < |ops| && ForbadeAt(ops, i, a, hook)
  }

  ghost predicate ForbadeAt(ops: seq<Op>, i: nat, a: Key, hook: string)
    requires i < |ops|
  {
    ops[i] == ForbidHook(a, hook) && Enabled(Run(ops[..i]), ops[i])
  }

  ghost predicate HasDenied(s: State, a: Key, hook: string) {
    a in s.deny && hook in s.deny[a].hooks
  }

  lemma StepDenies(s: State, op: Op, a: Key, hook: string)
    requires Aligned(s)
    ensures HasDenied(Step(s, op), a, hook) <==> HasDenied(s, a, hook) || (Enabled(s, op) && op == ForbidHook(a, hook))
  {
  }

  lemma ForbadeEarlier(ops: seq<Op>, a: Key, hook: string)
    requires ops != []
    ensures var n := |ops| - 1;
            Forbade(ops, a, hook) <==> Forbade(ops[..n], a, hook) || ForbadeAt(ops, n, a, hook)
  {
    var n := |ops| - 1;
    forall i | 0 <= i < n ensures ForbadeAt(ops, i, a, hook) == ForbadeAt(ops[..n], i, a, hook) {
      assert ops[..n][..i] == ops[..i];
    }
  }

  /** A region denies a hook exactly when it once forbade it: such a denial is never lifted nor inherited. */
  lemma {:induction false} DeniesIffForbade(ops: seq<Op>, a: Key, hook: string)
    requires |ops| < LAST_GEN
    ensures HasDenied(Run(ops), a, hook) <==> Forbade(ops, a, hook)
  {
    if ops != [] {
      var n := |ops| - 1;
      RunInv(ops[..n]);
      DeniesIffForbade(ops[..n], a, hook);
      StepDenies(Run(ops[..n]), ops[n], a, hook);
      ForbadeEarlier(ops, a, hook);
    }
  }

  /** A dispatch is refused exactly when some region strictly above the caller forbade the hook at any earlier step. */
  lemma RefusedIffForbade(ops: seq<Op>, k: Key, hook: string)
    requires |ops| < LAST_GEN && Aligned(Run(ops)) && k in Run(ops).tree
    ensures HookRefused(Run(ops), k, hook) <==>
              exists a :: a in Run(ops).tree && a != k && IsUnder(Run(ops).tree, k, a) && Forbade(ops, a, hook)
  {
    var s := Run(ops);
    HookRefusedIff(ops, k, hook);
    forall a | a in s.tree ensures hook in s.deny[a].hooks <==> Forbade(ops, a, hook) {
      DeniesIffForbade(ops, a, hook);
    }
  }

  // ----- The flags that gate the refusal

  /** Step i makes a denial in region d. */
  ghost predicate DeniesAt(ops: seq<Op>, i: nat, d: Key)
    requires i < |ops|
  {
    Enabled(Run(ops[..i]), ops[i]) && (ops[i].ForbidHook? || ops[i].ForbidModule?) && ops[i].k == d
  }

  /** Some step made a denial in a region at or below a. */
  ghost predicate DeniedBelow(ops: seq<Op>, t: Tree, a: Key) {
    exists i, d :: 0 <= i < |ops| && DeniesAt(ops, i, d) && IsUnder(t, d, a)
  }

  lemma StepFlags(s: State, op: Op, a: Key)
    requires Inv(s) && Aligned(Step(s, op)) && a in Step(s, op).tree
    ensures Step(s, op).flag[a] <==>
            || (a in s.tree && s.flag[a])
            || (Enabled(s, op) && (op.ForbidHook? || op.ForbidModule?) && IsUnder(s.tree, op.k, a))
  {
    if Enabled(s, op) && (op.ForbidHook? || op.ForbidModule?) {
      DenialFlags(s, op, a);
    } else {
      OtherFlags(s, op, a);
    }
  }

  lemma DenialFlags(s: State, op: Op, a: Key)
    requires Inv(s) && Enabled(s, op) && (op.ForbidHook? || op.ForbidModule?)
    ensures Step(s, op).tree == s.tree && Step(s, op).flag.Keys == s.tree.Keys
    ensures a in s.tree ==> (Step(s, op).flag[a] <==> s.flag[a] || IsUnder(s.tree, op.k, a))
  {
    var s' := if op.ForbidHook? then DenyHook(s, op.k, op.hook) else DenyMod(s, op.k, op.path);
    assert s'.tree == s.tree && s'.flag == RaiseFlags(s.tree, s.flag, op.k);
    assert Step(s, op) == s';
  }

  lemma OtherFlags(s: State, op: Op, a: Key)
    requires Aligned(s) && Aligned(Step(s, op)) && a in Step(s, op).tree
    requires !Enabled(s, op) || (!op.ForbidHook? && !op.ForbidModule?)
    ensures Step(s, op).flag[a] <==> a in s.tree && s.flag[a]
  {
  }

  /** Ancestry among the regions there are does not change. */
  lemma StepUnder(s: State, op: Op, d: Key, a: Key)
    requires Inv(s) && d in s.tree
    ensures IsUnder(Step(s, op).tree, d, a) <==> IsUnder(s.tree, d, a)
  {
    var p, k := Siblings.StepMakes(s, op);
    if Step(s, op).tree != s.tree { AttachUnder(s.tree, p, k, d, a); }
  }

  lemma {:induction false} DenierStays(ops: seq<Op>, i: nat, d: Key)
    requires |ops| < LAST_GEN && i < |ops| && DeniesAt(ops, i, d)
    ensures d in Run(ops).tree
  {
    var n := |ops| - 1;
    RunInv(ops[..n]);
    if i < n {
      assert ops[..n][..i] == ops[..i];
      DenierStays(ops[..n], i, d);
    }
    RegionStays(Run(ops[..n]), ops[n], d);
  }

  lemma RegionStays(s: State, op: Op, d: Key)
    requires Inv(s) && d in s.tree
    ensures d in Step(s, op).tree
  {
    var p, k := Siblings.StepMakes(s, op);
  }

  /** After any run a region's flag is up exactly when a denial was made at or below it. */
  lemma {:induction false} FlagIffDenied(ops: seq<Op>, a: Key)
    requires |ops| < LAST_GEN && Aligned(Run(ops)) && a in Run(ops).tree
    ensures Run(ops).flag[a] <==> DeniedBelow(ops, Run(ops).tree, a)
  {
    if ops != [] {
      var n := |ops| - 1;
      var s := Run(ops[..n]);
      RunInv(ops[..n]);
      StepFlags(s, ops[n], a);
      if DeniedBelow(ops, Run(ops).tree, a) { BelowWas(ops, a); }
      if DeniedBelow(ops[..n], s.tree, a) || LastDenies(ops, a) { BelowIs(ops, a); }
      if a in s.tree {
        FlagIffDenied(ops[..n], a);
      } else {
        NewIsAbove(ops, a);
      }
    }
  }

  /** What an earlier denial means does not change with the last step. */
  lemma EarlierAt(ops: seq<Op>, a: Key, i: nat, d: Key)
    requires i + 1 < |ops| < LAST_GEN
    ensures var n := |ops| - 1;
            && (DeniesAt(ops, i, d) <==> DeniesAt(ops[..n], i, d))
            && (DeniesAt(ops, i, d) ==> (IsUnder(Run(ops).tree, d, a) <==> IsUnder(Run(ops[..n]).tree, d, a)))
  {
    var n := |ops| - 1;
    assert ops[..n][..i] == ops[..i];
    if DeniesAt(ops, i, d) {
      RunInv(ops[..n]);
      DenierStays(ops[..n], i, d);
      StepUnder(Run(ops[..n]), ops[n], d, a);
    }
  }

  /** The last step denies at or below a. */
  ghost predicate LastDenies(ops: seq<Op>, a: Key)
    requires ops != []
  {
    var n := |ops| - 1;
    var s := Run(ops[..n]);
    Enabled(s, ops[n]) && (ops[n].ForbidHook? || ops[n].ForbidModule?) && IsUnder(s.tree, ops[n].k, a)
  }

  lemma LastAt(ops: seq<Op>, a: Key, d: Key)
    requires ops != [] && |ops| < LAST_GEN
    ensures DeniesAt(ops, |ops| - 1, d) && IsUnder(Run(ops).tree, d, a) ==> LastDenies(ops, a)
    ensures LastDenies(ops, a) ==> var k := ops[|ops| - 1].k;
                                   DeniesAt(ops, |ops| - 1, k) && IsUnder(Run(ops).tree, k, a)
  {
    var n := |ops| - 1;
    RunInv(ops[..n]);
    if DeniesAt(ops, n, d) { StepUnder(Run(ops[..n]), ops[n], d, a); }
    if LastDenies(ops, a) { StepUnder(Run(ops[..n]), ops[n], ops[n].k, a); }
  }

  lemma BelowWas(ops: seq<Op>, a: Key)
    requires ops != [] && |ops| < LAST_GEN && DeniedBelow(ops, Run(ops).tree, a)
    ensures DeniedBelow(ops[..|ops| - 1], Run(ops[..|ops| - 1]).tree, a) || LastDenies(ops, a)
  {
    var i, d :| 0 <= i < |ops| && DeniesAt(ops, i, d) && IsUnder(Run(ops).tree, d, a);
    if i < |ops| - 1 { EarlierAt(ops, a, i, d); } else { LastAt(ops, a, d); }
  }

  lemma BelowIs(ops: seq<Op>, a: Key)
    requires ops != [] && |ops| < LAST_GEN
    requires DeniedBelow(ops[..|ops| - 1], Run(ops[..|ops| - 1]).tree, a) || LastDenies(ops, a)
    ensures DeniedBelow(ops, Run(ops).tree, a)
  {
    var init := ops[..|ops| - 1];
    if LastDenies(ops, a) {
      LastAt(ops, a, a);
    } else {
      var i, d :| 0 <= i < |init| && DeniesAt(init, i, d) && IsUnder(Run(init).tree, d, a);
      EarlierAt(ops, a, i, d);
    }
  }

  lemma NewIsAbove(ops: seq<Op>, a: Key)
    requires ops != [] && |ops| < LAST_GEN && a !in Run(ops[..|ops| - 1]).tree
    ensures !DeniedBelow(ops[..|ops| - 1], Run(ops[..|ops| - 1]).tree, a)
  {
    var init := ops[..|ops| - 1];
    RunInv(init);
    forall i, d | 0 <= i < |init| && DeniesAt(init, i, d) ensures !IsUnder(Run(init).tree, d, a) {
      DenierStays(init, i, d);
      if IsUnder(Run(init).tree, d, a) { UnderWider(Run(init).tree, d, a); }
    }
  }

  // ----- Module denials

  ghost predicate ForbadeModAt(ops: seq<Op>, i: nat, a: Key, path: string)
    requires i < |ops|
  {
    ops[i] == ForbidModule(a, path) && Enabled(Run(ops[..i]), ops[i])
  }

  /** Step i unloads a module of that path from region a. */
  ghost predicate FreedAt(ops: seq<Op>, i: nat, a: Key, path: string)
    requires i < |ops|
  {
    var s := Run(ops[..i]);
    Enabled(s, ops[i]) && ops[i].Unload? && ops[i].k == a && s.lists[a][ops[i].i].path == path
  }

  /** Step i forbids the path in region a, and no later step unloads a module of that path there. */
  ghost predicate ForbadeLast(ops: seq<Op>, i: nat, a: Key, path: string)
    requires i < |ops|
  {
    ForbadeModAt(ops, i, a, path) && forall j :: i < j < |ops| ==> !FreedAt(ops, j, a, path)
  }

  ghost predicate HasDeniedMod(s: State, a: Key, path: string) {
    a in s.deny && path in s.deny[a].mods
  }

  lemma StepDeniesMod(s: State, op: Op, a: Key, path: string)
    requires Aligned(s)
    ensures HasDeniedMod(Step(s, op), a, path) <==>
            || (Enabled(s, op) && op == ForbidModule(a, path))
            || (HasDeniedMod(s, a, path)
                && !(Enabled(s, op) && op.Unload? && op.k == a && s.lists[a][op.i].path == path))
  {
  }

  lemma LastEarlier(ops: seq<Op>, i: nat, a: Key, path: string)
    requires i + 1 < |ops|
    ensures var n := |ops| - 1;
            ForbadeLast(ops, i, a, path) <==> ForbadeLast(ops[..n], i, a, path) && !FreedAt(ops, n, a, path)
  {
    var n := |ops| - 1;
    forall j | 0 <= j < n
      ensures ForbadeModAt(ops, j, a, path) == ForbadeModAt(ops[..n], j, a, path)
      ensures FreedAt(ops, j, a, path) == FreedAt(ops[..n], j, a, path)
    {
      assert ops[..n][..j] == ops[..j];
    }
  }

  ghost predicate ForbadeSince(ops: seq<Op>, a: Key, path: string) {
    exists i :: 0 <= i < |ops| && ForbadeLast(ops, i, a, path)
  }

  lemma SinceEarlier(ops: seq<Op>, a: Key, path: string)
    requires ops != []
    ensures var n := |ops| - 1;
            ForbadeSince(ops, a, path) <==>
              ForbadeModAt(ops, n, a, path) || (ForbadeSince(ops[..n], a, path) && !FreedAt(ops, n, a, path))
  {
    var n := |ops| - 1;
    assert ForbadeLast(ops, n, a, path) <==> ForbadeModAt(ops, n, a, path);
    if i :| 0 <= i < n && ForbadeLast(ops, i, a, path) { LastEarlier(ops, i, a, path); }
    if i :| 0 <= i < n && ForbadeLast(ops[..n], i, a, path) { LastEarlier(ops, i, a, path); }
  }

  /** A region denies a module path exactly when it forbade it and has unloaded no module of that path since. */
  lemma {:induction false} DeniesModIffForbade(ops: seq<Op>, a: Key, path: string)
    requires |ops| < LAST_GEN
    ensures HasDeniedMod(Run(ops), a, path) <==> ForbadeSince(ops, a, path)
  {
    if ops != [] {
      var n := |ops| - 1;
      RunInv(ops[..n]);
      DeniesModIffForbade(ops[..n], a, path);
      StepDeniesMod(Run(ops[..n]), ops[n], a, path);
      SinceEarlier(ops, a, path);
    }
  }

  /**
   * The boundary of exactness: a denial made strictly above a region does not reach the region's fresh vectors, so a
   * listener it names goes on being run there although the simple walk would skip it.
   */
  lemma DeniedStillRuns(s: State, a: Key, k: Key, h: nat, m: Module)
    requires Inv(s) && k in s.tree && a in s.tree && a != k && IsUnder(s.tree, k, a) && h < |s.hooks|
    requires IsFresh(s.cache[k], h) && m in s.cache[k].vec[h].slots
    ensures var s' := DenyMod(s, a, m.path);
            m in Dispatched(s', k, h).1 && m !in Naive(s', k, h)
  {
    var s' := DenyMod(s, a, m.path);
    if IsUnder(s.tree, a, k) {
      UnderWider(s.tree, a, k);
      UnderWider(s.tree, k, a);
    }
    assert s'.cache[k] == s.cache[k];
    DeniedPathsMember(s'.tree, s'.deny, k, m.path);
    KeepMember(Mods(s', k), Denied(s', k), s'.hooks[h], m);
  }

  /** A region is claimed, a hook and a module that handles it arrive there, and the region calls the hook once. */
  ghost function Prelude(k: Key, hook: string, m: Module): seq<Op> {
    Furnishing(k, hook, m) + [Call(k, 0)]
  }

  ghost function Furnishing(k: Key, hook: string, m: Module): seq<Op> {
    [Op.Claim(k), Mint(hook), Publish(m), Insert(k, 0, m)]
  }

  lemma {:induction false} Onward(ops: seq<Op>, op: Op)
    ensures Run(ops + [op]) == Step(Run(ops), op)
  {
    assert (ops + [op])[..|ops|] == ops;
  }

  /** Where the prelude leads: one region below the root, with a fresh vector that holds its one module. */
  lemma PreludeLeads(k: Key, hook: string, m: Module) returns (s: State)
    requires Canonical(k) && k != ROOT && m.hasCtx && hook in m.exports
    ensures s == Run(Prelude(k, hook, m)) && Inv(s) && k in s.tree && ROOT in s.tree && IsUnder(s.tree, k, ROOT)
    ensures s.hooks == [hook] && IsFresh(s.cache[k], 0) && s.cache[k].vec[0].slots == [m]
  {
    var ops, s4 := Furnished(k, hook, m);
    s := CalledOnce(ops, s4, k, hook, m);
  }

  lemma CalledOnce(ops: seq<Op>, s: State, k: Key, hook: string, m: Module) returns (s': State)
    requires s == Run(ops) && |ops| == 4 && OneRegion(s, k) && IsUnder(s.tree, k, ROOT) && k != ROOT
    requires s.lists[k] == [m] && s.hooks == [hook] && s.cache[k].vec == [] && m.hasCtx && hook in m.exports
    ensures s' == Run(ops + [Call(k, 0)]) && Inv(s') && k in s'.tree && ROOT in s'.tree && IsUnder(s'.tree, k, ROOT)
    ensures s'.hooks == [hook] && IsFresh(s'.cache[k], 0) && s'.cache[k].vec[0].slots == [m]
  {
    RunInv(ops);
    RunInv(ops + [Call(k, 0)]);
    Onward(ops, Call(k, 0));
    s' := FirstDispatch(s, k, hook, m);
  }

  lemma FirstDispatch(s: State, k: Key, hook: string, m: Module) returns (s': State)
    requires Inv(s) && OneRegion(s, k) && IsUnder(s.tree, k, ROOT) && k != ROOT
    requires s.lists[k] == [m] && s.hooks == [hook] && s.cache[k].vec == [] && m.hasCtx && hook in m.exports
    ensures s' == Step(s, Call(k, 0)) && k in s'.tree && ROOT in s'.tree && IsUnder(s'.tree, k, ROOT) && k in s'.cache
    ensures s'.hooks == [hook] && IsFresh(s'.cache[k], 0) && s'.cache[k].vec[0].slots == [m]
  {
    FirstCall(s, k, hook, m);
    s' := Dispatched(s, k, 0).0;
    assert s'.cache[k] == Freshened(s, k, 0);
  }

  /** Before the call. */
  lemma Furnished(k: Key, hook: string, m: Module) returns (ops: seq<Op>, s: State)
    requires Canonical(k) && k != ROOT
    ensures ops == Furnishing(k, hook, m) && s == Run(ops) && |ops| == 4 && Aligned(s) && IsUnder(s.tree, k, ROOT)
    ensures OneRegion(s, k)
    ensures s.lists[k] == [m] && s.hooks == [hook] && s.cache[k].vec == []
  {
    ops := Furnishing(k, hook, m);
    var s1 := ClaimedFirst(k);
    assert ops == ops[..1] + [Mint(hook)] + [Publish(m)] + [Insert(k, 0, m)] && ops[..1] == [] + [Op.Claim(k)];
    Onward([], Op.Claim(k));
    Onward(ops[..1], Mint(hook));
    Onward(ops[..1] + [Mint(hook)], Publish(m));
    Onward(ops[..1] + [Mint(hook)] + [Publish(m)], Insert(k, 0, m));
    s := Fitted(s1, k, hook, m);
  }

  /** The root and one region below it, nothing denied. */
  ghost predicate OneRegion(s: State, k: Key) {
    && s.tree.Keys == s.lists.Keys == s.deny.Keys == s.cache.Keys == {ROOT, k} && s.tree[k].children == []
    && s.deny[k] == NO_DENIES && s.deny[ROOT] == NO_DENIES
  }

  lemma ClaimedFirst(k: Key) returns (s: State)
    requires Canonical(k) && k != ROOT
    ensures s == Step(START, Op.Claim(k)) && Aligned(s) && IsUnder(s.tree, k, ROOT) && OneRegion(s, k)
    ensures s.lists[k] == [] && s.lists[ROOT] == [] && s.hooks == [] && s.live == {} && s.cache[k] == NEW_CACHE
  {
    StartInv();
    NearestAncestorFound(START.tree, k);
    assert NearestAncestor(START.tree, k) == Some(ROOT);
    s := AddRegion(START, ROOT, k);
    AttachKeepsShape(SEED, ROOT, k);
    assert IsUnder(s.tree, k, ROOT);
  }

  lemma Fitted(s: State, k: Key, hook: string, m: Module) returns (s': State)
    requires Aligned(s) && OneRegion(s, k) && s.lists[k] == [] && s.lists[ROOT] == [] && s.hooks == [] && s.live == {}
    requires s.cache[k] == NEW_CACHE && IsUnder(s.tree, k, ROOT) && k != ROOT
    ensures s' == Step(Step(Step(s, Mint(hook)), Publish(m)), Insert(k, 0, m))
    ensures Aligned(s') && OneRegion(s', k) && IsUnder(s'.tree, k, ROOT)
    ensures s'.lists[k] == [m] && s'.hooks == [hook] && s'.cache[k].vec == []
  {
    var s3 := Equipped(s, hook, m);
    assert InsertAt([], 0, m) == [m];
    s' := Relist(s3, k, [m]);
  }

  lemma Equipped(s: State, hook: string, m: Module) returns (s': State)
    requires Aligned(s) && s.hooks == [] && s.live == {}
    ensures s' == Step(Step(s, Mint(hook)), Publish(m)) && s' == s.(hooks := [hook], live := {m})
  {
    s' := s.(hooks := [hook], live := {m});
  }

  /** The first dispatch of a region that holds one listener nobody denies. */
  lemma FirstCall(s: State, k: Key, hook: string, m: Module)
    requires Inv(s) && OneRegion(s, k) && s.lists[k] == [m] && s.hooks == [hook] && m.hasCtx && hook in m.exports
    requires s.cache[k].vec == []
    ensures var c := Freshened(s, k, 0); IsFresh(c, 0) && c.vec[0].slots == [m]
  {
    assert CacheOkAt(s, k);
    CollectedMods(s, k);
    assert SubtreesOf(s.tree, s.lists, k, []) == [];
    assert Mods(s, k) == [m];
    DeniedPathsMember(s.tree, s.deny, k, m.path);
    assert Keep([m], Denied(s, k), hook) == [m] by { assert [m][1..] == []; }
  }

  /** And so a run reaches a state in which a denied module still runs. */
  lemma DeniedRunsReached(k: Key, hook: string, m: Module)
    requires Canonical(k) && k != ROOT && m.hasCtx && hook in m.exports
    ensures var s := Run(Prelude(k, hook, m) + [ForbidModule(ROOT, m.path)]);
            Enabled(s, Call(k, 0)) && Aligned(s) && m in Dispatched(s, k, 0).1 && m !in Naive(s, k, 0)
  {
    var s := PreludeLeads(k, hook, m);
    DenyAtTheTop(Prelude(k, hook, m), s, k, m);
  }

  lemma DenyAtTheTop(ops: seq<Op>, s: State, k: Key, m: Module)
    requires s == Run(ops) && Inv(s) && k in s.tree && ROOT in s.tree && k != ROOT && IsUnder(s.tree, k, ROOT)
    requires |s.hooks| == 1 && IsFresh(s.cache[k], 0) && m in s.cache[k].vec[0].slots
    ensures var s' := Run(ops + [ForbidModule(ROOT, m.path)]);
            Enabled(s', Call(k, 0)) && Aligned(s') && m in Dispatched(s', k, 0).1 && m !in Naive(s', k, 0)
  {
    Onward(ops, ForbidModule(ROOT, m.path));
    var s' := DeniedAbove(s, k, m);
  }

  lemma DeniedAbove(s: State, k: Key, m: Module) returns (s': State)
    requires Inv(s) && k in s.tree && ROOT in s.tree && k != ROOT && IsUnder(s.tree, k, ROOT)
    requires |s.hooks| == 1 && IsFresh(s.cache[k], 0) && m in s.cache[k].vec[0].slots
    ensures s' == Step(s, ForbidModule(ROOT, m.path)) && Enabled(s', Call(k, 0)) && Aligned(s')
    ensures m in Dispatched(s', k, 0).1 && m !in Naive(s', k, 0)
  {
    s' := DenyMod(s, ROOT, m.path);
    DeniedStillRuns(s, ROOT, k, 0, m);
  }

  /**
   * The simple walk runs a listener of the subtree unless a region at or above the caller, itself included, denies it.
   */
  lemma RunsUnlessDenied(s: State, k: Key, h: nat, m: Module)
    requires Aligned(s) && k in s.tree && h < |s.hooks|
    ensures m in Naive(s, k, h) <==>
              && (exists j :: j in Below(s.tree, k) && m in s.lists[j])
              && m.hasCtx && s.hooks[h] in m.exports
              && forall a :: a in s.tree && IsUnder(s.tree, k, a) ==> m.path !in s.deny[a].mods
  {
    KeepMember(Mods(s, k), Denied(s, k), s.hooks[h], m);
    SubtreeModsMember(s.tree, s.lists, k, m);
    DeniedPathsMember(s.tree, s.deny, k, m.path);
    forall a | IsUnder(s.tree, k, a) ensures a in s.tree { UnderWider(s.tree, k, a); }
  }

  /** Unlike a hook denial, a module denial bites in the denying region itself, and at once. */
  lemma OwnDenialBites(s: State, k: Key, h: nat, m: Module)
    requires Inv(s) && k in s.tree && h < |s.hooks| && NoWrap(s, k)
    ensures m !in Dispatched(DenyMod(s, k, m.path), k, h).1
  {
    var s' := DenyMod(s, k, m.path);
    DenyModKeeps(s, k, m.path);
    assert CacheOkAt(s, k) && CacheOkAt(s', k);
    TouchedIsStale(s.cache[k], s'.cache[k], Mods(s, k), Mods(s', k), |s.hooks|);
    RunsUnlessDenied(s', k, h, m);
    CollectedMods(s', k);
  }

  lemma CollectedMods(s: State, k: Key)
    requires Inv(s) && k in s.tree
    ensures Collected(s, k).subtree == Mods(s, k)
  {
    assert CacheOkAt(s, k);
  }
}
