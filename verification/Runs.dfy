/** Whole runs of the runtime: every sequence of claims, loads, unloads, denials and dispatches from the start state. */
module Runs {
  import opened Word
  import opened Prefix
  import opened Tree
  import opened Claims
  import opened Slots
  import opened ModuleEntry
  import opened Dispatch
  import opened Coherence

  /** The steps the API calls are made of; k names a region, i a place in its module list. */
  datatype Op =
    | Claim(k: Key)
    | Grant(parent: Key, bits: nat)
    | Mint(hook: string)
    | Publish(m: Module)
    | Forget(m: Module)
    | Insert(k: Key, i: nat, m: Module)
    | Unlink(k: Key, i: nat)
    | Unload(k: Key, i: nat)
    | ForbidHook(k: Key, hook: string)
    | ForbidModule(k: Key, path: string)
    | Call(k: Key, h: nat)

  const START: State :=
    State(SEED, map[ROOT := []], map[ROOT := NO_DENIES], map[ROOT := false], map[ROOT := NEW_CACHE], {}, [])

  function InsertAt<T>(s: seq<T>, i: nat, x: T): seq<T>
    requires i <= |s|
  {
    s[..i] + [x] + s[i..]
  }

  function RemoveAt<T>(s: seq<T>, i: nat): seq<T>
    requires i < |s|
  {
    s[..i] + s[i + 1..]
  }

  ghost predicate IsLinked(lists: Lists, m: Module) {
    exists k :: k in lists && m in lists[k]
  }

  /** What the source demands of the caller of each step. */
  ghost predicate Enabled(s: State, op: Op) {
    Aligned(s) &&
    match op
    case Claim(k) => IsWord(k.id)
    case Grant(p, bits) => p in s.tree && bits > 0 && StaysInside(s.tree.Keys, p, bits)
    case Mint(hook) => hook !in s.hooks
    case Publish(m) => true
    case Forget(m) => !IsLinked(s.lists, m)
    case Insert(k, i, m) => k in s.tree && i <= |s.lists[k]| && m in s.live && !IsLinked(s.lists, m)
    case Unlink(k, i) => k in s.tree && i < |s.lists[k]|
    case Unload(k, i) => k in s.tree && i < |s.lists[k]|
    case ForbidHook(k, hook) => k in s.tree
    case ForbidModule(k, path) => k in s.tree
    case Call(k, h) => k in s.tree && h < |s.hooks|
  }

  ghost function Step(s: State, op: Op): State {
    if !Enabled(s, op) then s else
    match op
    case Claim(k) =>
      var p := NearestAncestor(s.tree, k);
      if Canonical(k) && k !in s.tree && p.Some? && p.value in s.tree then AddRegion(s, p.value, k) else s
    case Grant(p, bits) =>
      var id := Alloc(s.tree.Keys, p, bits);
      if id == INVALID_ID then s else AddRegion(s, p, Key(id, p.plen + bits))
    case Mint(hook) => s.(hooks := s.hooks + [hook])
    case Publish(m) => s.(live := s.live + {m})
    case Forget(m) => s.(live := s.live - {m})
    case Insert(k, i, m) => Relist(s, k, InsertAt(s.lists[k], i, m))
    case Unlink(k, i) => Relist(s, k, RemoveAt(s.lists[k], i))
    case Unload(k, i) => Drop(s, k, s.lists[k][i].path, RemoveAt(s.lists[k], i))
    case ForbidHook(k, hook) => DenyHook(s, k, hook)
    case ForbidModule(k, path) => DenyMod(s, k, path)
    case Call(k, h) => Dispatched(s, k, h).0
  }

  ghost function Run(ops: seq<Op>): State {
    if ops == [] then START else Step(Run(ops[..|ops| - 1]), ops[|ops| - 1])
  }

  // ----- Every step keeps the invariants

  ghost predicate GensUpTo(s: State, b: int)
    requires Aligned(s)
  {
    forall k :: k in s.tree ==> s.cache[k].gen <= b
  }

  lemma InsertLinked(s: State, k: Key, i: nat, m: Module)
    requires Aligned(s) && Linked(s.lists, s.live) && k in s.tree && i <= |s.lists[k]|
    requires m in s.live && !IsLinked(s.lists, m)
    ensures Linked(s.lists[k := InsertAt(s.lists[k], i, m)], s.live)
  {
    var ms := InsertAt(s.lists[k], i, m);
    var lists := s.lists[k := ms];
    assert forall x :: x in ms <==> x == m || x in s.lists[k] by {
      assert s.lists[k] == s.lists[k][..i] + s.lists[k][i..];
    }
    forall j | j in lists ensures LinkedIn(lists, s.live, j) {
      assert LinkedIn(s.lists, s.live, j);
    }
    forall a, b | a in lists && b in lists && a != b ensures Apart(lists, a, b) {
      assert Apart(s.lists, a, b);
    }
  }

  lemma RemoveLinked(s: State, k: Key, i: nat)
    requires Aligned(s) && Linked(s.lists, s.live) && k in s.tree && i < |s.lists[k]|
    ensures Linked(s.lists[k := RemoveAt(s.lists[k], i)], s.live)
  {
    var ms := RemoveAt(s.lists[k], i);
    var lists := s.lists[k := ms];
    assert forall x :: x in ms ==> x in s.lists[k];
    forall j | j in lists ensures LinkedIn(lists, s.live, j) {
      assert LinkedIn(s.lists, s.live, j);
    }
    forall a, b | a in lists && b in lists && a != b ensures Apart(lists, a, b) {
      assert Apart(s.lists, a, b);
    }
  }

  lemma LiveKeeps(s: State, live: set<Module>)
    requires Inv(s) && forall m :: m in s.live && m !in live ==> !IsLinked(s.lists, m)
    ensures Inv(s.(live := live)) && (Exact(s) ==> Exact(s.(live := live)))
  {
    var s' := s.(live := live);
    forall j | j in s.lists ensures LinkedIn(s.lists, live, j) {
      assert LinkedIn(s.lists, s.live, j);
    }
    forall a, b | a in s.lists && b in s.lists && a != b ensures Apart(s.lists, a, b) {
    }
    assert Aligned(s');
    forall k | k in s'.tree ensures CacheOkAt(s', k) && (Exact(s) ==> ExactAt(s', k)) {
      assert CacheOkAt(s, k);
      if Exact(s) { assert ExactAt(s, k); }
    }
  }

  lemma MintKeeps(s: State, hook: string)
    requires Inv(s)
    ensures Inv(s.(hooks := s.hooks + [hook])) && (Exact(s) ==> Exact(s.(hooks := s.hooks + [hook])))
  {
    var s' := s.(hooks := s.hooks + [hook]);
    assert Aligned(s');
    forall k | k in s'.tree ensures CacheOkAt(s', k) && (Exact(s) ==> ExactAt(s', k)) {
      assert CacheOkAt(s, k);
      if Exact(s) { assert ExactAt(s, k); }
    }
  }

  lemma GrantAttachable(s: State, p: Key, bits: nat)
    requires Aligned(s) && Nested(s.tree) && p in s.tree && bits > 0 && StaysInside(s.tree.Keys, p, bits)
    requires Alloc(s.tree.Keys, p, bits) != INVALID_ID
    ensures Attachable(s.tree, p, Key(Alloc(s.tree.Keys, p, bits), p.plen + bits))
  {
    assert Canonical(p);
    if p.plen + bits < 64 { AllocFailsIffFull(s.tree.Keys, p, bits); }
    var f: Key :| FreeInside(s.tree.Keys, p, bits, f);
    AllocLowest(s.tree.Keys, p, bits, f);
  }

  /** Which steps can leave a vector behind the denials, and when they do not. */
  ghost predicate Seen(s: State, op: Op)
    requires Aligned(s)
  {
    match op
    case ForbidModule(k, path) => k in s.tree ==> DenyIsSeen(s, k, path)
    case Unload(k, i) => k in s.tree && i < |s.lists[k]| ==> LiftIsSeen(s, k, s.lists[k][i].path)
    case _ => true
  }

  ghost predicate Kept(s: State, op: Op) {
    Aligned(s) && Inv(Step(s, op)) && (Exact(s) ==> (Exact(Step(s, op)) <==> Seen(s, op)))
  }

  ghost predicate Steady(s: State) {
    Inv(s) && forall k :: k in s.tree ==> s.cache[k].gen < LAST_GEN
  }

  lemma StepClaims(s: State, op: Op)
    requires Steady(s) && Enabled(s, op) && op.Claim?
    ensures Kept(s, op)
  {
    var k := op.k;
    if Canonical(k) && k !in s.tree {
      NearestAncestorFound(s.tree, k);
      var p := NearestAncestor(s.tree, k).value;
      AddRegionKeeps(s, p, k);
      assert Step(s, op) == AddRegion(s, p, k);
    } else {
      assert Step(s, op) == s;
    }
  }

  lemma StepGrants(s: State, op: Op)
    requires Steady(s) && Enabled(s, op) && op.Grant?
    ensures Kept(s, op)
  {
    if Alloc(s.tree.Keys, op.parent, op.bits) == INVALID_ID {
      GrantFails(s, op);
      KeptBy(s, op, s);
    } else {
      var s' := GrantKeeps(s, op);
      KeptBy(s, op, s');
    }
  }

  lemma KeptBy(s: State, op: Op, s': State)
    requires Aligned(s) && Step(s, op) == s' && Seen(s, op) && Inv(s') && (Exact(s) ==> Exact(s'))
    ensures Kept(s, op)
  {
  }

  lemma GrantFails(s: State, op: Op)
    requires Enabled(s, op) && op.Grant? && Alloc(s.tree.Keys, op.parent, op.bits) == INVALID_ID
    ensures Step(s, op) == s && Seen(s, op)
  {
  }

  lemma GrantStep(s: State, op: Op)
    requires Enabled(s, op) && op.Grant? && Alloc(s.tree.Keys, op.parent, op.bits) != INVALID_ID
    ensures Step(s, op) ==
            AddRegion(s, op.parent, Key(Alloc(s.tree.Keys, op.parent, op.bits), op.parent.plen + op.bits))
    ensures Seen(s, op)
  {
  }

  lemma GrantIs(s: State, p: Key, bits: nat)
    requires Inv(s) && p in s.tree && bits > 0 && StaysInside(s.tree.Keys, p, bits)
    requires Alloc(s.tree.Keys, p, bits) != INVALID_ID
    ensures var k := Key(Alloc(s.tree.Keys, p, bits), p.plen + bits);
            Attachable(s.tree, p, k) && Step(s, Grant(p, bits)) == AddRegion(s, p, k)
  {
    GrantAttachable(s, p, bits);
    GrantStep(s, Grant(p, bits));
  }

  lemma GrantKeeps(s: State, op: Op) returns (s': State)
    requires Steady(s) && Enabled(s, op) && op.Grant? && Alloc(s.tree.Keys, op.parent, op.bits) != INVALID_ID
    ensures s' == Step(s, op) && Seen(s, op) && Inv(s') && (Exact(s) ==> Exact(s'))
  {
    var p, k := op.parent, Key(Alloc(s.tree.Keys, op.parent, op.bits), op.parent.plen + op.bits);
    s' := AddRegion(s, p, k);
    GrantStep(s, op);
    GrantAttachable(s, p, op.bits);
    AddRegionKeeps(s, p, k);
  }

  lemma StepRelists(s: State, op: Op)
    requires Steady(s) && Enabled(s, op) && (op.Insert? || op.Unlink?)
    ensures Kept(s, op)
  {
    match op {
      case Insert(k, i, m) =>
        InsertLinked(s, k, i, m);
        RelistKeeps(s, k, InsertAt(s.lists[k], i, m));
      case Unlink(k, i) =>
        RemoveLinked(s, k, i);
        RelistKeeps(s, k, RemoveAt(s.lists[k], i));
    }
  }

  lemma StepUnloads(s: State, op: Op)
    requires Steady(s) && Enabled(s, op) && op.Unload?
    ensures Kept(s, op)
  {
    var k, i := op.k, op.i;
    RemoveLinked(s, k, i);
    DropKeeps(s, k, s.lists[k][i].path, RemoveAt(s.lists[k], i));
    if Exact(s) { DropExactIff(s, k, s.lists[k][i].path, RemoveAt(s.lists[k], i)); }
  }

  lemma StepForbidsModule(s: State, op: Op)
    requires Steady(s) && Enabled(s, op) && op.ForbidModule?
    ensures Kept(s, op)
  {
    DenyModKeeps(s, op.k, op.path);
    if Exact(s) { DenyModExactIff(s, op.k, op.path); }
  }

  lemma StepOther(s: State, op: Op)
    requires Steady(s) && Enabled(s, op) && (op.Mint? || op.Publish? || op.Forget? || op.ForbidHook? || op.Call?)
    ensures Kept(s, op)
  {
    match op {
      case Mint(hook) => MintKeeps(s, hook);
      case Publish(m) => LiveKeeps(s, s.live + {m});
      case Forget(m) => LiveKeeps(s, s.live - {m});
      case ForbidHook(k, hook) => DenyHookKeeps(s, k, hook);
      case Call(k, h) => DispatchedKeeps(s, k, h);
    }
  }

  /** One step keeps the invariants; it keeps the caches exact precisely when its denial change is seen. */
  lemma StepKeeps(s: State, op: Op)
    requires Steady(s) && Enabled(s, op)
    ensures Inv(Step(s, op))
    ensures Exact(s) ==> (Exact(Step(s, op)) <==> Seen(s, op))
  {
    match op {
      case Claim(_) => StepClaims(s, op);
      case Grant(_, _) => StepGrants(s, op);
      case Insert(_, _, _) => StepRelists(s, op);
      case Unlink(_, _) => StepRelists(s, op);
      case Unload(_, _) => StepUnloads(s, op);
      case ForbidModule(_, _) => StepForbidsModule(s, op);
      case _ => StepOther(s, op);
    }
  }

  lemma TouchGens(t: Tree, cache: map<Key, Cache>, k: Key, dirty: bool, b: int)
    requires forall j :: j in cache ==> cache[j].gen <= b
    requires b < LAST_GEN
    ensures forall j :: j in cache ==> Touch(t, cache, k, dirty)[j].gen <= b + 1
  {
    forall j | j in cache ensures NextGen(cache[j].gen) <= b + 1 {
      SmallMod(cache[j].gen + 1, WORD_SIZE);
    }
  }

  /** No step moves a generation by more than one. */
  lemma StepGens(s: State, op: Op, b: int)
    requires Inv(s) && GensUpTo(s, b) && 1 <= b < LAST_GEN && Enabled(s, op)
    requires Aligned(Step(s, op))
    ensures GensUpTo(Step(s, op), b + 1)
  {
    match op {
      case Claim(k) => StepGensGrowing(s, op, b);
      case Grant(p, bits) => StepGensGrowing(s, op, b);
      case Insert(k, i, m) => TouchGens(s.tree, s.cache, k, true, b);
      case Unlink(k, i) => TouchGens(s.tree, s.cache, k, true, b);
      case Unload(k, i) => TouchGens(s.tree, s.cache, k, true, b);
      case ForbidHook(k, hook) => TouchGens(s.tree, s.cache, k, false, b);
      case ForbidModule(k, path) => TouchGens(s.tree, s.cache, k, false, b);
      case Mint(_) =>
      case Publish(_) =>
      case Forget(_) =>
      case Call(k, h) => assert Step(s, op).cache == s.cache[k := Freshened(s, k, h)];
    }
  }

  lemma StepGensGrowing(s: State, op: Op, b: int)
    requires Inv(s) && GensUpTo(s, b) && 1 <= b < LAST_GEN && Enabled(s, op) && (op.Claim? || op.Grant?)
    requires Aligned(Step(s, op))
    ensures GensUpTo(Step(s, op), b + 1)
  {
    match op {
      case Claim(k) =>
        var p := NearestAncestor(s.tree, k);
        if Canonical(k) && k !in s.tree && p.Some? && p.value in s.tree { AddedGens(s, p.value, k, b); }
      case Grant(p, bits) =>
        if Alloc(s.tree.Keys, p, bits) == INVALID_ID {
          GrantFails(s, op);
        } else {
          GrantStep(s, op);
          AddedGens(s, p, Key(Alloc(s.tree.Keys, p, bits), p.plen + bits), b);
        }
    }
  }

  lemma AddedGens(s: State, p: Key, k: Key, b: int)
    requires Aligned(s) && GensUpTo(s, b) && 1 <= b < LAST_GEN && p in s.tree
    ensures var s' := AddRegion(s, p, k); forall j :: j in s'.cache ==> s'.cache[j].gen <= b + 1
  {
    TouchGens(s.tree, s.cache, p, true, b);
  }

  lemma StartInv()
    ensures Inv(START) && Exact(START) && GensUpTo(START, 1)
  {
    SeedInv();
    assert Aligned(START);
    assert SubtreesOf(SEED, START.lists, ROOT, []) == [];
    assert CacheOkAt(START, ROOT);
  }

  /** Every state a run reaches within 2^64 - 2 steps satisfies the invariants. */
  lemma {:induction false} RunInv(ops: seq<Op>)
    requires |ops| < LAST_GEN
    ensures Inv(Run(ops)) && GensUpTo(Run(ops), 1 + |ops|)
  {
    if ops == [] {
      StartInv();
    } else {
      var n := |ops| - 1;
      var s, op := Run(ops[..n]), ops[n];
      RunInv(ops[..n]);
      if Enabled(s, op) {
        StepKeeps(s, op);
        StepGens(s, op, 1 + n);
      }
    }
  }

  // ----- What holds in every reachable state

  /** Along the run, no module denial was added or lifted over a vector that depended on it. */
  ghost predicate DenialsSeen(ops: seq<Op>) {
    forall i :: 0 <= i < |ops| && Enabled(Run(ops[..i]), ops[i]) ==> Seen(Run(ops[..i]), ops[i])
  }

  lemma SeenEarlier(ops: seq<Op>)
    requires ops != [] && DenialsSeen(ops)
    ensures var init, last := ops[..|ops| - 1], ops[|ops| - 1];
            DenialsSeen(init) && (Enabled(Run(init), last) ==> Seen(Run(init), last))
  {
    var init := ops[..|ops| - 1];
    forall i | 0 <= i < |init| && Enabled(Run(init[..i]), init[i]) ensures Seen(Run(init[..i]), init[i]) {
      assert init[..i] == ops[..i];
    }
  }

  lemma StepExact(s: State, op: Op)
    requires Steady(s) && Exact(s) && (Enabled(s, op) ==> Seen(s, op))
    ensures Aligned(Step(s, op)) && Exact(Step(s, op))
  {
    if Enabled(s, op) { StepKeeps(s, op); }
  }

  lemma {:induction false} RunExact(ops: seq<Op>)
    requires |ops| < LAST_GEN && DenialsSeen(ops)
    ensures Inv(Run(ops)) && Exact(Run(ops))
  {
    RunInv(ops);
    if ops == [] {
      StartInv();
    } else {
      var init := ops[..|ops| - 1];
      SeenEarlier(ops);
      RunExact(init);
      RunInv(init);
      StepExact(Run(init), ops[|ops| - 1]);
    }
  }

  /** Whatever was denied and when, a fresh vector holds only live modules linked in the region's subtree. */
  lemma NoStaleListener(ops: seq<Op>, k: Key, h: nat, m: Module)
    requires |ops| < LAST_GEN
    requires Aligned(Run(ops)) && k in Run(ops).tree
    requires IsFresh(Run(ops).cache[k], h) && m in Run(ops).cache[k].vec[h].slots
    ensures var s := Run(ops);
            m in s.live && exists j :: j in Below(s.tree, k) && j in s.lists && m in s.lists[j]
    ensures Run(ops).cache[k].gen != 0
  {
    RunInv(ops);
    var s := Run(ops);
    assert CacheOkAt(s, k);
    SubtreeModsMember(s.tree, s.lists, k, m);
    var j :| j in Below(s.tree, k) && m in s.lists[j];
    assert LinkedIn(s.lists, s.live, j);
  }

  /** Every listener a dispatch from k runs lives in a region whose id, cut to k's width, is k's id. */
  lemma DispatchContained(ops: seq<Op>, k: Key, h: nat, m: Module)
    requires |ops| < LAST_GEN
    requires Enabled(Run(ops), Call(k, h)) && m in Dispatched(Run(ops), k, h).1
    ensures var s := Run(ops);
            exists j :: j in s.lists && m in s.lists[j] && Contains(k, j)
  {
    RunInv(ops);
    var s := Run(ops);
    DispatchedKeeps(s, k, h);
    SubtreeModsMember(s.tree, s.lists, k, m);
    var j :| j in Below(s.tree, k) && m in s.lists[j];
    UnderContained(s.tree, j, k);
  }
}
