/** The runtime over sequences of operations: what each of them finds and leaves, memos included. */
module Service {
  import opened Word
  import opened Prefix
  import opened Tree
  import opened Claims
  import opened Slots
  import opened ModuleEntry
  import opened Dispatch
  import opened Coherence
  import Runs
  import opened Scopes
  import opened HostLemmas
  import opened Lifecycle
  import opened Tables
  import Orders
  import opened Host

  /**
   * Tables and caches in order, the module table that of the live modules, no generation above b. Folded, see `Look`.
   */
  ghost predicate Standing(r: Runtime, b: int)
    reads r
  {
    forall n {:trigger Look(n)} :: Look(n) ==>
      r.Valid() && r.Loaded() && 1 <= b && Runs.GensUpTo(r.View(), b)
  }

  lemma StandingIs(r: Runtime, b: int)
    ensures Standing(r, b) <==> r.Valid() && r.Loaded() && 1 <= b && Runs.GensUpTo(r.View(), b)
  {
    assert Look(0);
  }

  /** With claim handlers and hook names in order as well. */
  ghost predicate Sound(r: Runtime, b: int)
    reads r
  {
    Standing(r, b) && r.Tidy()
  }

  lemma SoundIs(r: Runtime, b: int)
    ensures Sound(r, b) <==> r.Valid() && r.Loaded() && r.Tidy() && Bounded(r.View(), b)
  {
    StandingIs(r, b);
    BoundedIs(r.View(), b);
  }

  /** Moreover every live module's memo agrees with the resolver, and has every minted hook resolved. */
  ghost predicate Ready(r: Runtime, b: int)
    reads r, r.live
  {
    Sound(r, b) && r.Warm()
  }

  /** No generation is above b. Folded, see `Look`. */
  ghost predicate Bounded(s: State, b: int) {
    forall n {:trigger Look(n)} :: Look(n) ==> 1 <= b && Aligned(s) && Runs.GensUpTo(s, b)
  }

  lemma BoundedIs(s: State, b: int)
    ensures Bounded(s, b) <==> 1 <= b && Aligned(s) && Runs.GensUpTo(s, b)
  {
    assert Look(0);
  }

  /** A step of a run raises the bound by one. */
  lemma OneStep(s: State, op: Runs.Op, b: int)
    requires Inv(s) && Bounded(s, b) && b < LAST_GEN
    ensures Runs.Steady(s) && Bounded(Runs.Step(s, op), b + 1)
  {
    BoundedIs(s, b);
    BoundedIs(Runs.Step(s, op), b + 1);
    if Runs.Enabled(s, op) {
      Runs.StepKeeps(s, op);
      Runs.StepGens(s, op, b);
    }
  }

  lemma SoundMore(r: Runtime, b: int)
    requires Sound(r, b)
    ensures Sound(r, b + 1)
  {
    SoundIs(r, b);
    SoundIs(r, b + 1);
    BoundedIs(r.View(), b);
    BoundedIs(r.View(), b + 1);
  }

  /** Publishing, minting and dispatching leave the generations alone. */
  lemma QuietStep(s: State, op: Runs.Op, b: int)
    requires Inv(s) && Bounded(s, b) && (op.Publish? || op.Mint? || op.Call?)
    ensures Bounded(Runs.Step(s, op), b)
  {
    BoundedIs(s, b);
    if op.Call? && Runs.Enabled(s, op) { assert Runs.Step(s, op).cache == s.cache[op.k := Freshened(s, op.k, op.h)]; }
    BoundedIs(Runs.Step(s, op), b);
  }

  method Start() returns (r: Runtime)
    ensures fresh(r) && Ready(r, 1) && r.View() == Runs.START && r.table == map[] && r.current == ROOT
  {
    r := new Runtime();
    Runs.StartInv();
    BoundedIs(Runs.START, 1);
    SoundIs(r, 1);
  }

  // ----- Regions and denials: the memos are not touched

  method Claim(r: Runtime, id: nat, plen: nat, fn: Option<nat>, ghost b: int) returns (status: Status)
    requires Ready(r, b) && b < LAST_GEN && IsWord(id)
    modifies r`tree, r`lists, r`deny, r`flag, r`cache, r`current, r`handlers
    ensures Ready(r, b + 1) && status == ClaimShape(id, plen)
    ensures r.View() == Runs.Step(old(r.View()), Runs.Claim(Key(id, plen)))
    ensures r.current == if status == Ok then Key(id, plen) else old(r.current)
    ensures r.handlers == if status == Ok then Handled(old(r.handlers), Key(id, plen), fn) else old(r.handlers)
  {
    SoundIs(r, b);
    OneStep(r.View(), Runs.Claim(Key(id, plen)), b);
    status := r.ClaimAt(id, plen, fn);
    SoundIs(r, b + 1);
    assert unchanged(r.live);
  }

  method ForbidHook(r: Runtime, hook: string, ghost b: int)
    requires Ready(r, b) && b < LAST_GEN
    modifies r`deny, r`flag, r`cache
    ensures Ready(r, b + 1) && r.View() == Runs.Step(old(r.View()), Runs.ForbidHook(r.current, hook))
  {
    SoundIs(r, b);
    OneStep(r.View(), Runs.ForbidHook(r.current, hook), b);
    r.ForbidHere(hook);
    SoundIs(r, b + 1);
    assert unchanged(r.live);
  }

  method ForbidModule(r: Runtime, path: string, ghost b: int)
    requires Ready(r, b) && b < LAST_GEN
    modifies r`deny, r`flag, r`cache
    ensures Ready(r, b + 1) && r.View() == Runs.Step(old(r.View()), Runs.ForbidModule(r.current, path))
  {
    SoundIs(r, b);
    OneStep(r.View(), Runs.ForbidModule(r.current, path), b);
    r.ForbidModuleHere(path);
    SoundIs(r, b + 1);
    assert unchanged(r.live);
  }

  method Require(r: Runtime, fn: Option<nat>, ghost b: int)
    requires Ready(r, b)
    modifies r`handlers, r`required
    ensures Ready(r, b) && r.View() == old(r.View())
    ensures r.handlers == if fn.Some? then old(r.handlers)[r.current := fn.value] else old(r.handlers) - {r.current}
    ensures r.required == if fn.Some? then old(r.required) + {r.current} else old(r.required) - {r.current}
  {
    SoundIs(r, b);
    r.RequireClaim(fn);
    SoundIs(r, b);
    assert unchanged(r.live);
  }

  lemma SteadyWithin(s: State, b: int)
    requires Inv(s) && Bounded(s, b) && b < LAST_GEN
    ensures Runs.Steady(s)
  {
    BoundedIs(s, b);
  }

  lemma GrantBounded(s: State, s': State, parent: Key, bits: nat, k: Key, b: int)
    requires Inv(s) && Bounded(s, b) && b < LAST_GEN && Granted(s, s', parent, bits, k)
    ensures StaysInside(s.tree.Keys, parent, bits) ==> Bounded(s', b + 1)
  {
    OneStep(s, Runs.Grant(parent, bits), b);
  }

  /** A load's claim. A grant that leaves its parent, possible at width 64 only, ends the reign of the invariant. */
  method Grant(r: Runtime, parent: Key, bits: nat, answer: ClaimAnswer, ghost b: int) returns (status: Status)
    requires Ready(r, b) && b < LAST_GEN
    modifies r`tree, r`lists, r`deny, r`flag, r`cache, r`current
    ensures status == ClaimStatus(old(r.tree), parent, bits, if parent in r.handlers then answer else NoHandler)
    ensures status != Ok ==> r.View() == old(r.View()) && r.current == old(r.current)
    ensures status == Ok ==> Granted(old(r.View()), r.View(), parent, answer.granted, r.current)
    ensures (status == Ok ==> StaysInside(old(r.tree).Keys, parent, answer.granted)) ==> Ready(r, b + 1)
  {
    status := GrantTables(r, parent, bits, answer, b);
    assert unchanged(r.live);
  }

  /** The tables' part of it. */
  method GrantTables(r: Runtime, parent: Key, bits: nat, answer: ClaimAnswer, ghost b: int) returns (status: Status)
    requires Sound(r, b) && b < LAST_GEN
    modifies r`tree, r`lists, r`deny, r`flag, r`cache, r`current
    ensures status == ClaimStatus(old(r.tree), parent, bits, if parent in r.handlers then answer else NoHandler)
    ensures status != Ok ==> r.View() == old(r.View()) && r.current == old(r.current)
    ensures status == Ok ==> Granted(old(r.View()), r.View(), parent, answer.granted, r.current)
    ensures (status == Ok ==> StaysInside(old(r.tree).Keys, parent, answer.granted)) ==> Sound(r, b + 1)
  {
    SoundMore(r, b);
    SoundIs(r, b);
    SoundIs(r, b + 1);
    SteadyWithin(r.View(), b);
    ghost var s := r.View();
    status := r.ClaimForLoad(parent, bits, answer);
    if status == Ok { GrantBounded(s, r.View(), parent, answer.granted, r.current, b); }
    SoundIs(r, b + 1);
  }

  // ----- Modules

  /** The two steps of a load: the entry is live, and linked behind the others of region k. */
  ghost predicate Joined(s: State, s': State, k: Key, m: Module) {
    k in s.lists && s' == Runs.Step(Runs.Step(s, Runs.Publish(m)), Runs.Insert(k, |s.lists[k]|, m))
  }

  /** No loaded entry has that path in that region. */
  ghost predicate IsVacant(tb: Table, k: Key, path: string) {
    forall x :: x in tb ==> x.path != path || tb[x].home != k
  }

  /** A load that nothing refuses: published with its hooks resolved, then linked behind the others. */
  method Load(r: Runtime, path: string, hasCtx: bool, image: nat, exports: set<string>, loader: Module?, ghost b: int)
    returns (m: Module)
    requires Ready(r, b) && b < LAST_GEN && (loader != null ==> loader.serial < r.nextSerial)
    requires IsVacant(r.table, r.current, path)
    modifies r`live, r`table, r`nextSerial, r`lists, r`cache
    ensures Ready(r, b + 1) && fresh(m) && IsEntry(m, path, hasCtx, image, exports, loader)
    ensures r.live == old(r.live) + {m} && r.table == old(r.table)[m := Entry(1, r.current)]
    ensures Joined(old(r.View()), r.View(), r.current, m)
    ensures r.lists == old(r.lists)[r.current := old(r.lists)[r.current] + [m]]
  {
    m := r.NewEntry(path, hasCtx, image, exports, loader);
    WarmWith(r.live, m, r.hooks);
    NotYet(r, m, b);
    Place(r, m, r.live + {m}, b);
  }

  /** An entry made just now is not live yet. */
  lemma NotYet(r: Runtime, m: Module, b: int)
    requires Sound(r, b) && m.serial == r.nextSerial
    ensures m !in r.live
  {
    SoundIs(r, b);
    SeatedIs(r.tree, r.lists, r.table, r.live, r.nextSerial);
  }

  method Place(r: Runtime, m: Module, ghost live: set<Module>, ghost b: int)
    requires Sound(r, b) && b < LAST_GEN && IsVacant(r.table, r.current, m.path)
    requires m !in r.live && m.serial == r.nextSerial && (m.loader != null ==> m.loader.serial < r.nextSerial)
    requires live == r.live + {m} && AllOk(live, r.hooks) && AllComplete(live, r.hooks)
    modifies r`live, r`table, r`nextSerial, r`lists, r`cache
    ensures Ready(r, b + 1) && r.live == live && r.table == old(r.table)[m := Entry(1, r.current)]
    ensures Joined(old(r.View()), r.View(), r.current, m)
    ensures r.lists == old(r.lists)[r.current := old(r.lists)[r.current] + [m]]
  {
    Enter(r, m, b);
    assert unchanged(live);
  }

  lemma WarmWith(live: set<Module>, m: Module, hooks: seq<string>)
    requires AllOk(live, hooks) && AllComplete(live, hooks)
    requires MemoOk(m.Entries(), m.Names(), hooks) && MemoComplete(m.Entries(), hooks)
    ensures AllOk(live + {m}, hooks) && AllComplete(live + {m}, hooks)
  {
    MemosAre(live, hooks);
    MemosAre(live + {m}, hooks);
  }

  /** The tables' part of a load. */
  method Enter(r: Runtime, m: Module, ghost b: int)
    requires Sound(r, b) && b < LAST_GEN && IsVacant(r.table, r.current, m.path)
    requires m !in r.live && m.serial == r.nextSerial && (m.loader != null ==> m.loader.serial < r.nextSerial)
    modifies r`live, r`table, r`nextSerial, r`lists, r`cache
    ensures Sound(r, b + 1)
    ensures r.live == old(r.live) + {m} && r.table == old(r.table)[m := Entry(1, r.current)]
    ensures Joined(old(r.View()), r.View(), r.current, m)
    ensures r.lists == old(r.lists)[r.current := old(r.lists)[r.current] + [m]]
  {
    SoundIs(r, b);
    QuietStep(r.View(), Runs.Publish(m), b);
    r.Enlist(m);
    SoundIs(r, b);
    AtTheEnd(r.lists[r.current], m);
    LinkAt(r, r.current, |r.lists[r.current]|, m, b);
  }

  lemma AtTheEnd(ms: seq<Module>, m: Module)
    ensures Runs.InsertAt(ms, |ms|, m) == ms + [m]
  {
  }

  method LinkAt(r: Runtime, k: Key, i: nat, m: Module, ghost b: int)
    requires Sound(r, b) && b < LAST_GEN && k in r.lists && i <= |r.lists[k]|
    requires m in r.table && r.table[m].home == k && m in r.live && !Runs.IsLinked(r.lists, m)
    modifies r`lists, r`cache
    ensures Sound(r, b + 1) && r.View() == Runs.Step(old(r.View()), Runs.Insert(k, i, m))
    ensures r.lists == old(r.lists)[k := Runs.InsertAt(old(r.lists)[k], i, m)]
  {
    SoundIs(r, b);
    OneStep(r.View(), Runs.Insert(k, i, m), b);
    r.InsertPlace(k, i, m);
    SoundIs(r, b + 1);
  }

  /** Linking an entry at its home anew, as a reload does: first, or behind a given module. */
  method Link(r: Runtime, k: Key, m: Module, after: Option<Module>, ghost b: int)
    requires Ready(r, b) && b < LAST_GEN && k in r.lists && (after.Some? ==> after.value in r.lists[k])
    requires m in r.table && r.table[m].home == k && m in r.live && !Runs.IsLinked(r.lists, m)
    modifies r`lists, r`cache
    ensures Ready(r, b + 1) && k in r.lists && r.lists == old(r.lists)[k := r.lists[k]]
    ensures Orders.Behind(old(r.lists)[k], after, m, r.lists[k])
  {
    var i := 0;
    if after.Some? {
      var j :| 0 <= j < |r.lists[k]| && r.lists[k][j] == after.value;
      i := j + 1;
    }
    LinkAt(r, k, i, m, b);
    assert Orders.BehindAt(old(r.lists)[k], after, m, i, r.lists[k]);
    assert unchanged(r.live);
  }

  method Unlink(r: Runtime, k: Key, m: Module, ghost b: int) returns (i: nat)
    requires Ready(r, b) && b < LAST_GEN && k in r.lists && m in r.lists[k]
    modifies r`lists, r`cache
    ensures Ready(r, b + 1) && i < |old(r.lists)[k]| && old(r.lists)[k][i] == m
    ensures r.View() == Runs.Step(old(r.View()), Runs.Unlink(k, i))
  {
    i :| 0 <= i < |r.lists[k]| && r.lists[k][i] == m;
    SoundIs(r, b);
    OneStep(r.View(), Runs.Unlink(k, i), b);
    r.DetachAt(k, i, m);
    SoundIs(r, b + 1);
    assert unchanged(r.live);
  }

  /**
   * An unload. Every surviving memo stays sound; it stays in step with its bits exactly when it comes from another
   * object or had no callback, and with one entry for each object the runtime is as ready as before.
   */
  method Unload(r: Runtime, e: Module, ghost b: int)
    requires Ready(r, b) && b < LAST_GEN && e in r.live
    modifies r`lists, r`deny, r`cache, r`live, r`table, r.live
    ensures Sound(r, b + 1)
    ensures r.live == old(r.live) - {e} && r.table == old(r.table) - {e} && r.lists == Purged(old(r.lists), {e})
    ensures e in old(r.table) && Leaves(old(r.View()), r.View(), e, old(r.table)[e].home)
    ensures forall m :: m in r.live ==> MemoSound(m.Entries(), m.Names(), r.hooks)
    ensures forall m :: m in r.live ==>
              (MemoOk(m.Entries(), m.Names(), r.hooks) <==>
                 m.image != e.image || !exists h :: HasCallback(old(m.Entries()), h))
    ensures OnePerImage(old(r.table)) ==> Ready(r, b + 1)
  {
    ghost var before := map m | m in r.live :: m.Entries();
    Others(r, e, b);
    Evict(r, e, before, b);
    Forgotten(r.live, r.hooks, e, before);
  }

  /** None of them comes from that object. */
  ghost predicate Elsewhere(live: set<Module>, image: nat) {
    forall m :: m in live ==> m.image != image
  }

  /** The steps of an unload, and what they do to the denials. Folded, see `Look`. */
  ghost predicate Leaves(s: State, s': State, e: Module, home: Key) {
    forall n {:trigger Look(n)} :: Look(n) ==>
      Departed(s, s', e, home) && home in s.lists && Lifts(s.deny, s'.deny, home, e in s.lists[home], e.path)
  }

  lemma LeavesIs(s: State, s': State, e: Module, home: Key)
    ensures Leaves(s, s', e, home) <==>
            Departed(s, s', e, home) && home in s.lists && Lifts(s.deny, s'.deny, home, e in s.lists[home], e.path)
  {
    assert Look(0);
  }

  method Evict(r: Runtime, e: Module, ghost before: map<Module, Memo>, ghost b: int)
    requires Standing(r, b) && b < LAST_GEN && e in r.live
    requires forall m :: m in r.live ==> m in before && before[m] == m.Entries()
    modifies r`lists, r`deny, r`cache, r`live, r`table, r.live
    ensures Standing(r, b + 1)
    ensures e in old(r.table) && Leaves(old(r.View()), r.View(), e, old(r.table)[e].home)
    ensures r.live == old(r.live) - {e} && r.table == old(r.table) - {e} && r.lists == Purged(old(r.lists), {e})
    ensures forall m :: m in r.live ==> m.Entries() == Cleared(before[m], e.image)
  {
    HasHome(r, e, b);
    ghost var s, home := r.View(), r.table[e].home;
    Remove(r, e, before, b);
    DepartedLifts(s, r.View(), e, home);
    LeavesIs(s, r.View(), e, home);
  }

  lemma HasHome(r: Runtime, e: Module, b: int)
    requires Standing(r, b) && e in r.live
    ensures e in r.table && r.table[e].home in r.lists && Aligned(r.View()) && r.table[e].home in r.tree
  {
    StandingIs(r, b);
    SeatedIs(r.tree, r.lists, r.table, r.live, r.nextSerial);
  }

  lemma Others(r: Runtime, e: Module, b: int)
    requires Ready(r, b) && e in r.live
    ensures OnePerImage(r.table) ==> Elsewhere(r.live - {e}, e.image)
    ensures forall m :: m in r.live ==> MemoOk(m.Entries(), m.Names(), r.hooks) && MemoComplete(m.Entries(), r.hooks)
  {
    SoundIs(r, b);
    SeatedIs(r.tree, r.lists, r.table, r.live, r.nextSerial);
    MemosAre(r.live, r.hooks);
    if OnePerImage(r.table) { OtherImages(r.table, e); }
  }

  /** The tables' part of an unload, and every other memo forgetting the object. */
  method Remove(r: Runtime, e: Module, ghost before: map<Module, Memo>, ghost b: int)
    requires Standing(r, b) && b < LAST_GEN && e in r.live
    requires forall m :: m in r.live ==> m in before && before[m] == m.Entries()
    modifies r`lists, r`deny, r`cache, r`live, r`table, r.live
    ensures Standing(r, b + 1)
    ensures r.live == old(r.live) - {e} && r.table == old(r.table) - {e} && r.lists == Purged(old(r.lists), {e})
    ensures e in old(r.table) && Departed(old(r.View()), r.View(), e, old(r.table)[e].home)
    ensures forall m :: m in r.live ==> m.Entries() == Cleared(before[m], e.image)
  {
    StandingIs(r, b);
    r.Discard(e, b);
    StandingIs(r, b + 1);
  }

  /** The memos after every other one has forgotten the object of e. */
  lemma Forgotten(live: set<Module>, hooks: seq<string>, e: Module, before: map<Module, Memo>)
    requires forall m :: m in live ==>
               && m in before && MemoOk(before[m], m.Names(), hooks) && MemoComplete(before[m], hooks)
               && m.Entries() == Cleared(before[m], e.image)
    ensures forall m :: m in live ==> MemoSound(m.Entries(), m.Names(), hooks)
    ensures forall m :: m in live ==>
              (MemoOk(m.Entries(), m.Names(), hooks) <==> m.image != e.image || !exists h :: HasCallback(before[m], h))
    ensures Elsewhere(live, e.image) ==> AllOk(live, hooks) && AllComplete(live, hooks)
  {
    forall m | m in live
      ensures MemoSound(m.Entries(), m.Names(), hooks)
      ensures MemoOk(m.Entries(), m.Names(), hooks) <==> m.image != e.image || !exists h :: HasCallback(before[m], h)
      ensures m.image != e.image ==> m.Entries() == before[m]
    {
      ClearedOkIff(before[m], m.Names(), hooks, e.image);
      ClearedForeign(before[m], m.Names(), hooks, e.image);
    }
    MemosAre(live, hooks);
  }

  // ----- Hooks

  /** A new name gets the next number, and every live module has it resolved; a known one keeps its own. */
  method Register(r: Runtime, hook: string, retSize: nat, adapter: Word, ghost b: int)
    returns (status: Status, ret: nat)
    requires Ready(r, b)
    modifies r`hooks, r`adapters, r.live
    ensures Ready(r, b) && status == if retSize > MAX_RET then TooBig else Ok
    ensures r.View() == if status == Ok then Runs.Step(old(r.View()), Runs.Mint(hook)) else old(r.View())
    ensures hook !in old(r.hooks) && status == Ok ==> NumberOf(r.hooks, hook) == Some(|old(r.hooks)|)
    ensures r.adapters == if status == Ok && hook !in old(r.hooks) then old(r.adapters)[hook := adapter]
                          else old(r.adapters)
    ensures ret == if status != Ok then HALF - 1
                   else if hook in old(r.adapters) then old(r.adapters)[hook] % HALF else 0
    ensures hook in old(r.adapters) <==> hook in old(r.hooks)
    ensures hook in old(r.hooks) ==> NumberOf(r.hooks, hook) == NumberOf(old(r.hooks), hook)
  {
    SoundIs(r, b);
    ghost var s := r.View();
    status, ret := r.Areg(hook, retSize, adapter);
    MintBounded(s, r.View(), hook, b);
    SoundIs(r, b);
  }

  lemma MintBounded(s: State, s': State, hook: string, b: int)
    requires Inv(s) && Bounded(s, b) && (s' == s || s' == Runs.Step(s, Runs.Mint(hook)))
    ensures Bounded(s', b)
  {
    QuietStep(s, Runs.Mint(hook), b);
  }

  method Call(r: Runtime, hook: string, retSize: nat, selfOnly: bool, ghost b: int)
    returns (status: Status, runs: seq<Module>)
    requires Ready(r, b)
    modifies r`cache, r.live
    ensures Ready(r, b) && Called(old(r.View()), r.View(), r.current, hook, retSize, selfOnly, status, runs)
  {
    SoundIs(r, b);
    ghost var s := r.View();
    status, runs := r.Call(hook, retSize, selfOnly);
    CallBounded(s, r.View(), r.current, hook, retSize, selfOnly, status, runs, b);
    SoundIs(r, b);
  }

  lemma CallBounded(s: State, s': State, k: Key, hook: string, retSize: nat, selfOnly: bool, status: Status,
                    runs: seq<Module>, b: int)
    requires Inv(s) && Bounded(s, b) && Called(s, s', k, hook, retSize, selfOnly, status, runs)
    ensures Bounded(s', b)
  {
    var h := NumberOf(s.hooks, hook);
    if h.Some? { QuietStep(s, Runs.Call(k, h.value), b); }
  }
}
