/** What short sequences of calls come to, told without the functions that specify the single calls. */
module Outcomes {
  import opened Word
  import opened Prefix
  import opened Tree
  import opened Claims
  import opened Slots
  import opened ModuleEntry
  import opened Dispatch
  import opened Coherence
  import Runs
  import opened Scopes
  import opened HostLemmas
  import opened Lifecycle
  import opened Tables
  import opened Vectors
  import opened Host
  import opened Service
  import History
  import Reentry

  // ----- A module that comes back

  /** Strictly above k no region denies the hook, and none denies the module path. */
  ghost predicate FreeAbove(s: State, k: Key, hook: string, path: string)
    requires Aligned(s)
  {
    forall a :: a in s.tree && a != k && IsUnder(s.tree, k, a) ==> hook !in s.deny[a].hooks && path !in s.deny[a].mods
  }

  lemma NotRefused(s: State, k: Key, hook: string, path: string)
    requires Aligned(s) && k in s.tree && FreeAbove(s, k, hook, path)
    ensures !HookRefused(s, k, hook)
  {
    var chain := Chain(s.tree, k);
    ChainKnown(s.tree, k);
    forall i | 0 <= i < |chain| - 1 ensures hook !in s.deny[chain[i]].hooks {
      var a := chain[i];
      ChainProper(s.tree, k, a);
      assert Chain(s.tree, k)[i] == a;
      assert a in s.tree && a != k && IsUnder(s.tree, k, a);
    }
  }

  lemma NotDenied(s: State, k: Key, hook: string, path: string)
    requires Aligned(s) && k in s.tree && FreeAbove(s, k, hook, path) && path !in s.deny[k].mods
    ensures path !in Denied(s, k)
  {
    DeniedPathsMember(s.tree, s.deny, k, path);
  }

  /** A list change leaves the region without a fresh vector, so its next dispatch is the simple walk. */
  lemma RelistWalks(s: State, k: Key, ms: seq<Module>, h: nat)
    requires Inv(s) && k in s.tree && NoWrap(s, k) && Linked(s.lists[k := ms], s.live) && h < |s.hooks|
    ensures var s' := Relist(s, k, ms); Inv(s') && Dispatched(s', k, h).1 == Naive(s', k, h)
  {
    var s' := Relist(s, k, ms);
    RelistKeeps(s, k, ms);
    assert CacheOkAt(s, k);
    DropShape(s, k, ms, k);
    DispatchRuns(s', k, h);
  }

  lemma JoinedShape(s: State, s': State, k: Key, m: Module) returns (s1: State)
    requires Runs.Steady(s) && k in s.tree && m !in s.live && Joined(s, s', k, m)
    ensures s1 == s.(live := s.live + {m}) && Inv(s1) && NoWrap(s1, k) && s' == Relist(s1, k, s.lists[k] + [m])
    ensures Linked(s1.lists[k := s.lists[k] + [m]], s1.live)
  {
    s1 := s.(live := s.live + {m});
    Runs.LiveKeeps(s, s.live + {m});
    NotYetLinked(s, m);
    Runs.InsertLinked(s1, k, |s.lists[k]|, m);
    AtTheEnd(s.lists[k], m);
  }

  /** What the region's calls run once m has joined it: m among them if nothing denies it. */
  lemma JoinedRuns(s: State, s': State, k: Key, m: Module, hook: string, h: nat)
    requires Runs.Steady(s) && k in s.tree && m !in s.live && Joined(s, s', k, m)
    requires h < |s.hooks| && s.hooks[h] == hook && m.hasCtx && hook in m.exports
    requires FreeAbove(s, k, hook, m.path) && m.path !in s.deny[k].mods
    ensures Inv(s') && k in s'.tree && s'.hooks == s.hooks && !HookRefused(s', k, hook)
    ensures m in Dispatched(s', k, h).1 && SelfRuns(s', k, h) == SelfRuns(s, k, h) + [m]
  {
    var s1 := JoinedShape(s, s', k, m);
    RelistWalks(s1, k, s.lists[k] + [m], h);
    NotRefused(s', k, hook, m.path);
    NotDenied(s', k, hook, m.path);
    LastOne(s, s', k, m, hook, h);
  }

  lemma NotYetLinked(s: State, m: Module)
    requires Inv(s) && m !in s.live
    ensures !Runs.IsLinked(s.lists, m)
  {
    forall j | j in s.lists ensures m !in s.lists[j] { assert LinkedIn(s.lists, s.live, j); }
  }

  lemma LastOne(s: State, s': State, k: Key, m: Module, hook: string, h: nat)
    requires Inv(s) && Inv(s') && k in s.tree && s'.tree == s.tree && s'.deny == s.deny && s'.hooks == s.hooks
    requires s'.lists == s.lists[k := s.lists[k] + [m]] && h < |s.hooks| && s.hooks[h] == hook
    requires Listens(m, Denied(s', k), hook)
    ensures m in Naive(s', k, h) && SelfRuns(s', k, h) == SelfRuns(s, k, h) + [m]
  {
    KeepAppend(s.lists[k], [m], Denied(s, k), hook);
    assert Keep([m], Denied(s, k), hook) == [m] by { assert [m][1..] == []; }
    SubtreeModsMember(s'.tree, s'.lists, k, m);
    assert IsUnder(s'.tree, k, k) && m in s'.lists[k];
    KeepMember(Mods(s', k), Denied(s', k), hook, m);
  }

  /** The module is linked in the current region; forbidding its path there, the region above leaves it alone. */
  ghost predicate AtWork(r: Runtime, e: Module, hook: string)
    reads r
  {
    && Aligned(r.View()) && r.current in r.tree && e in r.live && e in r.table && r.table[e].home == r.current
    && e in r.lists[r.current] && e.hasCtx && hook in e.exports && hook in r.hooks
    && FreeAbove(r.View(), r.current, hook, e.path)
  }

  /** The denial a region makes of one of its own modules goes when the module does. */
  method ForbidAndUnload(r: Runtime, e: Module, hook: string, ghost b: int)
    requires Ready(r, b) && b + 1 < LAST_GEN && AtWork(r, e, hook) && OnePerImage(r.table)
    modifies r`deny, r`flag, r`cache, r`lists, r`live, r`table, r.live
    ensures Ready(r, b + 2) && IsVacant(r.table, r.current, e.path) && r.live == old(r.live) - {e}
    ensures Aligned(r.View()) && r.current in r.tree && e.path !in r.deny[r.current].mods
    ensures FreeAbove(r.View(), r.current, hook, e.path)
  {
    ghost var s := r.View();
    ForbidModule(r, e.path, b);
    ghost var s1 := r.View();
    Alone(r, e, b + 1);
    Unload(r, e, b + 1);
    LeavesIs(s1, r.View(), e, r.current);
    StillAligned(r, b + 2);
    Lifted(s, s1, r.View(), r.current, e, hook);
  }

  lemma Alone(r: Runtime, e: Module, b: int)
    requires Sound(r, b) && e in r.table
    ensures IsVacant(r.table - {e}, r.table[e].home, e.path)
  {
    SoundIs(r, b);
    SeatedIs(r.tree, r.lists, r.table, r.live, r.nextSerial);
    forall x | x in r.table - {e} ensures x.path != e.path || r.table[x].home != r.table[e].home {
      assert x != e ==> !SamePlace(r.table, x, e);
    }
  }

  lemma StillAligned(r: Runtime, b: int)
    requires Sound(r, b)
    ensures Inv(r.View()) && r.current in r.tree
  {
    SoundIs(r, b);
  }

  lemma Lifted(s: State, s1: State, s2: State, k: Key, e: Module, hook: string)
    requires Aligned(s) && k in s.tree && FreeAbove(s, k, hook, e.path)
    requires s1 == Runs.Step(s, Runs.ForbidModule(k, e.path))
    requires e in s.lists[k] && Departed(s1, s2, e, k) && Lifts(s1.deny, s2.deny, k, e in s1.lists[k], e.path)
    requires Aligned(s2)
    ensures k in s2.tree && e.path !in s2.deny[k].mods && FreeAbove(s2, k, hook, e.path)
  {
    Forbidden(s, s1, k, e.path);
    DepartedLifts(s1, s2, e, k);
    StillFree(s, s1, s2, k, hook, e.path);
  }

  lemma Forbidden(s: State, s1: State, k: Key, path: string)
    requires Aligned(s) && k in s.tree && s1 == Runs.Step(s, Runs.ForbidModule(k, path))
    ensures Aligned(s1) && s1.tree == s.tree && s1.lists == s.lists
    ensures forall j :: j in s.tree && j != k ==> s1.deny[j] == s.deny[j]
  {
  }

  lemma StillFree(s: State, s1: State, s2: State, k: Key, hook: string, path: string)
    requires Aligned(s) && Aligned(s1) && Aligned(s2) && s2.tree == s1.tree == s.tree && FreeAbove(s, k, hook, path)
    requires forall j :: j in s.tree && j != k ==> s1.deny[j] == s.deny[j]
    requires Lifts(s1.deny, s2.deny, k, true, path)
    ensures FreeAbove(s2, k, hook, path)
  {
  }

  /**
   * A region forbids one of its own modules, unloads it and loads it again: a call from there, in either scope, runs
   * it, unless a region above denies it.
   */
  method ComeBack(r: Runtime, e: Module, hook: string, retSize: nat, selfOnly: bool, ghost b: int)
    returns (m: Module, status: Status, runs: seq<Module>)
    requires Ready(r, b) && b + 3 < LAST_GEN && AtWork(r, e, hook) && OnePerImage(r.table) && retSize <= MAX_RET
    modifies r`deny, r`flag, r`cache, r`lists, r`live, r`table, r`nextSerial, r.live
    ensures Ready(r, b + 3) && fresh(m) && m.path == e.path
    ensures status == Ok && m in runs && (selfOnly ==> runs[|runs| - 1] == m)
  {
    m := Replace(r, e, hook, b);
    status, runs := CallBack(r, m, hook, retSize, selfOnly, b + 3);
  }

  method Replace(r: Runtime, e: Module, hook: string, ghost b: int) returns (m: Module)
    requires Ready(r, b) && b + 2 < LAST_GEN && AtWork(r, e, hook) && OnePerImage(r.table)
    modifies r`deny, r`flag, r`cache, r`lists, r`live, r`table, r`nextSerial, r.live
    ensures Ready(r, b + 3) && fresh(m) && m.path == e.path && r.live == old(r.live) - {e} + {m}
    ensures Answers(r.View(), r.current, m, hook)
  {
    ForbidAndUnload(r, e, hook, b);
    m := LoadBack(r, e, hook, b + 2);
  }

  method CallBack(r: Runtime, m: Module, hook: string, retSize: nat, selfOnly: bool, ghost b: int)
    returns (status: Status, runs: seq<Module>)
    requires Ready(r, b) && Answers(r.View(), r.current, m, hook) && retSize <= MAX_RET
    modifies r`cache, r.live
    ensures Ready(r, b) && status == Ok && m in runs && (selfOnly ==> runs[|runs| - 1] == m)
  {
    ghost var s := r.View();
    status, runs := Call(r, hook, retSize, selfOnly, b);
    AnswerCalled(s, r.View(), r.current, m, hook, retSize, selfOnly, status, runs);
  }

  lemma AnswerCalled(s: State, s': State, k: Key, m: Module, hook: string, retSize: nat, selfOnly: bool, status: Status,
                     runs: seq<Module>)
    requires Answers(s, k, m, hook) && retSize <= MAX_RET
    requires Called(s, s', k, hook, retSize, selfOnly, status, runs)
    ensures status == Ok && m in runs && (selfOnly ==> runs[|runs| - 1] == m)
  {
  }

  method LoadBack(r: Runtime, e: Module, hook: string, ghost b: int) returns (m: Module)
    requires Ready(r, b) && b < LAST_GEN && IsVacant(r.table, r.current, e.path) && hook in r.hooks
    requires Aligned(r.View()) && r.current in r.tree && e.path !in r.deny[r.current].mods
    requires FreeAbove(r.View(), r.current, hook, e.path) && e.hasCtx && hook in e.exports
    modifies r`live, r`table, r`nextSerial, r`lists, r`cache
    ensures Ready(r, b + 1) && fresh(m) && m.path == e.path && r.live == old(r.live) + {m}
    ensures Answers(r.View(), r.current, m, hook)
  {
    ghost var s := r.View();
    StillAligned(r, b);
    SteadyAt(r, b);
    m := Load(r, e.path, e.hasCtx, e.image, e.exports, null, b);
    JoinedAnswers(s, r.View(), r.current, m, hook);
  }

  lemma JoinedAnswers(s: State, s': State, k: Key, m: Module, hook: string)
    requires Runs.Steady(s) && k in s.tree && m !in s.live && Joined(s, s', k, m) && hook in s.hooks
    requires m.hasCtx && hook in m.exports && FreeAbove(s, k, hook, m.path) && m.path !in s.deny[k].mods
    ensures Answers(s', k, m, hook)
  {
    JoinedRuns(s, s', k, m, hook, NumberOf(s.hooks, hook).value);
  }

  /** A call of the hook from region k is let through and runs m: in the exact-region scope, last of all. */
  ghost predicate Answers(s: State, k: Key, m: Module, hook: string) {
    && Aligned(s) && k in s.tree && hook in s.hooks && !HookRefused(s, k, hook)
    && var h := NumberOf(s.hooks, hook).value;
       m in Dispatched(s, k, h).1 && SelfRuns(s, k, h) != [] && SelfRuns(s, k, h)[|SelfRuns(s, k, h)| - 1] == m
  }

  lemma SteadyAt(r: Runtime, b: int)
    requires Sound(r, b) && b < LAST_GEN
    ensures Runs.Steady(r.View())
  {
    SoundIs(r, b);
    SteadyWithin(r.View(), b);
  }

  // ----- What a claim comes to

  /** Too wide a claim is refused as such, one with a bit below its width as malformed, any other succeeds. */
  lemma ClaimShapeCases(id: nat, plen: nat)
    requires IsWord(id)
    ensures plen > 64 ==> ClaimShape(id, plen) == TooBig
    ensures plen <= 64 && id % Pow2(64 - plen) != 0 ==> ClaimShape(id, plen) == Invalid
    ensures plen <= 64 && id % Pow2(64 - plen) == 0 ==> ClaimShape(id, plen) == Ok
  {
    if plen <= 64 { AgreesIsTruncation(id, Key(id, plen)); }
  }

  /** Claiming a region again without a handler leaves it the one it has. */
  method ClaimAgain(r: Runtime, k: Key, fn: nat, ghost b: int)
    requires Ready(r, b) && b + 1 < LAST_GEN && IsWord(k.id) && k.plen <= 64 && k.id % Pow2(64 - k.plen) == 0
    modifies r`tree, r`lists, r`deny, r`flag, r`cache, r`current, r`handlers
    ensures Ready(r, b + 2) && r.current == k && k in r.handlers && r.handlers[k] == fn
  {
    ClaimShapeCases(k.id, k.plen);
    var first := Claim(r, k.id, k.plen, Some(fn), b);
    var again := Claim(r, k.id, k.plen, None, b + 1);
  }

  /** A new region claimed without a handler has none: loads there need no claim, and no claim there succeeds. */
  method ClaimBare(r: Runtime, k: Key, bits: nat, answer: ClaimAnswer, ghost b: int) returns (status: Status)
    requires Ready(r, b) && b + 1 < LAST_GEN && IsWord(k.id) && k.plen <= 64 && k.id % Pow2(64 - k.plen) == 0
    requires k !in r.tree && 0 < bits <= 64
    modifies r`tree, r`lists, r`deny, r`flag, r`cache, r`current, r`handlers
    ensures Ready(r, b + 2) && k !in r.handlers && k !in r.required && status == Refused
  {
    ClaimShapeCases(k.id, k.plen);
    Unhandled(r, k, b);
    var ok := Claim(r, k.id, k.plen, None, b);
    Exists(r, k, b + 1);
    status := Grant(r, k, bits, answer, b + 1);
  }

  lemma Unhandled(r: Runtime, k: Key, b: int)
    requires Sound(r, b) && k !in r.tree
    ensures k !in r.handlers && k !in r.required
  {
    TidyIs(r.tree, r.handlers, r.required, r.hooks, r.adapters);
  }

  lemma Exists(r: Runtime, k: Key, b: int)
    requires Sound(r, b) && r.current == k
    ensures k in r.tree
  {
    SoundIs(r, b);
  }

  /** A load's claim, by cases: the bounds on what is asked, the parent, what its handler grants, and a free slot. */
  lemma ClaimStatusCases(t: Tree, parent: Key, bits: nat, answer: ClaimAnswer)
    requires Canonical(parent)
    ensures var status := ClaimStatus(t, parent, bits, answer);
      && (status == Invalid <==> bits == 0 || 64 < bits)
      && (status == NotFound <==> 0 < bits <= 64 && parent !in t)
      && (status == Refused <==>
            && 0 < bits <= 64 && parent in t
            && (answer == NoHandler || answer == Declines || answer.granted == 0 || 64 < answer.granted))
    ensures ClaimStatus(t, parent, bits, answer) in {Ok, NotFound, Invalid, TooBig, Refused}
    ensures 0 < bits <= 64 && parent in t && answer.Grants? && 0 < answer.granted <= 64 ==>
              var status, width := ClaimStatus(t, parent, bits, answer), parent.plen + answer.granted;
              && (width > 64 ==> status == TooBig)
              && (width < 64 ==> (status == Ok <==> exists k :: FreeInside(t.Keys, parent, answer.granted, k)))
              && (width == 64 && (exists k :: Usable(t.Keys, parent, answer.granted, k)) ==> status == Ok)
  {
    if 0 < bits <= 64 && parent in t && answer.Grants? && 0 < answer.granted <= 64 {
      if parent.plen + answer.granted < 64 { AllocFailsIffFull(t.Keys, parent, answer.granted); }
      if parent.plen + answer.granted == 64 { FullWidthEscapes(t.Keys, parent, answer.granted); }
    }
  }

  // ----- What a call comes to

  /** Some region strictly above k denies the hook. */
  ghost predicate DeniedAbove(s: State, k: Key, hook: string)
    requires Aligned(s)
  {
    exists a :: a in s.tree && a != k && IsUnder(s.tree, k, a) && hook in s.deny[a].hooks
  }

  /** What m must be to run in a call of the hook from region k. */
  ghost predicate Able(s: State, k: Key, m: Module, hook: string)
    requires Aligned(s)
  {
    && m.hasCtx && hook in m.exports
    && forall a :: a in s.tree && IsUnder(s.tree, k, a) ==> m.path !in s.deny[a].mods
  }

  /** After any run, whether a call goes through, and what its status says. */
  lemma CallStatus(ops: seq<Runs.Op>, s': State, k: Key, hook: string, retSize: nat, selfOnly: bool, status: Status,
                   runs: seq<Module>)
    requires |ops| < LAST_GEN && Called(Runs.Run(ops), s', k, hook, retSize, selfOnly, status, runs)
    ensures var s := Runs.Run(ops);
      && (hook !in s.hooks ==> status == NotFound && runs == [] && s' == s)
      && (hook in s.hooks && retSize > 4096 ==> status == TooBig && runs == [] && s' == s)
      && (hook in s.hooks && retSize <= 4096 && DeniedAbove(s, k, hook) ==> status == Refused && runs == [] && s' == s)
      && (hook in s.hooks && retSize <= 4096 && !DeniedAbove(s, k, hook) ==>
            (status == Ok && runs != []) || (status == NotFound && runs == []))
  {
    HookRefusedIff(ops, k, hook);
  }

  /** Who runs: in the exact-region scope, and in the subtree scope when nothing is cached. */
  lemma CallRuns(ops: seq<Runs.Op>, s': State, k: Key, hook: string, h: nat, retSize: nat, selfOnly: bool,
                 status: Status, runs: seq<Module>, m: Module)
    requires |ops| < LAST_GEN && Called(Runs.Run(ops), s', k, hook, retSize, selfOnly, status, runs)
    requires retSize <= 4096 && NumberOf(Runs.Run(ops).hooks, hook) == Some(h) && !DeniedAbove(Runs.Run(ops), k, hook)
    ensures var s := Runs.Run(ops);
      && (selfOnly ==> (m in runs <==> m in s.lists[k] && Able(s, k, m, hook)))
      && (!selfOnly && !IsFresh(s.cache[k], h) ==>
            (m in runs <==> (exists j :: j in Below(s.tree, k) && m in s.lists[j]) && Able(s, k, m, hook)))
      && (!selfOnly && m in runs ==>
            (exists j :: j in Below(s.tree, k) && m in s.lists[j]) && m.hasCtx && hook in m.exports)
  {
    var s := Runs.Run(ops);
    Runs.RunInv(ops);
    HookRefusedIff(ops, k, hook);
    KeepMember(s.lists[k], Denied(s, k), hook, m);
    DeniedPathsMember(s.tree, s.deny, k, m.path);
    if !selfOnly { SubtreeRuns(ops, k, hook, h, m); }
  }

  lemma SubtreeRuns(ops: seq<Runs.Op>, k: Key, hook: string, h: nat, m: Module)
    requires |ops| < LAST_GEN && Inv(Runs.Run(ops)) && k in Runs.Run(ops).tree
    requires h < |Runs.Run(ops).hooks| && Runs.Run(ops).hooks[h] == hook
    ensures var s := Runs.Run(ops); var runs := Dispatched(s, k, h).1;
      && (!IsFresh(s.cache[k], h) ==>
            (m in runs <==> (exists j :: j in Below(s.tree, k) && m in s.lists[j]) && Able(s, k, m, hook)))
      && (m in runs ==> (exists j :: j in Below(s.tree, k) && m in s.lists[j]) && m.hasCtx && hook in m.exports)
  {
    var s := Runs.Run(ops);
    DispatchRuns(s, k, h);
    History.RunsUnlessDenied(s, k, h, m);
    if IsFresh(s.cache[k], h) {
      VectorsAreBuilt(ops, k, h);
      assert CacheOkAt(s, k);
      KeepMember(Mods(s, k), BuiltUnder(ops, k, h), hook, m);
      SubtreeModsMember(s.tree, s.lists, k, m);
    }
  }

  /** A nested call finds what a call from its region comes to. */
  lemma NestedIsCall(s: State, k: Key, ask: Reentry.Ask)
    requires Inv(s) && k in s.tree && ask.h < |s.hooks| && NumberOf(s.hooks, s.hooks[ask.h]) == Some(ask.h)
    ensures exists status :: Called(s, Reentry.Found(s, k, ask).0, k, s.hooks[ask.h], 0, ask.selfOnly, status,
                                    Reentry.Found(s, k, ask).1)
  {
    var r := Reentry.Found(s, k, ask);
    var status := if HookRefused(s, k, s.hooks[ask.h]) then Refused else if r.1 == [] then NotFound else Ok;
    assert Called(s, r.0, k, s.hooks[ask.h], 0, ask.selfOnly, status, r.1);
  }
}
