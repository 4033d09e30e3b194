/** Sessions: any sequence of commands, what each of them does, and what holds after all of them. */
module Sessions {
  import opened Word
  import opened Prefix
  import opened Tree
  import opened Claims
  import opened Slots
  import opened ModuleEntry
  import opened Dispatch
  import opened Coherence
  import Runs
  import opened HostLemmas
  import opened Lifecycle
  import opened Tables
  import opened Host
  import opened Service

  /** What a host may ask for, one after the other. */
  datatype Command =
    | DoClaim(id: Word, plen: nat, fn: Option<nat>)
    | DoRequire(fn: Option<nat>)
    | DoGrant(bits: nat, answer: ClaimAnswer)
    | DoForbidHook(hook: string)
    | DoForbidModule(path: string)
    | DoLoad(path: string, hasCtx: bool, image: nat, exports: set<string>)
    | DoUnload(path: string)
    | DoRegister(hook: string, retSize: nat, adapter: Word)
    | DoCall(hook: string, retSize: nat, selfOnly: bool)

  /** What a command answers: its status, and the listeners a call ran. */
  datatype Answer = Answer(status: Status, runs: seq<Module>)

  /** The runtime's tables at one moment. */
  datatype Shot = Shot(view: State, table: Table, current: Key, handlers: map<Key, nat>, required: set<Key>,
                       adapters: map<string, Word>)

  ghost function Now(r: Runtime): Shot
    reads r
  {
    Shot(r.View(), r.table, r.current, r.handlers, r.required, r.adapters)
  }

  /** A slot is found for the grant, but not inside the parent. */
  predicate Strays(t: Tree, parent: Key, answer: ClaimAnswer) {
    answer.Grants? &&
    var k := Key(Alloc(t.Keys, parent, answer.granted), parent.plen + answer.granted);
    k.id != INVALID_ID && !(Canonical(k) && Contains(parent, k))
  }

  /** What each command does. Folded, see `Look`. */
  ghost predicate Obeyed(c: Command, x: Shot, y: Shot, a: Answer) {
    forall n {:trigger Look(n)} :: Look(n) ==> ObeyedBy(c, x, y, a)
  }

  lemma ObeyedIs(c: Command, x: Shot, y: Shot, a: Answer)
    ensures Obeyed(c, x, y, a) <==> ObeyedBy(c, x, y, a)
  {
    assert Look(0);
  }

  ghost predicate ObeyedBy(c: Command, x: Shot, y: Shot, a: Answer) {
    match c
    case DoClaim(id, plen, fn) =>
      && a.status == ClaimShape(id, plen)
      && y == x.(view := Runs.Step(x.view, Runs.Claim(Key(id, plen))),
                 current := if a.status == Ok then Key(id, plen) else x.current,
                 handlers := if a.status == Ok then Handled(x.handlers, Key(id, plen), fn) else x.handlers)
    case DoRequire(fn) =>
      y == x.(handlers := if fn.Some? then x.handlers[x.current := fn.value] else x.handlers - {x.current},
              required := if fn.Some? then x.required + {x.current} else x.required - {x.current})
    case DoGrant(bits, answer) =>
      if Strays(x.view.tree, x.current, answer) then y == x else GrantedHere(x, y, bits, answer, a.status)
    case DoForbidHook(hook) => y == x.(view := Runs.Step(x.view, Runs.ForbidHook(x.current, hook)))
    case DoForbidModule(path) => y == x.(view := Runs.Step(x.view, Runs.ForbidModule(x.current, path)))
    case DoLoad(path, hasCtx, image, exports) =>
      if !IsVacant(x.table, x.current, path) || exists m :: m in x.table && m.image == image then y == x
      else exists m :: m in y.table && LoadedAs(x, y, m, path, hasCtx, image, exports)
    case DoUnload(path) =>
      if IsVacant(x.table, x.current, path) then y == x && a.status == NotFound
      else a.status == Ok && exists e :: e in x.table && UnloadedAs(x, y, e, path)
    case DoRegister(hook, retSize, adapter) =>
      && a.status == (if retSize > MAX_RET then TooBig else Ok)
      && y == if a.status == Ok && hook !in x.view.hooks
              then x.(view := Runs.Step(x.view, Runs.Mint(hook)), adapters := x.adapters[hook := adapter])
              else x
    case DoCall(hook, retSize, selfOnly) =>
      && y == x.(view := y.view)
      && Called(x.view, y.view, x.current, hook, retSize, selfOnly, a.status, a.runs)
  }

  /** m is the one new entry, in the current region behind the others. */
  ghost predicate LoadedAs(x: Shot, y: Shot, m: Module, path: string, hasCtx: bool, image: nat, exports: set<string>) {
    && IsEntry(m, path, hasCtx, image, exports, null) && m !in x.table
    && Joined(x.view, y.view, x.current, m)
    && y == x.(view := y.view, table := x.table[m := Entry(1, x.current)])
  }

  /** e, the entry of that path in the current region, is gone. */
  ghost predicate UnloadedAs(x: Shot, y: Shot, e: Module, path: string) {
    && e in x.table && e.path == path && x.table[e].home == x.current
    && Leaves(x.view, y.view, e, x.current)
    && y == x.(view := y.view, table := x.table - {e})
  }

  /** Between two commands: the runtime is ready, and no two entries share an object. */
  ghost predicate Between(r: Runtime, b: int)
    reads r, r.live
  {
    Ready(r, b) && OnePerImage(r.table)
  }

  /** The entry for a path in the current region. */
  method Find(r: Runtime, path: string, ghost b: int) returns (e: Option<Module>)
    requires Sound(r, b)
    ensures e.None? ==> IsVacant(r.table, r.current, path)
    ensures e.Some? ==>
              e.value in r.table && e.value in r.live && e.value.path == path && r.table[e.value].home == r.current
  {
    SoundIs(r, b);
    SeatedIs(r.tree, r.lists, r.table, r.live, r.nextSerial);
    if x :| x in r.table && x.path == path && r.table[x].home == r.current {
      e := Some(x);
    } else {
      e := None;
    }
  }

  lemma AnyBits(t: Tree, parent: Key, bits: nat, answer: ClaimAnswer, handled: bool)
    requires ClaimStatus(t, parent, bits, if handled then answer else NoHandler) == Ok
    ensures ClaimStatus(t, parent, 1, answer) == Ok
  {
  }

  // ----- One command each

  method ObeyClaim(r: Runtime, c: Command, ghost b: int) returns (a: Answer)
    requires Between(r, b) && b < LAST_GEN && c.DoClaim?
    modifies r
    ensures Between(r, b + 1) && r.live == old(r.live) && Obeyed(c, old(Now(r)), Now(r), a)
  {
    ghost var x := Now(r);
    var status := Claim(r, c.id, c.plen, c.fn, b);
    a := Answer(status, []);
    ObeyedIs(c, x, Now(r), a);
  }

  method ObeyRequire(r: Runtime, c: Command, ghost b: int) returns (a: Answer)
    requires Between(r, b) && c.DoRequire?
    modifies r
    ensures Between(r, b + 1) && r.live == old(r.live) && Obeyed(c, old(Now(r)), Now(r), a)
  {
    ghost var x := Now(r);
    SoundMore(r, b);
    Require(r, c.fn, b + 1);
    a := Answer(Ok, []);
    ObeyedIs(c, x, Now(r), a);
  }

  /** A grant that would leave its parent is not made. */
  method ObeyGrant(r: Runtime, c: Command, ghost b: int) returns (a: Answer)
    requires Between(r, b) && b < LAST_GEN && c.DoGrant?
    modifies r
    ensures Between(r, b + 1) && r.live == old(r.live) && Obeyed(c, old(Now(r)), Now(r), a)
  {
    ghost var x := Now(r);
    if Strays(r.tree, r.current, c.answer) {
      SoundMore(r, b);
      a := Answer(Refused, []);
      ObeyedIs(c, x, x, a);
    } else {
      var status := GrantInside(r, c.bits, c.answer, b);
      a := Answer(status, []);
      GrantObeyed(c, x, Now(r), a);
    }
  }

  /** What a grant in the current region does. */
  ghost predicate GrantedHere(x: Shot, y: Shot, bits: nat, answer: ClaimAnswer, status: Status) {
    && status == ClaimStatus(x.view.tree, x.current, bits, if x.current in x.handlers then answer else NoHandler)
    && (status != Ok ==> y == x)
    && (status == Ok ==>
          && y == x.(view := y.view, current := y.current)
          && Granted(x.view, y.view, x.current, answer.granted, y.current))
  }

  method GrantInside(r: Runtime, bits: nat, answer: ClaimAnswer, ghost b: int) returns (status: Status)
    requires Between(r, b) && b < LAST_GEN && !Strays(r.tree, r.current, answer)
    modifies r
    ensures Between(r, b + 1) && r.live == old(r.live) && GrantedHere(old(Now(r)), Now(r), bits, answer, status)
  {
    StaysBy(r.tree, r.current, bits, answer, r.current in r.handlers);
    status := Grant(r, r.current, bits, answer, b);
  }

  lemma GrantObeyed(c: Command, x: Shot, y: Shot, a: Answer)
    requires c.DoGrant? && !Strays(x.view.tree, x.current, c.answer) && GrantedHere(x, y, c.bits, c.answer, a.status)
    ensures Obeyed(c, x, y, a)
  {
    ObeyedIs(c, x, y, a);
  }

  lemma StaysBy(t: Tree, parent: Key, bits: nat, answer: ClaimAnswer, handled: bool)
    requires !Strays(t, parent, answer)
    ensures ClaimStatus(t, parent, bits, if handled then answer else NoHandler) == Ok ==>
              StaysInside(t.Keys, parent, answer.granted)
  {
    if ClaimStatus(t, parent, bits, if handled then answer else NoHandler) == Ok {
      AnyBits(t, parent, bits, answer, handled);
      ContainedStays(t.Keys, parent, answer.granted);
    }
  }

  method ObeyForbidHook(r: Runtime, c: Command, ghost b: int) returns (a: Answer)
    requires Between(r, b) && b < LAST_GEN && c.DoForbidHook?
    modifies r
    ensures Between(r, b + 1) && r.live == old(r.live) && Obeyed(c, old(Now(r)), Now(r), a)
  {
    ghost var x := Now(r);
    ForbidHook(r, c.hook, b);
    a := Answer(Ok, []);
    DenialObeyed(c, x, Now(r), a);
  }

  method ObeyForbidModule(r: Runtime, c: Command, ghost b: int) returns (a: Answer)
    requires Between(r, b) && b < LAST_GEN && c.DoForbidModule?
    modifies r
    ensures Between(r, b + 1) && r.live == old(r.live) && Obeyed(c, old(Now(r)), Now(r), a)
  {
    ghost var x := Now(r);
    ForbidModule(r, c.path, b);
    a := Answer(Ok, []);
    DenialObeyed(c, x, Now(r), a);
  }

  lemma DenialObeyed(c: Command, x: Shot, y: Shot, a: Answer)
    requires c.DoForbidHook? || c.DoForbidModule?
    requires y == x.(view := Runs.Step(x.view, if c.DoForbidHook? then Runs.ForbidHook(x.current, c.hook)
                                               else Runs.ForbidModule(x.current, c.path)))
    ensures Obeyed(c, x, y, a)
  {
    ObeyedIs(c, x, y, a);
  }

  /** A second entry of a loaded object is not loaded. */
  method ObeyLoad(r: Runtime, c: Command, ghost b: int) returns (a: Answer)
    requires Between(r, b) && b < LAST_GEN && c.DoLoad?
    modifies r
    ensures Between(r, b + 1) && (forall m :: m in r.live ==> m in old(r.live) || fresh(m))
    ensures Obeyed(c, old(Now(r)), Now(r), a)
  {
    ghost var x := Now(r);
    a := Answer(Ok, []);
    var ok := MayLoad(r, c, b);
    if !ok {
      SoundMore(r, b);
      SkipObeyed(c, x, a);
    } else {
      var m := LoadFresh(r, c, b);
      LoadObeyed(c, x, Now(r), m, a);
    }
  }

  method MayLoad(r: Runtime, c: Command, ghost b: int) returns (ok: bool)
    requires Sound(r, b) && c.DoLoad?
    ensures ok <==> MayLoadIn(Now(r), c)
  {
    var e := Find(r, c.path, b);
    ok := e.None? && !exists m :: m in r.table && m.image == c.image;
  }

  /** The path is not loaded in the current region, nor its object anywhere. */
  ghost predicate MayLoadIn(x: Shot, c: Command)
    requires c.DoLoad?
  {
    IsVacant(x.table, x.current, c.path) && !exists m :: m in x.table && m.image == c.image
  }

  lemma SkipObeyed(c: Command, x: Shot, a: Answer)
    requires c.DoLoad? && !MayLoadIn(x, c)
    ensures Obeyed(c, x, x, a)
  {
    ObeyedIs(c, x, x, a);
  }

  lemma LoadObeyed(c: Command, x: Shot, y: Shot, m: Module, a: Answer)
    requires c.DoLoad? && MayLoadIn(x, c)
    requires LoadedAs(x, y, m, c.path, c.hasCtx, c.image, c.exports)
    ensures Obeyed(c, x, y, a)
  {
    assert m in y.table;
    ObeyedIs(c, x, y, a);
  }

  method LoadFresh(r: Runtime, c: Command, ghost b: int) returns (m: Module)
    requires Between(r, b) && b < LAST_GEN && c.DoLoad? && MayLoadIn(Now(r), c)
    modifies r`live, r`table, r`nextSerial, r`lists, r`cache
    ensures Between(r, b + 1) && fresh(m) && r.live == old(r.live) + {m}
    ensures LoadedAs(old(Now(r)), Now(r), m, c.path, c.hasCtx, c.image, c.exports)
  {
    ghost var tb := r.table;
    m := Load(r, c.path, c.hasCtx, c.image, c.exports, null, b);
    OneMoreImage(tb, m, Entry(1, r.current));
  }

  lemma OneMoreImage(tb: Table, m: Module, entry: Entry)
    requires OnePerImage(tb) && !exists n :: n in tb && n.image == m.image
    ensures m !in tb && OnePerImage(tb[m := entry])
  {
  }

  method ObeyUnload(r: Runtime, c: Command, ghost b: int) returns (a: Answer)
    requires Between(r, b) && b < LAST_GEN && c.DoUnload?
    modifies r, r.live
    ensures Between(r, b + 1) && r.live <= old(r.live) && Obeyed(c, old(Now(r)), Now(r), a)
  {
    ghost var x := Now(r);
    var e := Find(r, c.path, b);
    if e.None? {
      SoundMore(r, b);
      a := Answer(NotFound, []);
      ObeyedIs(c, x, x, a);
    } else {
      UnloadFound(r, e.value, c.path, b);
      a := Answer(Ok, []);
      UnloadObeyed(c, x, Now(r), e.value, a);
    }
  }

  lemma UnloadObeyed(c: Command, x: Shot, y: Shot, e: Module, a: Answer)
    requires c.DoUnload? && UnloadedAs(x, y, e, c.path) && a.status == Ok
    ensures Obeyed(c, x, y, a)
  {
    ObeyedIs(c, x, y, a);
  }

  method UnloadFound(r: Runtime, e: Module, path: string, ghost b: int)
    requires Between(r, b) && b < LAST_GEN
    requires e in r.table && e in r.live && e.path == path && r.table[e].home == r.current
    modifies r`lists, r`deny, r`cache, r`live, r`table, r.live
    ensures Between(r, b + 1) && r.live <= old(r.live) && UnloadedAs(old(Now(r)), Now(r), e, path)
  {
    Unload(r, e, b);
  }

  method ObeyRegister(r: Runtime, c: Command, ghost b: int) returns (a: Answer)
    requires Between(r, b) && c.DoRegister?
    modifies r, r.live
    ensures Between(r, b + 1) && r.live == old(r.live) && Obeyed(c, old(Now(r)), Now(r), a)
  {
    ghost var x := Now(r);
    SoundMore(r, b);
    var status, ret := Register(r, c.hook, c.retSize, c.adapter, b + 1);
    a := Answer(status, []);
    RegisterObeyed(c, x, Now(r), a);
  }

  lemma RegisterObeyed(c: Command, x: Shot, y: Shot, a: Answer)
    requires c.DoRegister? && a.status == if c.retSize > MAX_RET then TooBig else Ok
    requires y.view == if a.status == Ok then Runs.Step(x.view, Runs.Mint(c.hook)) else x.view
    requires y == x.(view := y.view, adapters := y.adapters)
    requires y.adapters == if a.status == Ok && c.hook !in x.view.hooks then x.adapters[c.hook := c.adapter]
                           else x.adapters
    ensures Obeyed(c, x, y, a)
  {
    ObeyedIs(c, x, y, a);
  }

  method ObeyCall(r: Runtime, c: Command, ghost b: int) returns (a: Answer)
    requires Between(r, b) && c.DoCall?
    modifies r, r.live
    ensures Between(r, b + 1) && r.live == old(r.live) && Obeyed(c, old(Now(r)), Now(r), a)
  {
    ghost var x := Now(r);
    SoundMore(r, b);
    var status, runs := Call(r, c.hook, c.retSize, c.selfOnly, b + 1);
    a := Answer(status, runs);
    ObeyedIs(c, x, Now(r), a);
  }

  // ----- What shows of each afterwards

  /** A claim of a legal shape: the region is there and current, with the handler it brings. */
  lemma ClaimedShows(c: Command, x: Shot, y: Shot, a: Answer)
    requires Inv(x.view) && Obeyed(c, x, y, a) && c.DoClaim? && c.plen <= 64 && c.id % Pow2(64 - c.plen) == 0
    ensures a.status == Ok && y.current == Key(c.id, c.plen) && y.view.tree.Keys == x.view.tree.Keys + {y.current}
    ensures c.fn.Some? ==> y.current in y.handlers && y.handlers[y.current] == c.fn.value
  {
    ObeyedIs(c, x, y, a);
    ClaimShows(x.view, c.id, c.plen);
  }

  /** A denial is in force in the current region. */
  lemma DenialShows(c: Command, x: Shot, y: Shot, a: Answer)
    requires Inv(x.view) && x.current in x.view.tree && Obeyed(c, x, y, a)
    ensures c.DoForbidHook? ==> x.current in y.view.deny && c.hook in y.view.deny[x.current].hooks
    ensures c.DoForbidModule? ==> x.current in y.view.deny && c.path in y.view.deny[x.current].mods
  {
    ObeyedIs(c, x, y, a);
  }

  /** A gate stands or not, a name has its number or was refused one. */
  lemma GateShows(c: Command, x: Shot, y: Shot, a: Answer)
    requires Inv(x.view) && Obeyed(c, x, y, a)
    ensures c.DoRequire? ==>
              && (x.current in y.required <==> c.fn.Some?) && (x.current in y.handlers <==> c.fn.Some?)
              && (c.fn.Some? ==> y.handlers[x.current] == c.fn.value)
    ensures c.DoRegister? && c.retSize <= 4096 ==> a.status == Ok && c.hook in y.view.hooks
    ensures c.DoRegister? && c.retSize > 4096 ==> a.status == TooBig && y == x
  {
    ObeyedIs(c, x, y, a);
  }

  lemma ClaimShows(s: State, id: Word, plen: nat)
    requires Inv(s) && plen <= 64 && id % Pow2(64 - plen) == 0
    ensures ClaimShape(id, plen) == Ok
    ensures Runs.Step(s, Runs.Claim(Key(id, plen))).tree.Keys == s.tree.Keys + {Key(id, plen)}
  {
    var k := Key(id, plen);
    AgreesIsTruncation(id, k);
    if k !in s.tree { NearestAncestorFound(s.tree, k); }
  }

  /** A loaded path is there afterwards, an unloaded one is not. */
  lemma ModulesShow(c: Command, x: Shot, y: Shot, a: Answer)
    requires Obeyed(c, x, y, a) && Distinct(x.table)
    ensures c.DoLoad? && MayLoadIn(x, c) ==>
              exists m :: && m in y.table && m !in x.table && m.path == c.path && m.hasCtx == c.hasCtx
                          && m.image == c.image && m.exports == c.exports && y.table[m] == Entry(1, x.current)
    ensures c.DoUnload? ==> IsVacant(y.table, y.current, c.path)
    ensures c.DoUnload? ==> (a.status == Ok <==> !IsVacant(x.table, x.current, c.path))
  {
    ObeyedIs(c, x, y, a);
    if c.DoLoad? && MayLoadIn(x, c) {
      var m :| m in y.table && LoadedAs(x, y, m, c.path, c.hasCtx, c.image, c.exports);
    }
    if c.DoUnload? && !IsVacant(x.table, x.current, c.path) {
      var e :| e in x.table && UnloadedAs(x, y, e, c.path);
      forall z | z in y.table ensures z.path != c.path || y.table[z].home != y.current {
        if z.path == c.path && x.table[z].home == x.current { assert SamePlace(x.table, z, e); }
      }
    }
  }

  // ----- Any number of them

  method Obey(r: Runtime, c: Command, ghost b: int) returns (a: Answer)
    requires Between(r, b) && b < LAST_GEN
    modifies r, r.live
    ensures Between(r, b + 1) && (forall m :: m in r.live ==> m in old(r.live) || fresh(m))
    ensures Obeyed(c, old(Now(r)), Now(r), a)
  {
    match c {
      case DoClaim(_, _, _) => a := ObeyClaim(r, c, b);
      case DoRequire(_) => a := ObeyRequire(r, c, b);
      case DoGrant(_, _) => a := ObeyGrant(r, c, b);
      case DoForbidHook(_) => a := ObeyForbidHook(r, c, b);
      case DoForbidModule(_) => a := ObeyForbidModule(r, c, b);
      case DoLoad(_, _, _, _) => a := ObeyLoad(r, c, b);
      case DoUnload(_) => a := ObeyUnload(r, c, b);
      case DoRegister(_, _, _) => a := ObeyRegister(r, c, b);
      case DoCall(_, _, _) => a := ObeyCall(r, c, b);
    }
  }

  /** Each command is obeyed, from one moment to the next. */
  ghost predicate AllObeyed(cs: seq<Command>, shots: seq<Shot>, answers: seq<Answer>) {
    && |shots| == |answers| + 1 && |answers| <= |cs|
    && forall i :: 0 <= i < |answers| ==> Obeyed(cs[i], shots[i], shots[i + 1], answers[i])
  }

  lemma OneMore(cs: seq<Command>, shots: seq<Shot>, answers: seq<Answer>, y: Shot, a: Answer)
    requires AllObeyed(cs, shots, answers) && |answers| < |cs|
    requires Obeyed(cs[|answers|], shots[|answers|], y, a)
    ensures AllObeyed(cs, shots + [y], answers + [a])
  {
  }

  /**
   * Whatever is asked for, in whatever order, in fewer than 2^64 - 1 commands: each command does what it should, tables
   * and caches are in order, and every live module's memo agrees with the resolver and has every minted hook resolved.
   */
  method Session(cs: seq<Command>) returns (r: Runtime, answers: seq<Answer>, ghost shots: seq<Shot>)
    requires |cs| < LAST_GEN
    ensures fresh(r) && Between(r, 1 + |cs|) && |answers| == |cs| && AllObeyed(cs, shots, answers)
    ensures shots[0].view == Runs.START && shots[|cs|] == Now(r)
  {
    r := Start();
    answers, shots := [], [Now(r)];
    for i := 0 to |cs|
      invariant fresh(r) && fresh(r.live) && Between(r, 1 + i) && |answers| == i
      invariant AllObeyed(cs, shots, answers) && shots[0].view == Runs.START && shots[i] == Now(r)
    {
      var a := Obey(r, cs[i], 1 + i);
      OneMore(cs, shots, answers, Now(r), a);
      answers, shots := answers + [a], shots + [Now(r)];
    }
  }
}
