/** What a load, an unload and a reload do to the tables, and why. */
module Loading {
  import opened Word
  import opened Prefix
  import opened Tree
  import opened Claims
  import opened Slots
  import opened ModuleEntry
  import opened Dispatch
  import opened Runs
  import opened Lifecycle
  import opened HostLemmas
  import opened Tables
  import opened Orders

  // ----- Requests

  /** What a load asks for and how the module answers: its object, its claim and what its install does. */
  datatype Request = Request(
    path: string, image: nat, exports: set<string>, hasCtx: bool,
    opens: bool, abiOk: bool, claim: Option<nat>, answer: ClaimAnswer, hasInstall: bool, install: seq<InstallStep>)

  /** Calls an install may make. */
  datatype InstallStep =
    | LoadModule(req: Request)
    | UnloadModule(path: string)
    | ReloadModule(req: Request)
    | ClaimRegion(id: Word, plen: nat, handler: bool)
    | RequireClaim(handler: bool)
    | DenyHook(hook: string)
    | DenyModule(path: string)
    | RegisterHook(hook: string)
    | CallHook(number: nat)

  /** The paths that some step, at whatever depth, names to unload or reload. */
  function Named(steps: seq<InstallStep>): set<string>
    decreases steps, 1
  {
    if steps == [] then {} else NamedBy(steps[0]) + Named(steps[1..])
  }

  function NamedBy(step: InstallStep): set<string>
    decreases step, 0
  {
    match step
    case LoadModule(req) => Named(req.install)
    case UnloadModule(path) => {path}
    case ReloadModule(req) => {req.path} + Named(req.install)
    case _ => {}
  }

  lemma {:induction false} NamedAt(steps: seq<InstallStep>, i: nat)
    requires i < |steps|
    ensures NamedBy(steps[i]) <= Named(steps)
    decreases |steps|
  {
    if i > 0 { NamedAt(steps[1..], i - 1); }
  }

  /** No step, at whatever depth, reloads. */
  predicate Calm(steps: seq<InstallStep>)
    decreases steps, 1
  {
    steps == [] || (CalmStep(steps[0]) && Calm(steps[1..]))
  }

  predicate CalmStep(step: InstallStep)
    decreases step, 0
  {
    !step.ReloadModule? && (step.LoadModule? ==> Calm(step.req.install))
  }

  lemma {:induction false} CalmAt(steps: seq<InstallStep>, i: nat)
    requires i < |steps| && Calm(steps)
    ensures CalmStep(steps[i])
    decreases |steps|
  {
    if i > 0 { CalmAt(steps[1..], i - 1); }
  }

  /** The regions with a claim handler, and those that demand a claim of every module loaded there. */
  datatype Gates = Gates(handled: set<Key>, required: set<Key>)

  const OPEN: Gates := Gates({}, {})

  predicate Ungated(gates: Gates, req: Request, k: Key) {
    req.claim.None? || (k !in gates.handled && k !in gates.required)
  }

  /** What the claim gate of region k answers. */
  function GateStatus(gates: Gates, req: Request, t: Tree, k: Key): Status {
    if req.claim.None? then (if k in gates.required then Refused else Ok)
    else if k in gates.handled then ClaimStatus(t, k, req.claim.value, req.answer)
    else if k in gates.required then ClaimStatus(t, k, req.claim.value, NoHandler)
    else Ok
  }

  /** What comes of loading a module into region k that has no entry of its path yet. */
  function LoadStatus(gates: Gates, req: Request, t: Tree, k: Key): Status {
    if req.hasCtx && !req.abiOk then AbiMismatch
    else if GateStatus(gates, req, t, k) != Ok then GateStatus(gates, req, t, k)
    else if !req.hasInstall then NotFound
    else Ok
  }

  // ----- The books

  /**
   * Regions, lists, module table and gates, the age of the next entry, the modules some unload has removed, and whether
   * a reload has ever put an entry behind one that was gone: from then on the code has written to freed memory.
   */
  datatype Books = Books(tree: Tree, lists: Lists, table: Table, gates: Gates, nextSerial: nat, gone: set<Module>,
                         stray: bool)

  /** Folded, see `Look`. */
  ghost predicate Balanced(b: Books) {
    forall n {:trigger Look(n)} :: Look(n) ==> InBalance(b)
  }

  lemma BalancedIs(b: Books)
    ensures Balanced(b) <==> InBalance(b)
  {
    assert Look(0);
  }

  /** A tree, a list for each region, and a table that fits them in which every entry has a reference. */
  ghost predicate InBalance(b: Books) {
    && Shape(b.tree) && b.lists.Keys == b.tree.Keys
    && Fits(b.tree, b.lists, b.table, b.nextSerial) && Counted(b.table, 0)
    && b.gates.handled <= b.tree.Keys && b.gates.required <= b.tree.Keys
    && forall x :: x in b.gone ==> x !in b.table && x.serial < b.nextSerial
  }

  /** Every entry at least this old has a reference. */
  ghost predicate Counted(tb: Table, serial: nat) {
    forall m :: m in tb && m.serial >= serial ==> tb[m].refs > 0
  }

  predicate IsHere(tb: Table, k: Key, path: string, e: Module) {
    e in tb && e.path == path && tb[e].home == k
  }

  /** No entry of that path in region k. */
  ghost predicate Vacant(tb: Table, k: Key, path: string) {
    forall m :: m in tb ==> !IsHere(tb, k, path, m)
  }

  lemma OneHere(b: Books, k: Key, path: string, x: Module, y: Module)
    requires Balanced(b) && IsHere(b.table, k, path, x) && IsHere(b.table, k, path, y)
    ensures x == y
  {
    BalancedIs(b);
    assert SamePlace(b.table, x, y);
  }

  // ----- What any sequence of calls leaves alone

  /** Neither a nor a loader above it has one of the paths. */
  ghost predicate Safe(a: Module, paths: set<string>)
    decreases a.serial
  {
    a.path !in paths && (a.loader != null && a.loader.serial < a.serial ==> Safe(a.loader, paths))
  }

  lemma {:induction false} SafeShrinks(a: Module, paths: set<string>, fewer: set<string>)
    requires Safe(a, paths) && fewer <= paths
    ensures Safe(a, fewer)
    decreases a.serial
  {
    if a.loader != null && a.loader.serial < a.serial { SafeShrinks(a.loader, paths, fewer); }
  }

  lemma {:induction false} SafeNone(a: Module)
    ensures Safe(a, {})
    decreases a.serial
  {
    if a.loader != null && a.loader.serial < a.serial { SafeNone(a.loader); }
  }

  /** Unloading a module by one of the paths never reaches a safe one. */
  lemma {:induction false} SafeNotDoomed(tb: Table, e: Module, a: Module, paths: set<string>)
    requires Safe(a, paths) && e.path in paths
    ensures !Doomed(tb, e, a)
    decreases a.serial
  {
    if Doomed(tb, e, a) {
      DoomedStep(tb, e, a);
      SafeNotDoomed(tb, e, a.loader, paths);
    }
  }

  predicate IsAt(lists: Lists, k: Key, m: Module) {
    k in lists && m in lists[k]
  }

  /** Every loaded module is linked at its home. */
  ghost predicate AllLinked(b: Books) {
    forall m :: m in b.table ==> IsAt(b.lists, b.table[m].home, m)
  }

  /**
   * What any sequence of calls leaves alone, as long as no place was lost: no region goes, no entry moves or comes
   * back, only an unload removes one, and never one that is safe from the paths.
   */
  ghost predicate Carries(b: Books, b': Books, paths: set<string>) {
    && (forall k :: k in b.tree ==> k in b'.tree)
    && b.nextSerial <= b'.nextSerial && (b.stray ==> b'.stray)
    && (!b'.stray ==> Keeps(b, b', paths))
  }

  ghost predicate Keeps(b: Books, b': Books, paths: set<string>) {
    && (forall m :: m in b'.table && m.serial < b.nextSerial ==> m in b.table && b'.table[m].home == b.table[m].home)
    && b.gone <= b'.gone && (forall a :: a in b.table && a !in b'.table ==> a in b'.gone)
    && (forall a {:trigger Safe(a, paths)} :: a in b.table && Safe(a, paths) ==> a !in b'.gone)
    && (AllLinked(b) ==> AllLinked(b') && KeepsOrder(b, b'))
  }

  /** In every region the old modules stand as they did, less those an unload has removed. */
  ghost predicate KeepsOrder(b: Books, b': Books) {
    forall n {:trigger Look(n)} :: Look(n) ==>
      forall k :: k in b.lists ==> k in b'.lists && InOrder(b.lists[k], b'.lists[k], b.nextSerial, b'.gone)
  }

  ghost predicate InOrder(ms: seq<Module>, ms': seq<Module>, n: nat, gone: set<Module>) {
    Olds(ms', n) == Without(ms, gone)
  }

  lemma KeepsOrderIs(b: Books, b': Books)
    ensures KeepsOrder(b, b') <==>
            forall k :: k in b.lists ==> k in b'.lists && InOrder(b.lists[k], b'.lists[k], b.nextSerial, b'.gone)
  {
    assert Look(0);
  }

  /** Where only new modules join, nothing moves. */
  lemma NewOnly(b: Books, b': Books)
    requires Balanced(b) && b'.gone == b.gone
    requires forall k :: k in b.lists ==>
               k in b'.lists && Olds(b'.lists[k], b.nextSerial) == Olds(b.lists[k], b.nextSerial)
    ensures KeepsOrder(b, b')
  {
    forall k | k in b.lists ensures InOrder(b.lists[k], b'.lists[k], b.nextSerial, b'.gone) { ListStays(b, k); }
    KeepsOrderIs(b, b');
  }

  lemma CarriesOn(b: Books, b': Books, b'': Books, paths: set<string>)
    requires Carries(b, b', paths) && Carries(b', b'', paths)
    ensures Carries(b, b'', paths)
  {
    if !b''.stray { KeepsOn(b, b', b'', paths); }
  }

  lemma KeepsOn(b: Books, b': Books, b'': Books, paths: set<string>)
    requires Keeps(b, b', paths) && Keeps(b', b'', paths) && b.nextSerial <= b'.nextSerial
    ensures Keeps(b, b'', paths)
  {
    forall a | a in b.table && Safe(a, paths) ensures a !in b''.gone {
      assert a in b'.table;
    }
    if AllLinked(b) { OrderOn(b, b', b''); }
  }

  lemma OrderOn(b: Books, b': Books, b'': Books)
    requires KeepsOrder(b, b') && KeepsOrder(b', b'') && b.nextSerial <= b'.nextSerial && b'.gone <= b''.gone
    ensures KeepsOrder(b, b'')
  {
    KeepsOrderIs(b, b');
    KeepsOrderIs(b', b'');
    forall k | k in b.lists ensures k in b''.lists && InOrder(b.lists[k], b''.lists[k], b.nextSerial, b''.gone) {
      assert InOrder(b'.lists[k], b''.lists[k], b'.nextSerial, b''.gone);
      OldsOlds(b''.lists[k], b.nextSerial, b'.nextSerial);
      OldsWithout(b'.lists[k], b.nextSerial, b''.gone);
      WithoutTwice(b.lists[k], b'.gone, b''.gone);
      assert b'.gone + b''.gone == b''.gone;
    }
    KeepsOrderIs(b, b'');
  }

  lemma CarriesMore(b: Books, b': Books, paths: set<string>, more: set<string>)
    requires Carries(b, b', paths) && paths <= more
    ensures Carries(b, b', more)
  {
    forall a | a in b.table && Safe(a, more) ensures Safe(a, paths) {
      SafeShrinks(a, more, paths);
    }
  }

  /** Lists whose modules are old and loaded stay as they are when nothing is removed. */
  lemma ListStays(b: Books, k: Key)
    requires Balanced(b) && k in b.lists
    ensures Olds(b.lists[k], b.nextSerial) == b.lists[k] && Without(b.lists[k], b.gone) == b.lists[k]
  {
    BalancedIs(b);
    OldsAll(b.lists[k], b.nextSerial);
    WithoutNone(b.lists[k], b.gone);
  }

  /** Nothing is lost: regions, links in front of the old ends, entries with their homes and references. */
  ghost predicate Grows(b: Books, b': Books) {
    && b'.stray == b.stray && (forall k :: k in b.tree ==> k in b'.tree)
    && (!b.stray ==>
          && (forall k :: k in b.lists ==> k in b'.lists && b.lists[k] <= b'.lists[k])
          && (forall m :: m in b.table ==>
                m in b'.table && b'.table[m].home == b.table[m].home && b.table[m].refs <= b'.table[m].refs))
  }

  lemma GrowsOn(b: Books, b': Books, b'': Books)
    requires Grows(b, b') && Grows(b', b'')
    ensures Grows(b, b'')
  {
  }

  lemma SameBooks(b: Books)
    requires Balanced(b)
    ensures Carries(b, b, {}) && Grows(b, b)
  {
    BalancedIs(b);
    NewOnly(b, b);
  }

  // ----- Single changes that keep the books balanced

  lemma HomeListed(b: Books, m: Module)
    requires Balanced(b) && m in b.table
    ensures b.table[m].home in b.tree && b.table[m].home in b.lists && NoDup(b.lists[b.table[m].home])
  {
    BalancedIs(b);
    assert NoDup(b.lists[b.table[m].home]);
  }

  /** The books with one more region. */
  ghost function Extended(b: Books, p: Key, k: Key): Books
    requires p in b.tree
  {
    b.(tree := Attach(b.tree, p, k), lists := b.lists[k := []])
  }

  lemma RegionBooks(b: Books, p: Key, k: Key)
    requires Balanced(b) && Hangable(b.tree, p, k)
    ensures Balanced(Extended(b, p, k)) && k !in b.lists
  {
    BalancedIs(b);
    AttachKeepsShape(b.tree, p, k);
    FitsMoreRegions(b.tree, Attach(b.tree, p, k), b.lists, k, b.table, b.nextSerial);
    BalancedIs(Extended(b, p, k));
  }

  lemma RegionCarries(b: Books, p: Key, k: Key)
    requires Balanced(b) && Hangable(b.tree, p, k)
    ensures Carries(b, Extended(b, p, k), {}) && Grows(b, Extended(b, p, k))
  {
    RegionBooks(b, p, k);
    NewOnly(b, Extended(b, p, k));
    NothingRemoved(b, Extended(b, p, k));
  }

  /** Where the table only grows by new entries and nothing counts as removed, all of Carries is left to the lists. */
  lemma NothingRemoved(b: Books, b': Books)
    requires Balanced(b) && b'.gone == b.gone && b.nextSerial <= b'.nextSerial && b'.stray == b.stray
    requires forall k :: k in b.tree ==> k in b'.tree
    requires forall m :: m in b.table ==> m in b'.table && b'.table[m].home == b.table[m].home
    requires forall m :: m in b'.table && m.serial < b.nextSerial ==> m in b.table
    requires KeepsOrder(b, b') && (AllLinked(b) ==> AllLinked(b'))
    ensures Carries(b, b', {})
  {
    BalancedIs(b);
  }

  lemma GateBooks(b: Books, g: Gates, k: Key)
    requires Balanced(b) && k in b.tree && g.handled <= b.gates.handled + {k} && g.required <= b.gates.required + {k}
    ensures Balanced(b.(gates := g))
  {
    BalancedIs(b);
    BalancedIs(b.(gates := g));
  }

  /**
   * `xy_claim_at`: a region of a legal shape becomes current, made first if there is none: empty, below the widest
   * narrower region around it. A handler given is its handler from now on.
   */
  ghost predicate ClaimedHere(k: Key, b: Books, k': Key, b': Books, wanted: Key, handler: bool, status: Status) {
    && status == ClaimShape(wanted.id, wanted.plen)
    && if status != Ok then k' == k && b' == b
       else
         && k' == wanted
         && if wanted in b.tree then b' == WithHandler(b, wanted, handler)
            else exists p :: Encloses(b.tree, p, wanted) && b' == WithHandler(Extended(b, p, wanted), wanted, handler)
  }

  /** The widest narrower region around k. */
  ghost predicate Encloses(t: Tree, p: Key, k: Key) {
    Hangable(t, p, k) && IsLongest(t.Keys, k.id, k.plen, p)
  }

  function WithHandler(b: Books, k: Key, handler: bool): Books {
    if handler then b.(gates := b.gates.(handled := b.gates.handled + {k})) else b
  }

  /** Gates are not what Carries is about. */
  lemma GatesAside(b: Books, b': Books, g: Gates, paths: set<string>)
    requires Carries(b, b', paths) && Grows(b, b')
    ensures Carries(b, b'.(gates := g), paths) && Grows(b, b'.(gates := g))
  {
    var b2 := b'.(gates := g);
    if !b'.stray && AllLinked(b) {
      KeepsOrderIs(b, b');
      KeepsOrderIs(b, b2);
      assert AllLinked(b2);
    }
  }

  lemma EnlistBooks(b: Books, k: Key, m: Module)
    requires Balanced(b) && k in b.tree && m !in b.table && m.serial == b.nextSerial && Vacant(b.table, k, m.path)
    requires m.loader != null ==> m.loader.serial < b.nextSerial
    ensures Balanced(b.(table := b.table[m := Entry(1, k)], nextSerial := b.nextSerial + 1))
    ensures forall j :: j in b.lists ==> m !in b.lists[j]
  {
    BalancedIs(b);
    FitsOneMore(b.tree, b.lists, b.table, b.nextSerial, m, k);
    BalancedIs(b.(table := b.table[m := Entry(1, k)], nextSerial := b.nextSerial + 1));
  }

  /** Linking an unlinked entry at its home. */
  lemma LinkBooks(b: Books, m: Module, i: nat)
    requires Balanced(b) && m in b.table && forall j :: j in b.lists ==> m !in b.lists[j]
    requires b.table[m].home in b.lists && i <= |b.lists[b.table[m].home]|
    ensures Balanced(b.(lists := b.lists[b.table[m].home := InsertAt(b.lists[b.table[m].home], i, m)]))
  {
    BalancedIs(b);
    FitsInserted(b.tree, b.lists, b.table, b.nextSerial, m, i);
    BalancedIs(b.(lists := b.lists[b.table[m].home := InsertAt(b.lists[b.table[m].home], i, m)]));
  }

  lemma UnlinkBooks(b: Books, m: Module)
    requires Balanced(b) && m in b.table
    ensures var ls := Purged(b.lists, {m}); Balanced(b.(lists := ls)) && forall j :: j in ls ==> m !in ls[j]
    ensures var k := b.table[m].home; k in b.lists && Purged(b.lists, {m}) == b.lists[k := Without(b.lists[k], {m})]
  {
    BalancedIs(b);
    var k := b.table[m].home;
    FitsUnlinked(b.tree, b.lists, b.table, b.nextSerial, m);
    PurgedHome(b.lists, b.table, m);
    if m !in b.lists[k] { WithoutNone(b.lists[k], {m}); }
    BalancedIs(b.(lists := Purged(b.lists, {m})));
  }

  lemma RehomeBooks(b: Books, m: Module, k: Key, before: Tree)
    requires Balanced(b) && m in b.table && k in b.tree && k !in before && forall j :: j in b.lists ==> m !in b.lists[j]
    requires forall x :: x in b.table ==> b.table[x].home in before
    ensures Balanced(b.(table := b.table[m := b.table[m].(home := k)]))
  {
    BalancedIs(b);
    FitsRehomed(b.tree, b.lists, b.table, b.nextSerial, m, k, before);
    BalancedIs(b.(table := b.table[m := b.table[m].(home := k)]));
  }

  lemma Listed(b: Books)
    requires Balanced(b)
    ensures b.lists.Keys == b.tree.Keys
  {
    BalancedIs(b);
  }

  lemma HomesKnown(b: Books)
    requires Balanced(b)
    ensures forall x :: x in b.table ==> b.table[x].home in b.tree
  {
    BalancedIs(b);
  }

  lemma RetractBooks(b: Books, m: Module)
    requires Balanced(b) && m in b.table
    ensures Balanced(b.(lists := Purged(b.lists, {m}), table := b.table - {m}))
  {
    BalancedIs(b);
    FitsShrunk(b.tree, b.lists, b.table, {m}, b.table - {m}, b.nextSerial);
    BalancedIs(b.(lists := Purged(b.lists, {m}), table := b.table - {m}));
  }

  // ----- One unload

  ghost function GoneSet(tb: Table, done: set<Module>): set<Module> {
    set x | x in tb && Gone(tb, done, x)
  }

  /** The modules an unload of e removes. */
  ghost function LostBy(tb: Table, e: Module): set<Module>
    requires e in tb
  {
    if tb[e].refs > 1 then {} else DoomedSet(tb, e)
  }

  /** The books after one reference to e is dropped. */
  ghost function Unloaded(b: Books, e: Module): Books
    requires e in b.table
  {
    var lost := LostBy(b.table, e);
    b.(table := AfterUnload(b.table, e), lists := Purged(b.lists, lost), gone := b.gone + lost)
  }

  /** What an unload of a path does while region k is current. */
  ghost predicate UnloadedHere(b: Books, b': Books, k: Key, path: string) {
    && (Vacant(b.table, k, path) ==> b' == b)
    && forall e :: e in b.table && IsHere(b.table, k, path, e) ==> b' == Unloaded(b, e)
  }

  /** A reference count that reaches 0 is an entry that goes. */
  lemma UnloadCounted(tb: Table, e: Module)
    requires Counted(tb, 0) && e in tb
    ensures Counted(AfterUnload(tb, e), 0)
  {
    forall x | x in tb && x.hasCtx && tb[x].refs == 1 && Reached(tb, e, x) ensures Doomed(tb, e, x) {
    }
  }

  lemma UnloadBalanced(b: Books, e: Module)
    requires Balanced(b) && e in b.table
    ensures Balanced(Unloaded(b, e))
  {
    BalancedIs(b);
    UnloadCounted(b.table, e);
    FitsShrunk(b.tree, b.lists, b.table, LostBy(b.table, e), AfterUnload(b.table, e), b.nextSerial);
    BalancedIs(Unloaded(b, e));
  }

  lemma UnloadCarries(b: Books, e: Module, paths: set<string>)
    requires Balanced(b) && e in b.table && e.path in paths
    ensures Carries(b, Unloaded(b, e), paths)
  {
    BalancedIs(b);
    var b', lost := Unloaded(b, e), LostBy(b.table, e);
    forall a | a in b.table && Safe(a, paths) ensures a !in b'.gone { SafeNotDoomed(b.table, e, a, paths); }
    if AllLinked(b) {
      forall m | m in b'.table ensures IsAt(b'.lists, b'.table[m].home, m) {
        WithoutMember(b.lists[b.table[m].home], lost, m);
      }
    }
    UnloadOrder(b, e);
  }

  lemma UnloadOrder(b: Books, e: Module)
    requires Balanced(b) && e in b.table
    ensures KeepsOrder(b, Unloaded(b, e))
  {
    var b', lost := Unloaded(b, e), LostBy(b.table, e);
    forall k | k in b.lists ensures InOrder(b.lists[k], b'.lists[k], b.nextSerial, b'.gone) {
      ListStays(b, k);
      OldsWithout(b.lists[k], b.nextSerial, lost);
      WithoutTwice(b.lists[k], b.gone, lost);
    }
    KeepsOrderIs(b, b');
  }

  // ----- The cascade, child by child

  /** Before the first child. */
  lemma DropStarts(t: Tree, lists: Lists, tb: Table, e: Module, nextSerial: nat)
    requires Fits(t, lists, tb, nextSerial) && e in tb && tb[e].refs == 1
    ensures Partly(Dropped(tb, e), {}) == Dropped(tb, e)
    ensures Purged(lists, GoneSet(Dropped(tb, e), {})) == lists
    ensures Children(tb, e) == set c | c in tb && c.loader == e && c.hasCtx
  {
    PurgedNothing(lists);
    assert GoneSet(Dropped(tb, e), {}) == {};
  }

  /** A reference count reaches 0 only on an entry that is removed. */
  lemma PartlyCounted(tb: Table, done: set<Module>, serial: nat)
    requires Counted(tb, serial)
    ensures Counted(Partly(tb, done), serial)
  {
    forall x | x in Partly(tb, done) && x.serial >= serial ensures Partly(tb, done)[x].refs > 0 {
      if tb[x].refs == 1 && x.hasCtx {
        if x in done { assert Doomed(tb, x, x); }
        if LostLoader(tb, done, x) {
          var c :| c in done && c in tb && tb[c].refs == 1 && Doomed(tb, c, x.loader);
          assert Reached(tb, c, x);
        }
      }
    }
  }

  lemma LostNext(tb: Table, e: Module, done: set<Module>, c: Module)
    requires Visited(tb, e, done) && IsChild(tb, e, c) && c !in done && tb[c].refs > 0
    requires c in Partly(tb, done) && Partly(tb, done)[c] == tb[c]
    ensures GoneSet(tb, done) + LostBy(Partly(tb, done), c) == GoneSet(tb, done + {c})
  {
    var mid := Partly(tb, done);
    forall x | x in tb ensures Gone(tb, done + {c}, x) <==> Gone(tb, done, x) || (tb[c].refs == 1 && Doomed(tb, c, x)) {
    }
    forall x | x in tb ensures Doomed(mid, c, x) <==> Doomed(tb, c, x) {
      DoomedPartly(tb, e, done, c, x);
    }
    forall x | x in tb && Doomed(tb, c, x) ensures x in mid {
      NotGone(tb, e, done, c, x);
    }
  }

  /** The state a child is unloaded in, and the one its unloading leads to. */
  lemma DropContinues(t: Tree, lists: Lists, tb: Table, e: Module, nextSerial: nat, done: set<Module>, c: Module)
    requires Fits(t, lists, tb, nextSerial) && e in tb && tb[e].refs == 1 && Counted(tb, e.serial)
    requires done <= Children(tb, e) && c in Children(tb, e) && c !in done
    ensures var tb1 := Dropped(tb, e);
      var mid, ls := Partly(tb1, done), Purged(lists, GoneSet(tb1, done));
      && e.serial < c.serial && c in mid && Counted(mid, c.serial) && Fits(t, ls, mid, nextSerial)
      && AfterUnload(mid, c) == Partly(tb1, done + {c})
      && Purged(ls, LostBy(mid, c)) == Purged(lists, GoneSet(tb1, done + {c}))
  {
    var tb1 := Dropped(tb, e);
    var mid, ls := Partly(tb1, done), Purged(lists, GoneSet(tb1, done));
    assert Visited(tb1, e, done) && IsChild(tb1, e, c);
    VisitStep(tb1, e, done, c);
    PartlyCounted(tb1, done, c.serial);
    FitsShrunk(t, lists, tb, GoneSet(tb1, done), mid, nextSerial);
    LostNext(tb1, e, done, c);
    PurgedTwice(lists, GoneSet(tb1, done), LostBy(mid, c));
  }

  /** After the last child. */
  lemma DropEnds(t: Tree, lists: Lists, tb: Table, e: Module, nextSerial: nat)
    requires Fits(t, lists, tb, nextSerial) && e in tb && tb[e].refs == 1
    ensures var tb1, cs := Dropped(tb, e), Children(tb, e);
      var mid, ls := Partly(tb1, cs), Purged(lists, GoneSet(tb1, cs));
      && e in mid && Fits(t, ls, mid, nextSerial)
      && mid - {e} == AfterUnload(tb, e) && Purged(ls, {e}) == Purged(lists, LostBy(tb, e))
      && Fits(t, Purged(lists, LostBy(tb, e)), AfterUnload(tb, e), nextSerial)
  {
    var tb1, cs := Dropped(tb, e), Children(tb, e);
    var mid, ls := Partly(tb1, cs), Purged(lists, GoneSet(tb1, cs));
    CascadeDone(tb, e);
    FitsShrunk(t, lists, tb, GoneSet(tb1, cs), mid, nextSerial);
    GoneAndItself(tb, e);
    PurgedTwice(lists, GoneSet(tb1, cs), {e});
    FitsShrunk(t, lists, tb, LostBy(tb, e), AfterUnload(tb, e), nextSerial);
  }

  lemma GoneAndItself(tb: Table, e: Module)
    requires e in tb && tb[e].refs == 1
    ensures GoneSet(Dropped(tb, e), Children(tb, e)) + {e} == LostBy(tb, e)
  {
    forall x ensures Gone(Dropped(tb, e), Children(tb, e), x) <==> Doomed(tb, e, x) && x != e {
      GoneIffDoomed(tb, e, x);
    }
  }

  /** A set parted in two. */
  ghost predicate Split(whole: set<Module>, a: set<Module>, b: set<Module>) {
    a <= whole && b <= whole && (forall x :: x in whole ==> (x in a <==> x !in b))
  }

  lemma Moved(whole: set<Module>, a: set<Module>, b: set<Module>, x: Module)
    requires Split(whole, a, b) && x in b
    ensures Split(whole, a + {x}, b - {x})
  {
  }

  // ----- One load

  /** Old regions have their old lists; regions made meanwhile are empty. */
  ghost predicate AsBefore(ls: Lists, ls': Lists) {
    forall k :: k in ls' ==> ls'[k] == ListOr(ls, k)
  }

  /** The books once an entry is published and linked in region k, before its install runs. */
  ghost predicate Begun(b: Books, b': Books, k: Key, m: Module) {
    && m !in b.table && m.serial == b.nextSerial && b'.nextSerial == b.nextSerial + 1
    && b'.stray == b.stray && b'.gone == b.gone && b'.gates == b.gates
    && (forall j :: j in b.tree ==> j in b'.tree)
    && m in b'.table && b'.table[m] == Entry(1, k) && b'.table - {m} == b.table
    && b'.lists == b.lists[k := ListOr(b.lists, k) + [m]]
  }

  /** Those books when no region was made. */
  ghost function Entered(b: Books, k: Key, m: Module): Books {
    b.(lists := b.lists[k := ListOr(b.lists, k) + [m]], table := b.table[m := Entry(1, k)],
      nextSerial := b.nextSerial + 1)
  }

  lemma OnlyAdded(tb: Table, tb': Table, m: Module)
    requires m in tb' && tb' - {m} == tb
    ensures tb' == tb[m := tb'[m]]
  {
    forall x | x in tb' && x != m ensures x in tb && tb'[x] == tb[x] {
      assert x in tb' - {m};
    }
    forall x | x in tb ensures x in tb' {
      assert x in tb' - {m};
    }
  }

  lemma BegunEntered(b: Books, b': Books, k: Key, m: Module)
    requires Begun(b, b', k, m) && b'.tree == b.tree
    ensures b' == Entered(b, k, m)
  {
    OnlyAdded(b.table, b'.table, m);
  }

  /** What a successful load of a module that was not here adds. */
  ghost predicate Added(k: Key, b: Books, b': Books, req: Request, loader: Module?, m: Module) {
    && m !in b.table && m.serial == b.nextSerial && IsOf(m, req, loader)
    && (!b'.stray ==> Settles(k, b, b', req, m))
  }

  /** The entry of that request. */
  predicate IsOf(m: Module, req: Request, loader: Module?) {
    && m.path == req.path && m.hasCtx == req.hasCtx && m.image == req.image && m.exports == req.exports
    && m.loader == loader
  }

  /** The child region a granted claim gets. */
  function ChildOf(t: Tree, k: Key, answer: ClaimAnswer): Key {
    var granted := if answer.Grants? then answer.granted else 0;
    Key(Alloc(t.Keys, k, granted), k.plen + granted)
  }

  /** Where the new entry goes: to the region it is loaded in, or to the child its claim gets there. */
  ghost predicate Settled(b: Books, req: Request, k: Key, home: Key) {
    if Ungated(b.gates, req, k) then home == k else home == ChildOf(b.tree, k, req.answer) && home !in b.tree
  }

  /** Where the new entry is once its install has run. */
  ghost predicate Settles(k: Key, b: Books, b': Books, req: Request, m: Module) {
    && (Safe(m, Named(req.install)) ==> m in b'.table && (AllLinked(b') ==> IsAt(b'.lists, b'.table[m].home, m)))
    && (Named(req.install) == {} ==>
          && Grows(b, b') && m in b'.table && Placed(b.lists, b'.lists, b'.table[m].home, m)
          && Settled(b, req, k, b'.table[m].home))
    && (req.install == [] ==>
          m in b'.table && LoadedOnly(b.lists, b.table, b'.lists, b'.table, m) && b'.gates == b.gates)
    && (UnloadsOnce(req.install) && Ungated(b.gates, req, k) ==>
          UnloadedHere(Entered(b, k, m), b', k, req.install[0].path))
  }

  /** The install makes one call, an unload. */
  predicate UnloadsOnce(steps: seq<InstallStep>) {
    |steps| == 1 && steps[0].UnloadModule?
  }

  /** The entry stands right behind the modules its home had before; what its install loaded follows. */
  ghost predicate Placed(ls: Lists, ls': Lists, home: Key, m: Module) {
    home in ls' && ListOr(ls, home) + [m] <= ls'[home]
  }

  /** m is the one new entry, with one reference, at the end of its home's list. */
  ghost predicate LoadedOnly(ls: Lists, tb: Table, ls': Lists, tb': Table, m: Module) {
    && m !in tb && m in tb' && tb'[m].refs == 1 && tb' - {m} == tb
    && ls' == ls[tb'[m].home := ListOr(ls, tb'[m].home) + [m]]
  }

  /** A load into region k, by the module loader if any. */
  ghost predicate LoadEffect(k: Key, b: Books, b': Books, req: Request, loader: Module?, status: Status,
                             entry: Option<Module>) {
    && Carries(b, b', Named(req.install))
    && (status == Ok <==> entry.Some?)
    && (status != Ok || Calm(req.install) ==> b'.stray == b.stray)
    && (status != Ok ==> b'.table == b.table && b'.gone == b.gone && (!b.stray ==> AsBefore(b.lists, b'.lists)))
    && (!req.opens ==> status == NotFound && b' == b)
    && (forall e :: e in b.table && req.opens && IsHere(b.table, k, req.path, e) ==>
          entry == Some(e) && b' == b.(table := Retained(b.table, e)))
    && (req.opens && Vacant(b.table, k, req.path) ==>
          && status == LoadStatus(b.gates, req, b.tree, k)
          && (status == Ok ==> Added(k, b, b', req, loader, entry.value)))
  }

  lemma AddedAndTaken(tb: Table, m: Module, entry: Entry)
    requires m !in tb
    ensures tb[m := entry] - {m} == tb
  {
  }

  lemma BegunCarries(b: Books, b': Books, k: Key, m: Module)
    requires Balanced(b) && Balanced(b') && Begun(b, b', k, m)
    ensures Carries(b, b', {}) && Grows(b, b') && (AllLinked(b) ==> AllLinked(b'))
  {
    BegunTable(b, b', k, m);
    BegunOrder(b, b', k, m);
    NothingRemoved(b, b');
  }

  lemma BegunTable(b: Books, b': Books, k: Key, m: Module)
    requires Begun(b, b', k, m)
    ensures b'.table == b.table[m := Entry(1, k)] && Grows(b, b') && (AllLinked(b) ==> AllLinked(b'))
  {
    OnlyAdded(b.table, b'.table, m);
    forall x | x in b.table && AllLinked(b) ensures IsAt(b'.lists, b'.table[x].home, x) {
      assert IsAt(b.lists, b.table[x].home, x);
    }
  }

  lemma BegunOrder(b: Books, b': Books, k: Key, m: Module)
    requires Balanced(b) && Begun(b, b', k, m)
    ensures KeepsOrder(b, b')
  {
    forall j | j in b.lists ensures Olds(b'.lists[j], b.nextSerial) == Olds(b.lists[j], b.nextSerial) {
      OldsAppend(b.lists[j], [m], b.nextSerial);
      assert Olds([m], b.nextSerial) == [];
    }
    NewOnly(b, b');
  }

  /** An install that ran on a begun entry: what the whole load comes to. */
  lemma InstalledIsAdded(k: Key, b: Books, b1: Books, b2: Books, req: Request, loader: Module?, m: Module, home: Key)
    requires Balanced(b) && Balanced(b1) && Balanced(b2) && Begun(b, b1, home, m)
    requires IsOf(m, req, loader) && Settled(b, req, k, home) && (home == k ==> b1 == Entered(b, k, m))
    requires Carries(b1, b2, Named(req.install)) && (Named(req.install) == {} ==> Grows(b1, b2))
    requires req.install == [] ==> b2 == b1
    requires UnloadsOnce(req.install) ==> UnloadedHere(b1, b2, home, req.install[0].path)
    ensures Carries(b, b2, Named(req.install)) && Added(k, b, b2, req, loader, m)
  {
    BegunCarries(b, b1, home, m);
    CarriesMore(b, b1, {}, Named(req.install));
    CarriesOn(b, b1, b2, Named(req.install));
    if !b2.stray { InstalledSettles(k, b, b1, b2, req, m, home); }
  }

  lemma InstalledSettles(k: Key, b: Books, b1: Books, b2: Books, req: Request, m: Module, home: Key)
    requires Balanced(b) && Balanced(b1) && Balanced(b2) && Begun(b, b1, home, m) && !b2.stray
    requires Settled(b, req, k, home) && (home == k ==> b1 == Entered(b, k, m))
    requires Carries(b1, b2, Named(req.install)) && (Named(req.install) == {} ==> Grows(b1, b2))
    requires req.install == [] ==> b2 == b1
    requires UnloadsOnce(req.install) ==> UnloadedHere(b1, b2, home, req.install[0].path)
    ensures Settles(k, b, b2, req, m)
  {
    BalancedIs(b);
    if Named(req.install) == {} {
      BegunCarries(b, b1, home, m);
      GrowsOn(b, b1, b2);
      assert b1.lists[home] <= b2.lists[home];
    }
  }

  lemma UndoneList(base: seq<Module>, m: Module)
    requires m !in base
    ensures Without(base + [m], {m}) == base && Without(base, {m}) == base
  {
    WithoutNone(base, {m});
    WithoutAppend(base, [m], {m});
    assert Without([m], {m}) == [];
    assert base + [] == base;
  }

  lemma UndoneLoad(ls: Lists, ls': Lists, m: Module, home: Key)
    requires forall k :: k in ls ==> m !in ls[k]
    requires ls' == ls[home := ListOr(ls, home) + [m]] || ls' == ls
    ensures AsBefore(ls, Purged(ls', {m})) && forall k :: k in ls ==> k in ls'
  {
    forall k | k in ls' ensures Without(ls'[k], {m}) == ListOr(ls, k) {
      UndoneList(ListOr(ls, k), m);
    }
  }

  lemma UndoneCarries(b: Books, b': Books, paths: set<string>)
    requires Balanced(b) && Balanced(b') && b'.table == b.table && AsBefore(b.lists, b'.lists)
    requires (forall k :: k in b.tree ==> k in b'.tree) && b.nextSerial <= b'.nextSerial
    requires b'.stray == b.stray && b'.gone == b.gone
    ensures Carries(b, b', paths) && Grows(b, b')
  {
    UndoneLists(b, b');
    NewOnly(b, b');
    NothingRemoved(b, b');
    CarriesMore(b, b', {}, paths);
  }

  lemma UndoneLists(b: Books, b': Books)
    requires Balanced(b) && Balanced(b') && b'.table == b.table && AsBefore(b.lists, b'.lists)
    requires forall k :: k in b.tree ==> k in b'.tree
    ensures forall k :: k in b.lists ==> k in b'.lists && b'.lists[k] == b.lists[k]
    ensures AllLinked(b) ==> AllLinked(b')
  {
    Listed(b);
    Listed(b');
    forall m | m in b.table && AllLinked(b) ensures IsAt(b'.lists, b'.table[m].home, m) {
      assert IsAt(b.lists, b.table[m].home, m);
    }
  }

  lemma RetainedBooks(b: Books, e: Module)
    requires Balanced(b) && e in b.table
    ensures Balanced(b.(table := Retained(b.table, e)))
  {
    BalancedIs(b);
    FitsRetained(b.tree, b.lists, b.table, b.nextSerial, e);
    BalancedIs(b.(table := Retained(b.table, e)));
  }

  lemma RetainedCarries(b: Books, e: Module, paths: set<string>)
    requires Balanced(b) && e in b.table
    ensures Carries(b, b.(table := Retained(b.table, e)), paths) && Grows(b, b.(table := Retained(b.table, e)))
  {
    var b' := b.(table := Retained(b.table, e));
    NewOnly(b, b');
    NothingRemoved(b, b');
    CarriesMore(b, b', {}, paths);
  }

  lemma RetainedEffect(k: Key, b: Books, req: Request, loader: Module?, e: Module)
    requires Balanced(b) && IsHere(b.table, k, req.path, e) && req.opens
    ensures Balanced(b.(table := Retained(b.table, e)))
    ensures LoadEffect(k, b, b.(table := Retained(b.table, e)), req, loader, Ok, Some(e))
  {
    RetainedBooks(b, e);
    RetainedCarries(b, e, Named(req.install));
    forall x | x in b.table && IsHere(b.table, k, req.path, x) ensures x == e { OneHere(b, k, req.path, x, e); }
  }

  lemma {:induction false} NamelessCalm(steps: seq<InstallStep>)
    requires Named(steps) == {}
    ensures Calm(steps)
    decreases steps, 1
  {
    if steps != [] {
      NamelessStep(steps[0]);
      NamelessCalm(steps[1..]);
    }
  }

  lemma {:induction false} NamelessStep(step: InstallStep)
    requires NamedBy(step) == {}
    ensures CalmStep(step)
    decreases step, 0
  {
    if step.LoadModule? { NamelessCalm(step.req.install); }
  }

  lemma NotOpened(k: Key, b: Books, req: Request, loader: Module?)
    requires Balanced(b) && !req.opens
    ensures LoadEffect(k, b, b, req, loader, NotFound, None)
  {
    SameBooks(b);
    CarriesMore(b, b, {}, Named(req.install));
    ListsStay(b);
  }

  lemma ListsStay(b: Books)
    ensures AsBefore(b.lists, b.lists)
  {
  }

  lemma UnloadedCarries(b: Books, b': Books, k: Key, path: string)
    requires Balanced(b) && UnloadedHere(b, b', k, path)
    ensures Carries(b, b', {path}) && b'.stray == b.stray
  {
    if e :| e in b.table && IsHere(b.table, k, path, e) {
      assert b' == Unloaded(b, e);
      UnloadCarries(b, e, {path});
    } else {
      assert b' == b;
      SameBooks(b);
      CarriesMore(b, b, {}, {path});
    }
  }

  // ----- One install

  lemma StartOfInstall(b: Books, steps: seq<InstallStep>)
    requires Balanced(b)
    ensures Carries(b, b, Named(steps)) && Grows(b, b)
  {
    SameBooks(b);
    CarriesMore(b, b, {}, Named(steps));
  }

  lemma OneMoreStep(b: Books, b1: Books, b2: Books, steps: seq<InstallStep>, i: nat)
    requires i < |steps| && Carries(b, b1, Named(steps)) && Carries(b1, b2, NamedBy(steps[i]))
    requires (Named(steps) == {} ==> Grows(b, b1)) && (NamedBy(steps[i]) == {} ==> Grows(b1, b2))
    ensures Carries(b, b2, Named(steps)) && (Named(steps) == {} ==> Grows(b, b2))
    ensures Calm(steps) ==> CalmStep(steps[i])
  {
    NamedAt(steps, i);
    CarriesMore(b1, b2, NamedBy(steps[i]), Named(steps));
    CarriesOn(b, b1, b2, Named(steps));
    if Named(steps) == {} { GrowsOn(b, b1, b2); }
    if Calm(steps) { CalmAt(steps, i); }
  }

  /** A load whose install never unloads takes nothing away. */
  lemma LoadGrows(k: Key, b: Books, b': Books, req: Request, loader: Module?, status: Status, entry: Option<Module>)
    requires Balanced(b) && Balanced(b') && LoadEffect(k, b, b', req, loader, status, entry) && Named(req.install) == {}
    ensures Grows(b, b')
  {
    NamelessCalm(req.install);
    if !b.stray {
      if status != Ok {
        UndoneCarries(b, b', {});
      } else if e :| e in b.table && IsHere(b.table, k, req.path, e) {
        RetainedCarries(b, e, {});
      }
    }
  }
}
