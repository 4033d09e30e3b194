/** What a reload does to the tables, and when its entry finds its place again. */
module Reloading {
  import opened Prefix
  import opened Tree
  import opened Claims
  import opened Dispatch
  import opened ModuleEntry
  import opened Lifecycle
  import opened HostLemmas
  import opened Tables
  import opened Orders
  import opened Runs
  import opened Loading

  // ----- One reload

  /** The module in front of e in region k, if e is linked there and not first. */
  ghost predicate Preceded(lists: Lists, k: Key, e: Module, after: Option<Module>) {
    if IsAt(lists, k, e) then exists i :: IsPredecessor(lists[k], e, i, after) else after == None
  }

  /** The last step of a reload: the entry goes behind the predecessor if that is still linked; else all is lost. */
  ghost predicate PutBackEffect(b: Books, b': Books, k: Key, m: Module, after: Option<Module>, lost: bool)
    requires k in b.lists
  {
    && (lost <==> after.Some? && after.value !in b.lists[k])
    && (lost ==> b' == b.(stray := true))
    && (!lost ==> k in b'.lists && b' == b.(lists := b.lists[k := b'.lists[k]])
                  && Behind(Without(b.lists[k], {m}), after, m, b'.lists[k]))
  }

  /**
   * A reload of e in region k: the books before, after the unload, after the load and at the end; the old predecessor,
   * the entry the load made or found, and what came of it.
   */
  datatype ReloadRun = ReloadRun(k: Key, b: Books, b1: Books, b2: Books, b3: Books, req: Request, loader: Module?,
                                 e: Module, after: Option<Module>, loaded: Option<Module>,
                                 status: Status, entry: Option<Module>, lost: bool)

  /** Unload, load, look the path up again, put back. */
  ghost predicate Reloads(r: ReloadRun) {
    && r.k in r.b.lists && r.k in r.b1.lists && r.k in r.b2.lists
    && IsHere(r.b.table, r.k, r.req.path, r.e) && Preceded(r.b.lists, r.k, r.e, r.after)
    && r.b1 == Unloaded(r.b, r.e) && LoadEffect(r.k, r.b1, r.b2, r.req, r.loader, r.status, r.loaded)
    && (r.entry.None? <==> r.status != Ok || Vacant(r.b2.table, r.k, r.req.path))
    && (r.entry.None? ==> r.b3 == r.b2 && !r.lost)
    && (r.entry.Some? ==> IsHere(r.b2.table, r.k, r.req.path, r.entry.value)
                          && PutBackEffect(r.b2, r.b3, r.k, r.entry.value, r.after, r.lost))
  }

  /** A reload between two balanced states. */
  ghost predicate Genuine(r: ReloadRun) {
    Reloads(r) && Balanced(r.b) && Balanced(r.b2)
  }

  /** The record of a reload from b to b'. */
  ghost predicate Records(r: ReloadRun, k: Key, b: Books, b': Books, req: Request, loader: Module?,
                          status: Status, entry: Option<Module>, lost: bool) {
    && Genuine(r) && r.k == k && r.b == b && r.b3 == b'
    && r.req == req && r.loader == loader && r.status == status && r.entry == entry && r.lost == lost
  }

  /** What a reload as an install's step does: nothing for an unknown path, else what its record says. */
  ghost predicate ReloadedHere(b: Books, b': Books, k: Key, req: Request, loader: Module?, run: Option<ReloadRun>) {
    !b.stray ==>
      if Vacant(b.table, k, req.path) then b' == b
      else run.Some? && Records(run.value, k, b, b', req, loader, run.value.status, run.value.entry, run.value.lost)
  }

  // ----- One install, call by call

  /**
   * Between two calls of an install: the current region, the books, the run so far, and what the call before returned.
   */
  datatype Moment = Moment(k: Key, b: Books, trace: seq<Op>, status: Status, entry: Option<Module>,
                           run: Option<ReloadRun>)

  /** One call of the install of m. Folded, see `Look`. */
  ghost predicate Follows(step: InstallStep, m: Module, x: Moment, y: Moment) {
    forall n {:trigger Look(n)} :: Look(n) ==> FollowsBy(step, m, x, y)
  }

  lemma FollowsIs(step: InstallStep, m: Module, x: Moment, y: Moment)
    ensures Follows(step, m, x, y) <==> FollowsBy(step, m, x, y)
  {
    assert Look(0);
  }

  ghost predicate FollowsBy(step: InstallStep, m: Module, x: Moment, y: Moment) {
    match step
    case LoadModule(req) => y.k == x.k && LoadEffect(x.k, x.b, y.b, req, m, y.status, y.entry)
    case UnloadModule(path) =>
      && y.k == x.k && UnloadedHere(x.b, y.b, x.k, path)
      && y.status == if Vacant(x.b.table, x.k, path) then NotFound else Ok
    case ReloadModule(req) => y.k == x.k && ReloadedHere(x.b, y.b, x.k, req, m, y.run)
    case ClaimRegion(id, plen, handler) => ClaimedHere(x.k, x.b, y.k, y.b, Key(id, plen), handler, y.status)
    case RequireClaim(handler) =>
      var h, q := x.b.gates.handled, x.b.gates.required;
      && y.k == x.k
      && y.b == x.b.(gates := if handler then Gates(h + {x.k}, q + {x.k}) else Gates(h - {x.k}, q - {x.k}))
    case DenyHook(hook) => y.k == x.k && y.b == x.b && y.trace == x.trace + [Op.ForbidHook(x.k, hook)]
    case DenyModule(path) => y.k == x.k && y.b == x.b && y.trace == x.trace + [Op.ForbidModule(x.k, path)]
    case RegisterHook(hook) => y.k == x.k && y.b == x.b && y.trace == x.trace + [Op.Mint(hook)]
    case CallHook(number) => y.k == x.k && y.b == x.b && y.trace == x.trace + [Op.Call(x.k, number)]
  }

  /** All calls of the install of m, with the moments before, between and after them. */
  ghost predicate Trail(steps: seq<InstallStep>, m: Module, ts: seq<Moment>) {
    && |ts| == |steps| + 1 && (forall i :: 0 <= i < |steps| ==> Follows(steps[i], m, ts[i], ts[i + 1]))
    && forall i :: 0 <= i < |ts| ==> Balanced(ts[i].b)
  }

  lemma TrailMore(steps: seq<InstallStep>, i: nat, m: Module, ts: seq<Moment>, y: Moment)
    requires i < |steps| && Trail(steps[..i], m, ts) && Follows(steps[i], m, ts[i], y) && Balanced(y.b)
    ensures Trail(steps[..i + 1], m, ts + [y])
  {
    var more := steps[..i + 1];
    forall j | 0 <= j < i ensures Follows(more[j], m, (ts + [y])[j], (ts + [y])[j + 1]) {
      assert steps[..i][j] == more[j];
    }
  }

  /** The install of a module loaded into region k, from its entry in the books to the end. */
  ghost predicate Installs(k: Key, b: Books, b': Books, req: Request, m: Module, ts: seq<Moment>) {
    && Trail(req.install, m, ts) && Begun(b, ts[0].b, ts[0].k, m) && ts[|ts| - 1].b == b'
    && Settled(b, req, k, ts[0].k) && (ts[0].k == k ==> ts[0].b == Entered(b, k, m))
  }

  lemma UnloadOnce(steps: seq<InstallStep>, m: Module, ts: seq<Moment>)
    requires Trail(steps, m, ts)
    ensures UnloadsOnce(steps) ==> UnloadedHere(ts[0].b, ts[|ts| - 1].b, ts[0].k, steps[0].path)
    ensures steps == [] ==> ts[|ts| - 1] == ts[0]
  {
    if UnloadsOnce(steps) { FollowsIs(steps[0], m, ts[0], ts[1]); }
  }

  // ----- What a reload comes to

  /** With one reference the entry that is found again is a new one. */
  lemma FoundIsNew(r: ReloadRun)
    requires Genuine(r) && r.b.table[r.e].refs == 1 && !r.b2.stray && r.entry.Some?
    ensures r.entry.value.serial >= r.b.nextSerial
  {
    var m := r.entry.value;
    if m.serial < r.b.nextSerial {
      assert m in r.b1.table && r.b1.table[m].home == r.k;
      OneHere(r.b, r.k, r.req.path, m, r.e);
    }
  }

  /** Putting a new entry back moves no old one. */
  lemma PutBackKeeps(b: Books, b2: Books, b3: Books, k: Key, m: Module, after: Option<Module>, paths: set<string>)
    requires k in b2.lists && PutBackEffect(b2, b3, k, m, after, false) && Keeps(b, b2, paths)
    requires m in b2.table && b2.table[m].home == k && m.serial >= b.nextSerial
    ensures Keeps(b, b3, paths)
  {
    BehindMembers(Without(b2.lists[k], {m}), after, m, b3.lists[k]);
    WithoutSubset(b2.lists[k], {m});
    OldsBehind(b2.lists[k], after, m, b3.lists[k], b.nextSerial);
    KeepsOrderIs(b, b2);
    KeepsOrderIs(b, b3);
  }

  lemma ReloadCarries(r: ReloadRun)
    requires Genuine(r)
    ensures Carries(r.b, r.b3, NamedBy(ReloadModule(r.req)))
  {
    var paths := NamedBy(ReloadModule(r.req));
    UnloadCarries(r.b, r.e, paths);
    CarriesMore(r.b1, r.b2, Named(r.req.install), paths);
    CarriesOn(r.b, r.b1, r.b2, paths);
    if !r.b3.stray && r.entry.Some? {
      BalancedIs(r.b);
      if r.b.table[r.e].refs > 1 {
        SharedCarries(r, paths);
      } else {
        FoundIsNew(r);
        PutBackKeeps(r.b, r.b2, r.b3, r.k, r.entry.value, r.after, paths);
      }
    }
  }

  lemma SharedCarries(r: ReloadRun, paths: set<string>)
    requires Genuine(r) && r.b.table[r.e].refs > 1 && r.entry.Some? && Carries(r.b, r.b2, paths) && !r.b3.stray
    ensures Carries(r.b, r.b3, paths)
  {
    if AllLinked(r.b) {
      ReloadShared(r);
      SameBooks(r.b);
      CarriesMore(r.b, r.b, {}, paths);
    }
  }

  /** An entry is put back behind the old predecessor if and only if that is still linked. */
  lemma PutBackPlace(b: Books, b': Books, k: Key, m: Module, after: Option<Module>, lost: bool)
    requires k in b.lists && PutBackEffect(b, b', k, m, after, lost) && after != Some(m)
    ensures k in b'.lists && (lost <==> after.Some? && after.value !in b'.lists[k])
    ensures !lost ==> exists i :: IsPredecessor(b'.lists[k], m, i, after)
  {
    if !lost {
      var ms := Without(b.lists[k], {m});
      BehindMembers(ms, after, m, b'.lists[k]);
      WithoutSubset(b.lists[k], {m});
      var i :| 0 <= i <= |ms| && BehindAt(ms, after, m, i, b'.lists[k]);
      assert IsPredecessor(b'.lists[k], m, i, after);
    }
  }

  lemma ReloadPlace(r: ReloadRun)
    requires Genuine(r) && r.entry.Some? && !r.b2.stray
    ensures r.k in r.b3.lists && (r.lost <==> r.after.Some? && r.after.value !in r.b3.lists[r.k])
    ensures !r.lost ==> exists i :: IsPredecessor(r.b3.lists[r.k], r.entry.value, i, r.after)
  {
    if r.after.Some? { NotItself(r.b, r.b2, r.k, r.e, r.after.value, r.entry.value, r.req.path); }
    PutBackPlace(r.b2, r.b3, r.k, r.entry.value, r.after, r.lost);
  }

  /** The predecessor has another path than the reloaded module, so it is not the entry that is put back. */
  lemma NotItself(b: Books, b2: Books, k: Key, e: Module, a: Module, m: Module, path: string)
    requires Balanced(b) && IsHere(b.table, k, path, e) && Preceded(b.lists, k, e, Some(a))
    requires IsHere(b2.table, k, path, m)
    ensures a != m && IsAt(b.lists, k, a) && a in b.table && b.table[a].home == k && a != e && a.serial < b.nextSerial
  {
    BalancedIs(b);
    var i :| IsPredecessor(b.lists[k], e, i, Some(a));
    assert b.lists[k][i - 1] == a && a in b.lists[k] && NoDup(b.lists[k]);
    if a.path == path { OneHere(b, k, path, a, e); }
  }

  lemma PredecessorDiffers(b: Books, b2: Books, k: Key, e: Module, a: Module, path: string)
    requires Balanced(b) && IsHere(b.table, k, path, e) && Preceded(b.lists, k, e, Some(a))
    ensures !IsHere(b2.table, k, path, a)
  {
    if IsHere(b2.table, k, path, a) { NotItself(b, b2, k, e, a, a, path); }
  }

  /**
   * Whatever the install does: the place is lost if and only if some unload since, the reload's own or one at any depth
   * of the install, has removed the predecessor. Nothing else takes an entry out of its list.
   */
  lemma ReloadLosesIff(r: ReloadRun)
    requires Genuine(r) && AllLinked(r.b) && !r.b2.stray && r.entry.Some? && r.after.Some?
    ensures r.lost <==> r.after.value in r.b2.gone
    ensures r.after.value !in r.b.gone
  {
    var a := r.after.value;
    NotItself(r.b, r.b2, r.k, r.e, a, r.entry.value, r.req.path);
    UnloadCarries(r.b, r.e, {r.req.path});
    StandsIff(r.b, r.b1, r.k, a, {r.req.path});
    UnloadBalanced(r.b, r.e);
    NeverGone(r.b, a);
    if a !in r.b1.gone { StandsIff(r.b1, r.b2, r.k, a, Named(r.req.install)); } else { NotListed(r.b2, r.k, a); }
    if a in r.b2.gone { NotListed(r.b2, r.k, a); }
  }

  lemma IsOld(b: Books, a: Module)
    requires Balanced(b) && a in b.table
    ensures a.serial < b.nextSerial
  {
    BalancedIs(b);
  }

  lemma NeverGone(b: Books, a: Module)
    requires Balanced(b) && a in b.table
    ensures a !in b.gone
  {
    BalancedIs(b);
  }

  lemma NotListed(b: Books, k: Key, a: Module)
    requires Balanced(b) && k in b.lists
    ensures a in b.gone ==> a !in b.lists[k]
  {
    BalancedIs(b);
  }

  /** An old entry stands in its list until an unload removes it. */
  lemma StandsIff(b: Books, b': Books, k: Key, a: Module, paths: set<string>)
    requires Carries(b, b', paths) && !b'.stray && AllLinked(b) && a in b.table && b.table[a].home == k
    requires a.serial < b.nextSerial
    ensures a !in b'.gone ==> a in b'.table && b'.table[a].home == k && IsAt(b'.lists, k, a)
  {
  }

  /**
   * What a caller can check before. When the predecessor is safe from what the install unloads and reloads, the place
   * is lost if and only if the predecessor goes with e.
   */
  lemma ReloadLosesEarly(r: ReloadRun)
    requires Genuine(r) && AllLinked(r.b) && !r.b.stray && r.entry.Some? && r.after.Some?
    requires Calm(r.req.install) || !r.b2.stray
    requires Safe(r.after.value, Named(r.req.install))
    ensures r.lost <==> r.b.table[r.e].refs == 1 && Doomed(r.b.table, r.e, r.after.value)
  {
    var a := r.after.value;
    NotItself(r.b, r.b2, r.k, r.e, a, r.entry.value, r.req.path);
    ReloadLosesIff(r);
    GoneEarly(r.b, r.e, a);
  }

  /** The unload itself removes a loaded module if and only if its cascade reaches it. */
  lemma GoneEarly(b: Books, e: Module, a: Module)
    requires Balanced(b) && e in b.table && a in b.table
    ensures var b1 := Unloaded(b, e); a in b1.gone <==> b.table[e].refs == 1 && Doomed(b.table, e, a)
    ensures a !in Unloaded(b, e).gone ==> a in Unloaded(b, e).table
  {
    BalancedIs(b);
    UnloadBalanced(b, e);
  }

  /**
   * The same for an install that makes one call, an unload: the place is lost if and only if the predecessor goes with
   * e, or with the module the install unloads.
   */
  lemma ReloadLosesToUnload(r: ReloadRun)
    requires Genuine(r) && AllLinked(r.b) && !r.b.stray && r.b.table[r.e].refs == 1 && r.entry.Some? && r.after.Some?
    requires UnloadsOnce(r.req.install) && r.req.install[0].path != r.req.path && Ungated(r.b.gates, r.req, r.k)
    ensures r.lost <==> || Doomed(r.b.table, r.e, r.after.value)
                        || TakenAlong(r.b1, r.k, r.req.install[0].path, r.after.value)
  {
    var a, path := r.after.value, r.req.install[0].path;
    NotItself(r.b, r.b2, r.k, r.e, a, r.entry.value, r.req.path);
    assert Calm(r.req.install[1..]) && Calm(r.req.install);
    ReloadLosesIff(r);
    GoneEarly(r.b, r.e, a);
    UnloadBalanced(r.b, r.e);
    VacantAfter(r.b, r.k, r.e, r.req.path);
    if a !in r.b1.gone { UnloadedBeside(r.b1, r.b2, r.k, r.loaded.value, path, a); }
  }

  /** Unloading the path here takes a. */
  ghost predicate TakenAlong(b: Books, k: Key, path: string, a: Module) {
    exists x :: x in b.table && IsHere(b.table, k, path, x) && b.table[x].refs == 1 && Doomed(b.table, x, a)
  }

  lemma VacantAfter(b: Books, k: Key, e: Module, path: string)
    requires Balanced(b) && IsHere(b.table, k, path, e) && b.table[e].refs == 1
    ensures Vacant(Unloaded(b, e).table, k, path)
  {
    BalancedIs(b);
    NoTwin(b.table, e);
  }

  /** An unload while m is being loaded reaches the older modules it would reach without m. */
  lemma UnloadedBeside(b: Books, b': Books, k: Key, m: Module, path: string, a: Module)
    requires Balanced(b) && m.serial == b.nextSerial && UnloadedHere(Entered(b, k, m), b', k, path) && m.path != path
    requires a in b.table
    ensures a in b'.gone <==> TakenAlong(b, k, path, a)
  {
    BalancedIs(b);
    var b1 := Entered(b, k, m);
    forall x | x in b.table ensures Doomed(b1.table, x, a) <==> Doomed(b.table, x, a) {
      DoomedBeside(b.table, b1.table, m, x, a);
    }
    if x :| x in b1.table && IsHere(b1.table, k, path, x) {
      assert IsHere(b.table, k, path, x) && b.table[x].refs > 0;
      assert b' == Unloaded(b1, x);
      forall y | y in b.table && IsHere(b.table, k, path, y) ensures y == x { OneHere(b, k, path, x, y); }
      assert TakenAlong(b, k, path, a) <==> b.table[x].refs == 1 && Doomed(b.table, x, a);
    } else {
      assert b' == b1;
      forall y | y in b.table ensures !IsHere(b.table, k, path, y) { assert !IsHere(b1.table, k, path, y); }
    }
  }

  /** A module younger than all others changes nothing in a cascade among them. */
  lemma {:induction false} DoomedBeside(tb: Table, tb': Table, m: Module, x: Module, a: Module)
    requires x in tb && a in tb && (forall y :: y in tb ==> y in tb' && tb'[y] == tb[y] && y.serial < m.serial)
    requires forall y :: y in tb' && y != m ==> y in tb
    ensures Doomed(tb', x, a) <==> Doomed(tb, x, a)
    decreases a.serial
  {
    if a.loader != null && a.loader in tb && a.loader.serial < a.serial { DoomedBeside(tb, tb', m, x, a.loader); }
  }

  /** A module others refer to stays where it is. */
  lemma ReloadShared(r: ReloadRun)
    requires Genuine(r) && r.b.table[r.e].refs > 1 && IsAt(r.b.lists, r.k, r.e)
    ensures r.status == if r.req.opens then Ok else NotFound
    ensures if r.req.opens then r.b3 == r.b && r.entry == Some(r.e) && !r.lost else r.b3 == Unloaded(r.b, r.e)
  {
    UnloadShared(r.b, r.e);
    if r.req.opens {
      assert IsHere(r.b1.table, r.k, r.req.path, r.e);
      assert r.b2 == r.b1.(table := Retained(r.b1.table, r.e)) == r.b;
      OneHere(r.b, r.k, r.req.path, r.entry.value, r.e);
      BackWhereItWas(r.b, r.b3, r.k, r.e, r.after, r.lost);
    }
  }

  /** One reference less is all. */
  lemma UnloadShared(b: Books, e: Module)
    requires e in b.table && b.table[e].refs > 1
    ensures Unloaded(b, e) == b.(table := b.table[e := b.table[e].(refs := b.table[e].refs - 1)])
    ensures b.table[e := b.table[e].(refs := b.table[e].refs - 1)][e := b.table[e]] == b.table
  {
    PurgedNothing(b.lists);
  }

  lemma BackWhereItWas(b: Books, b': Books, k: Key, e: Module, after: Option<Module>, lost: bool)
    requires Balanced(b) && IsAt(b.lists, k, e) && Preceded(b.lists, k, e, after)
    requires PutBackEffect(b, b', k, e, after, lost)
    ensures b' == b && !lost
  {
    BalancedIs(b);
    var ms := b.lists[k];
    var i :| IsPredecessor(ms, e, i, after);
    if after.Some? { assert ms[i - 1] in ms; }
    assert NoDup(ms);
    BackInPlace(ms, e, i, after, b'.lists[k]);
  }

  /** Once e is gone no entry of its path and region is left. */
  lemma NoTwin(tb: Table, e: Module)
    requires Distinct(tb) && e in tb && tb[e].refs == 1
    ensures forall m :: m in AfterUnload(tb, e) ==> m.path != e.path || AfterUnload(tb, e)[m].home != tb[e].home
  {
    forall m | m in AfterUnload(tb, e) && m.path == e.path ensures AfterUnload(tb, e)[m].home != tb[e].home {
      assert !SamePlace(tb, m, e);
    }
  }

  /**
   * Unloading the last reference makes room, and the load that follows adds a new entry or fails. What is found again
   * and put back is that entry, unless a claim took it to another region.
   */
  lemma ReloadedAnew(r: ReloadRun)
    requires Genuine(r) && r.b.table[r.e].refs == 1
    ensures r.status != Ok ==> r.b3.table == r.b1.table && (!r.b.stray ==> AsBefore(r.b1.lists, r.b3.lists))
    ensures r.status == Ok ==> r.loaded.Some? && Added(r.k, r.b1, r.b2, r.req, r.loader, r.loaded.value)
    ensures r.status == Ok && !r.b.stray && Named(r.req.install) == {} ==>
              (r.entry == r.loaded <==> Ungated(r.b.gates, r.req, r.k))
  {
    VacantAfter(r.b, r.k, r.e, r.req.path);
    if r.status == Ok && !r.b.stray && Named(r.req.install) == {} {
      NamelessCalm(r.req.install);
      BalancedIs(r.b);
      var m := r.loaded.value;
      if Ungated(r.b.gates, r.req, r.k) {
        assert IsHere(r.b2.table, r.k, r.req.path, m);
        OneHere(r.b2, r.k, r.req.path, m, r.entry.value);
      }
    }
  }

  /**
   * Whatever the install does, an entry that does not lose its place stands between the old modules that stood before
   * and after the one it replaces, less those some unload has removed, in the same order.
   */
  lemma ReloadOrder(r: ReloadRun)
    requires Genuine(r) && AllLinked(r.b) && !r.b2.stray && r.b.table[r.e].refs == 1 && r.entry.Some? && !r.lost
    ensures r.k in r.b3.lists
    ensures Around(r.b.lists[r.k], r.e, r.b3.gone, r.b.nextSerial, r.entry.value, r.b3.lists[r.k])
  {
    FoundIsNew(r);
    ReloadPlace(r);
    var gone := OrderKept(r);
    if r.after.Some? {
      NotItself(r.b, r.b2, r.k, r.e, r.after.value, r.entry.value, r.req.path);
      ReloadLosesIff(r);
    }
    ListedOnce(r.b, r.k);
    var i :| IsPredecessor(r.b.lists[r.k], r.e, i, r.after);
    var j :| IsPredecessor(r.b3.lists[r.k], r.entry.value, j, r.after);
    BetweenOlds(r.b.lists[r.k], r.e, i, r.after, gone, r.b.nextSerial, r.entry.value, j, r.b3.lists[r.k]);
  }

  lemma ListedOnce(b: Books, k: Key)
    requires Balanced(b) && k in b.lists
    ensures NoDup(b.lists[k])
  {
    BalancedIs(b);
  }

  /** The list law for one reload, whose old entry is among the removed. */
  lemma OrderKept(r: ReloadRun) returns (gone: set<Module>)
    requires Genuine(r) && AllLinked(r.b) && !r.b2.stray && r.b.table[r.e].refs == 1 && r.entry.Some? && !r.lost
    ensures gone == r.b3.gone == r.b2.gone && r.e in gone && IsAt(r.b.lists, r.k, r.e)
    ensures r.k in r.b3.lists && Olds(r.b3.lists[r.k], r.b.nextSerial) == Without(r.b.lists[r.k], gone)
  {
    gone := r.b3.gone;
    ReloadCarries(r);
    GoneEarly(r.b, r.e, r.e);
    assert Carries(r.b1, r.b2, Named(r.req.install));
    KeepsOrderIs(r.b, r.b3);
    assert InOrder(r.b.lists[r.k], r.b3.lists[r.k], r.b.nextSerial, gone);
  }

  /** With an install that unloads nothing, what it loaded follows at the end. */
  lemma ReloadLast(r: ReloadRun)
    requires Genuine(r) && AllLinked(r.b) && !r.b.stray && r.b.table[r.e].refs == 1
    requires r.status == Ok && Named(r.req.install) == {} && r.entry == r.loaded && !r.lost
    ensures r.entry.Some? && r.k in r.b3.lists
    ensures Replaced(r.b.lists[r.k], r.e, DoomedSet(r.b.table, r.e), r.entry.value, r.b3.lists[r.k])
  {
    BalancedIs(r.b);
    BalancedIs(r.b2);
    ReloadedAnew(r);
    NamelessCalm(r.req.install);
    var m, ms, gone := r.loaded.value, r.b.lists[r.k], DoomedSet(r.b.table, r.e);
    assert ListOr(r.b1.lists, r.k) == Without(ms, gone);
    assert NoDup(ms) && NoDup(r.b2.lists[r.k]) && r.e in gone;
    if r.after.Some? { SafeNone(r.after.value); ReloadLosesEarly(r); }
    ReloadInPlace(ms, r.e, r.after, gone, m, r.b2.lists[r.k], r.b3.lists[r.k]);
  }

  /** A predecessor older than the reloaded module is never taken along. */
  lemma OlderStands(tb: Table, e: Module, a: Module)
    requires a.serial < e.serial
    ensures !Doomed(tb, e, a)
  {
    if Doomed(tb, e, a) { DoomedYounger(tb, e, a); }
  }
}
