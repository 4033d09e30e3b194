/** Loading, unloading and reloading modules: the module table, the regions' module lists and the current region. */
module Loader {
  import opened Word
  import opened Prefix
  import opened Tree
  import opened Claims
  import opened Slots
  import opened ModuleEntry
  import opened Dispatch
  import Coherence
  import opened Runs
  import opened Lifecycle
  import opened HostLemmas
  import opened Tables
  import opened Traces
  import opened Orders
  import opened Loading
  import opened Reloading

  /** The moment is now, as far as the registry goes. */
  ghost predicate At(t: Moment, k: Key, b: Books, trace: seq<Op>) {
    t.k == k && t.b == b && t.trace == trace
  }

  /**
   * Only steps that unlink entries and forget them were taken; as an unload they also lift the region's denial of the
   * path, as an abort they do not.
   */
  ghost predicate Removes(before: seq<Op>, after: seq<Op>, lift: bool) {
    && before <= after
    && forall j :: |before| <= j < |after| ==> after[j].Forget? || (if lift then after[j].Unload? else after[j].Unlink?)
  }

  class Registry {
    var tree: Tree
    var lists: Lists
    var table: Table
    var current: Key
    var nextSerial: nat
    var gates: Gates

    /**
     * The steps taken so far, whether one of them was a grant at width 64 that left its parent, and whether a reload
     * has lost its place.
     */
    ghost var trace: seq<Op>
    ghost var wide: bool
    ghost var stray: bool
    /** The modules some unload has removed. */
    ghost var gone: set<Module>

    ghost function Now(): Books
      reads this
    {
      Books(tree, lists, table, gates, nextSerial, gone, stray)
    }

    /** Regions, lists and live modules are those a run of the steps reaches. */
    ghost predicate Traced()
      reads this
    {
      !wide ==> Mirrors(trace, tree, lists, table.Keys)
    }

    ghost predicate Valid()
      reads this
    {
      Traced() && current in tree && Balanced(Now())
    }

    /** `region_ensure_root` and nothing loaded. */
    constructor ()
      ensures Valid() && AllLinked(Now()) && trace == [] && !wide && !stray && current == ROOT
      ensures Now() == Books(SEED, map[ROOT := []], map[], OPEN, 0, {}, false)
    {
      tree, lists, table, gates, current, nextSerial := SEED, map[ROOT := []], map[], OPEN, ROOT, 0;
      trace, wide, stray, gone := [], false, false, {};
      new;
      StartInv();
      assert NoDup(lists[ROOT]);
      BalancedIs(Now());
      if !wide { RunBehind(trace, tree, lists, table.Keys); }
    }

    /** Between two calls of this class, and within an install, anything may be denied, minted or dispatched. */
    ghost method Meanwhile(op: Op)
      requires Valid() && (op.Mint? || op.ForbidHook? || op.ForbidModule? || op.Call?)
      modifies this`trace
      ensures Valid() && trace == old(trace) + [op]
    {
      if !wide { MirrorsMeanwhile(trace, tree, lists, table.Keys, op); }
      trace := trace + [op];
    }

    // ----- Unloading

    /** The cascade loop of `_mod_unload`: unload the children, in whatever order. */
    method DropChildren(e: Module, ghost tb: Table)
      requires e in tb && tb[e].refs == 1 && table == Dropped(tb, e)
      requires Fits(tree, lists, tb, nextSerial) && Counted(tb, e.serial) && Traced()
      modifies this`lists, this`table, this`trace
      ensures table == Partly(Dropped(tb, e), Children(tb, e))
      ensures lists == Purged(old(lists), GoneSet(Dropped(tb, e), Children(tb, e)))
      ensures Traced() && Removes(old(trace), trace, true)
      decreases nextSerial - e.serial, 0
    {
      ghost var ls := lists;
      var todo := set c | c in table && c.loader == e && c.hasCtx;
      ghost var done: set<Module>, cs := {}, Children(tb, e);
      DropStarts(tree, ls, tb, e, nextSerial);
      while todo != {}
        invariant Split(cs, done, todo) && Traced() && Removes(old(trace), trace, true)
        invariant table == Partly(Dropped(tb, e), done) && lists == Purged(ls, GoneSet(Dropped(tb, e), done))
        decreases |todo|
      {
        var c :| c in todo;
        DropContinues(tree, ls, tb, e, nextSerial, done, c);
        Drop(c);
        Moved(cs, done, todo, c);
        done, todo := done + {c}, todo - {c};
      }
      assert done == cs;
    }

    /** `_mod_unload`: drop a reference; at the last one unload the children, then the module. */
    method Drop(e: Module)
      requires Fits(tree, lists, table, nextSerial) && e in table && Counted(table, e.serial) && Traced()
      modifies this`lists, this`table, this`trace
      ensures Fits(tree, lists, table, nextSerial) && Traced() && Removes(old(trace), trace, true)
      ensures table == AfterUnload(old(table), e)
      ensures lists == Purged(old(lists), LostBy(old(table), e))
      decreases nextSerial - e.serial, 1
    {
      ghost var tb, ls := table, lists;
      table := table[e := table[e].(refs := table[e].refs - 1)];
      assert table.Keys == tb.Keys;
      if table[e].refs > 0 {
        PurgedNothing(ls);
        FitsShrunk(tree, ls, tb, {}, table, nextSerial);
        return;
      }
      DropChildren(e, tb);
      DropEnds(tree, ls, tb, e, nextSerial);
      Delist(e, true);
    }

    /** Unlink an entry and take it out of the table; an unload also lifts its region's denial of its path. */
    method Delist(e: Module, ghost lift: bool)
      requires e in table && Homed(lists, table) && OnceEach(lists) && Traced()
      modifies this`lists, this`table, this`trace
      ensures lists == Purged(old(lists), {e}) && table == old(table) - {e} && Traced()
      ensures Removes(old(trace), trace, lift)
    {
      Detach(e, lift);
      PurgedOff(old(lists), e);
      if !wide { MirrorsForgotten(trace, tree, lists, table.Keys, e); }
      trace := trace + [Op.Forget(e)];
      table := table - {e};
      assert table.Keys == old(table).Keys - {e};
    }

    /** `module_region_detach`, a no-op on an entry that is linked nowhere. */
    method Detach(e: Module, ghost lift: bool)
      requires e in table && Homed(lists, table) && OnceEach(lists) && Traced()
      modifies this`lists, this`trace
      ensures lists == Purged(old(lists), {e}) && Traced() && Removes(old(trace), trace, lift)
    {
      var k := table[e].home;
      PurgedHome(lists, table, e);
      if k in lists && e in lists[k] {
        ghost var i :| 0 <= i < |lists[k]| && lists[k][i] == e;
        assert NoDup(lists[k]);
        WithoutOne(lists[k], i);
        if !wide { MirrorsUnlinked(trace, tree, lists, table.Keys, k, i, lift); }
        trace := trace + [if lift then Op.Unload(k, i) else Op.Unlink(k, i)];
        lists := lists[k := Without(lists[k], {e})];
      }
    }

    /** One reference less, with all that follows. */
    method Release(e: Module)
      requires Valid() && e in table
      modifies this`lists, this`table, this`trace, this`gone
      ensures Valid() && Now() == Unloaded(old(Now()), e) && Removes(old(trace), trace, true)
    {
      ghost var b := Now();
      BalancedIs(b);
      UnloadBalanced(b, e);
      Drop(e);
      gone := gone + LostBy(b.table, e);
      assert Now() == Unloaded(b, e);
    }

    /** `module_lookup_from_fname`: the entry for a path in the current region. */
    method Find(path: string) returns (r: Option<Module>)
      ensures match r case None => Vacant(table, current, path) case Some(m) => IsHere(table, current, path, m)
    {
      if m :| m in table && m.path == path && table[m].home == current {
        r := Some(m);
      } else {
        r := None;
      }
    }

    /** `xy_unload`. */
    method Unload(path: string) returns (status: Status)
      requires Valid()
      modifies this`lists, this`table, this`trace, this`gone
      ensures Valid()
      ensures status == (if Vacant(old(table), current, path) then NotFound else Ok)
      ensures UnloadedHere(old(Now()), Now(), current, path) && Removes(old(trace), trace, true)
    {
      var existing := Find(path);
      if existing.None? { return NotFound; }
      ghost var b := Now();
      Release(existing.value);
      forall e | e in b.table && IsHere(b.table, current, path, e) ensures e == existing.value {
        OneHere(b, current, path, e, existing.value);
      }
      return Ok;
    }

    // ----- Regions

    /** A new empty region becomes current. */
    method NewRegion(parent: Key, k: Key, ghost steps: seq<Op>)
      requires Valid() && Hangable(tree, parent, k)
      requires !wide ==> Mirrors(steps, Attach(tree, parent, k), lists[k := []], table.Keys)
      modifies this`tree, this`lists, this`current, this`trace
      ensures Valid() && current == k && Now() == Extended(old(Now()), parent, k)
    {
      RegionBooks(Now(), parent, k);
      tree := tree[parent := tree[parent].(children := [k] + tree[parent].children)][k := Links(Some(parent), [])];
      lists := lists[k := []];
      trace := steps;
      current := k;
    }

    /** `region_nearest_ancestor`, which always finds one. */
    method Nearest(id: Word, plen: nat) returns (p: Key)
      requires Shape(tree) && Key(id, plen) !in tree && plen <= 64 && Agrees(id, Key(id, plen))
      ensures NearestAncestor(tree, Key(id, plen)) == Some(p) && Encloses(tree, p, Key(id, plen))
    {
      ghost var k := Key(id, plen);
      if plen == 0 { OnlyRootHasNoWidth(k); }
      SearchIsLongest(tree, id, plen);
      p := NearestAncestor(tree, Key(id, plen)).value;
      NearestIsNarrower(tree, k);
    }

    /** `xy_claim_at`. */
    method Claim(id: Word, plen: nat, handler: bool) returns (status: Status)
      requires Valid()
      modifies this`tree, this`lists, this`current, this`trace, this`gates
      ensures Valid() && Carries(old(Now()), Now(), {}) && Grows(old(Now()), Now())
      ensures ClaimedHere(old(current), old(Now()), current, Now(), Key(id, plen), handler, status)
      ensures gates == if status == Ok && handler then Gates(old(gates).handled + {current}, old(gates).required)
                       else old(gates)
    {
      ghost var b := Now();
      status := Visit(id, plen);
      if status == Ok && handler {
        var g := gates.(handled := gates.handled + {current});
        GatesAside(b, Now(), g, {});
        SetGates(g);
      }
    }

    /** The requested region is made current, and new if there is none. */
    method Visit(id: Word, plen: nat) returns (status: Status)
      requires Valid()
      modifies this`tree, this`lists, this`current, this`trace
      ensures Valid() && Carries(old(Now()), Now(), {}) && Grows(old(Now()), Now())
      ensures ClaimedHere(old(current), old(Now()), current, Now(), Key(id, plen), false, status)
    {
      ghost var b := Now();
      var k := Key(id, plen);
      SameBooks(b);
      if plen > 64 { return TooBig; }
      if !Agrees(id, k) { return Invalid; }
      if k in tree {
        current := k;
        return Ok;
      }
      assert Shape(tree) by { BalancedIs(b); }
      var parent := Nearest(id, plen);
      if !wide { MirrorsClaimed(trace, tree, lists, table.Keys, parent, k); }
      RegionCarries(b, parent, k);
      NewRegion(parent, k, trace + [Op.Claim(k)]);
      assert Encloses(b.tree, parent, k);
      return Ok;
    }

    /** The gates change; of the rest nothing does. */
    method SetGates(g: Gates)
      requires Valid() && g.handled <= gates.handled + {current} && g.required <= gates.required + {current}
      modifies this`gates
      ensures Valid() && Now() == old(Now()).(gates := g)
    {
      GateBooks(Now(), g, current);
      gates := g;
    }

    /** `xy_require_claim`, on the current region: a handler closes the gate, none opens it. */
    method RequireClaim(handler: bool)
      requires Valid()
      modifies this`gates
      ensures Valid()
      ensures var h, q := old(gates).handled, old(gates).required;
              Now() == old(Now()).(gates := if handler then Gates(h + {current}, q + {current})
                                            else Gates(h - {current}, q - {current}))
    {
      SetGates(if handler then Gates(gates.handled + {current}, gates.required + {current})
               else Gates(gates.handled - {current}, gates.required - {current}));
    }

    /** The claim a load makes on behalf of its module: a child of the parent at the first free slot, now current. */
    method ClaimFor(parent: Key, bits: nat, answer: ClaimAnswer) returns (status: Status)
      requires Valid() && parent in tree
      modifies this`tree, this`lists, this`current, this`trace, this`wide
      ensures Valid() && status == ClaimStatus(old(tree), parent, bits, answer)
      ensures status != Ok ==> Now() == old(Now()) && current == old(current)
      ensures status == Ok ==>
                && Hangable(old(tree), parent, current) && Now() == Extended(old(Now()), parent, current)
                && current == ChildOf(old(tree), parent, answer)
    {
      if bits == 0 || bits > 64 { return Invalid; }
      if !answer.Grants? { return Refused; }
      var granted := answer.granted;
      if granted == 0 || granted > 64 { return Refused; }
      var id := Alloc(tree.Keys, parent, granted);
      if id == INVALID_ID { return TooBig; }
      if !StaysInside(tree.Keys, parent, granted) {
        wide := true;
      } else if !wide {
        MirrorsGranted(trace, tree, lists, table.Keys, parent, granted);
      }
      NewRegion(parent, Key(id, parent.plen + granted), trace + [Op.Grant(parent, granted)]);
      return Ok;
    }

    // ----- Loading

    /** `mod_load_alloc_entry` and `mod_load_publish_entry`. */
    method Publish(req: Request, loader: Module?) returns (m: Module)
      requires Valid() && (loader != null ==> loader.serial < nextSerial) && Vacant(table, current, req.path)
      modifies this`table, this`nextSerial, this`trace
      ensures Valid() && fresh(m) && IsOf(m, req, loader)
      ensures m !in old(table) && m.serial == old(nextSerial) && nextSerial == old(nextSerial) + 1
      ensures table == old(table)[m := Entry(1, current)] && forall k :: k in lists ==> m !in lists[k]
    {
      m := new Module(req.path, req.hasCtx, req.image, req.exports, nextSerial, loader);
      Enlist(m);
    }

    method Enlist(m: Module)
      requires Valid() && m !in table && m.serial == nextSerial && (m.loader != null ==> m.loader.serial < nextSerial)
      requires Vacant(table, current, m.path)
      modifies this`table, this`nextSerial, this`trace
      ensures Valid() && nextSerial == old(nextSerial) + 1 && table == old(table)[m := Entry(1, current)]
      ensures forall k :: k in lists ==> m !in lists[k]
    {
      EnlistBooks(Now(), current, m);
      Record(Op.Publish(m), m);
      table := table[m := Entry(1, current)];
      assert table.Keys == old(table).Keys + {m};
      nextSerial := nextSerial + 1;
    }

    /** The run goes on with the publishing of m. */
    ghost method Record(op: Op, m: Module)
      requires Traced() && op == Op.Publish(m)
      modifies this`trace
      ensures trace == old(trace) + [op] && (!wide ==> Mirrors(trace, tree, lists, table.Keys + {m}))
    {
      if !wide { MirrorsPublished(trace, tree, lists, table.Keys, m); }
      trace := trace + [op];
    }

    /** `module_region_append`, to the entry's home. */
    method Append(m: Module)
      requires Valid() && m in table && forall k :: k in lists ==> m !in lists[k]
      modifies this`lists, this`trace
      ensures Valid() && table[m].home in old(lists)
      ensures lists == old(lists)[table[m].home := old(lists)[table[m].home] + [m]]
    {
      var home := table[m].home;
      HomeListed(Now(), m);
      LinkBooks(Now(), m, |lists[home]|);
      assert InsertAt(lists[home], |lists[home]|, m) == lists[home] + [m];
      if !wide { MirrorsInserted(trace, tree, lists, table.Keys, home, |lists[home]|, m); }
      trace := trace + [Op.Insert(home, |lists[home]|, m)];
      lists := lists[home := lists[home] + [m]];
    }

    /** `mod_load_claim_if_needed`: the gate, and the claim when the region wants one. */
    method Gate(req: Request, m: Module) returns (status: Status)
      requires Valid() && m in table && table[m].home == current && forall k :: k in lists ==> m !in lists[k]
      modifies this`tree, this`lists, this`table, this`current, this`trace, this`wide
      ensures Valid() && table.Keys == old(table).Keys && table[m].home == current
      ensures status == GateStatus(gates, req, old(tree), old(current))
      ensures current in old(tree) ==> Now() == old(Now()) && current == old(current)
      ensures current !in old(tree) ==>
                && status == Ok && lists == old(lists)[current := []]
                && (forall k :: k in old(tree) ==> k in tree)
                && table == old(table)[m := old(table)[m].(home := current)]
                && current == ChildOf(old(tree), old(current), req.answer)
      ensures status == Ok ==> (Ungated(gates, req, old(current)) <==> current in old(tree))
      ensures status != Ok ==> current == old(current)
    {
      if current in gates.required && req.claim.None? { return Refused; }
      if req.claim.None? || (current !in gates.handled && current !in gates.required) { return Ok; }
      ghost var before := tree;
      HomesKnown(Now());
      status := ClaimFor(current, req.claim.value, if current in gates.handled then req.answer else NoHandler);
      if status != Ok { return; }
      RehomeBooks(Now(), m, current, before);
      table := table[m := table[m].(home := current)];
      assert table.Keys == old(table).Keys;
    }

    /** The steps from binding the context to linking the entry: ABI check, claim gate, append. */
    method Settle(req: Request, m: Module) returns (status: Status)
      requires Valid() && m in table && table[m].home == current && forall k :: k in lists ==> m !in lists[k]
      modifies this`tree, this`lists, this`table, this`current, this`trace, this`wide
      ensures Valid() && m in table && table[m] == Entry(old(table)[m].refs, current) && table - {m} == old(table) - {m}
      ensures (forall k :: k in old(tree) ==> k in tree) && (current in old(tree) ==> tree == old(tree))
      ensures status == if req.hasCtx && !req.abiOk then AbiMismatch
                        else GateStatus(gates, req, old(tree), old(current))
      ensures status != Ok ==> lists == old(lists)
      ensures status == Ok ==> lists == old(lists)[current := ListOr(old(lists), current) + [m]]
      ensures status == Ok ==> (Ungated(gates, req, old(current)) <==> current in old(tree))
      ensures if current in old(tree) then current == old(current)
              else current == ChildOf(old(tree), old(current), req.answer)
    {
      if req.hasCtx && !req.abiOk { return AbiMismatch; }
      Listed(Now());
      status := Gate(req, m);
      if status == Ok { Append(m); }
    }

    /** `mod_load_restore_context`. */
    method Return(prev: Key)
      requires Valid() && prev in tree
      modifies this`current
      ensures Valid() && current == prev
    {
      current := prev;
    }

    /** The part of `mod_load_abort` that touches the tables. */
    method Retract(m: Module)
      requires Valid() && m in table
      modifies this`lists, this`table, this`trace
      ensures Valid() && table == old(table) - {m} && lists == Purged(old(lists), {m})
      ensures Removes(old(trace), trace, false)
    {
      RetractBooks(Now(), m);
      assert Homed(lists, table) && OnceEach(lists) by { BalancedIs(Now()); }
      Delist(m, false);
    }

    /** `mod_load_abort`: the lists and the current region are as before the load. */
    method Undo(m: Module, prev: Key, ghost ls: Lists)
      requires Valid() && m in table && prev in tree && forall k :: k in ls ==> m !in ls[k]
      requires lists == ls[current := ListOr(ls, current) + [m]] || lists == ls
      modifies this`lists, this`table, this`trace, this`current
      ensures Valid() && table == old(table) - {m} && current == prev && AsBefore(ls, lists)
      ensures lists.Keys == old(lists).Keys
    {
      UndoneLoad(ls, lists, m, current);
      Retract(m);
      Return(prev);
    }

    /** Everything before the install runs; every failure undoes the entry. */
    method Begin(req: Request, loader: Module?) returns (status: Status, m: Module)
      requires Valid() && (loader != null ==> loader.serial < nextSerial) && Vacant(table, current, req.path)
      modifies this`tree, this`lists, this`table, this`current, this`nextSerial, this`trace, this`wide
      ensures Valid() && status == LoadStatus(gates, req, old(tree), old(current))
      ensures status != Ok ==>
                && table == old(table) && AsBefore(old(lists), lists) && current == old(current)
                && nextSerial >= old(nextSerial) && forall k :: k in old(tree) ==> k in tree
      ensures status == Ok ==>
                && Begun(old(Now()), Now(), current, m) && IsOf(m, req, loader)
                && Settled(old(Now()), req, old(current), current) && (current == old(current) ==> tree == old(tree))
    {
      ghost var ls := lists;
      var prev := current;
      status, m := Try(req, loader);
      if status != Ok { Undo(m, prev, ls); }
    }

    /** The same, with the entry still there after a failure. */
    method Try(req: Request, loader: Module?) returns (status: Status, m: Module)
      requires Valid() && (loader != null ==> loader.serial < nextSerial) && Vacant(table, current, req.path)
      modifies this`tree, this`lists, this`table, this`current, this`nextSerial, this`trace, this`wide
      ensures Valid() && status == LoadStatus(gates, req, old(tree), old(current))
      ensures m !in old(table) && m in table && table - {m} == old(table) && nextSerial == old(nextSerial) + 1
      ensures (forall k :: k in old(tree) ==> k in tree) && (forall k :: k in old(lists) ==> m !in old(lists)[k])
      ensures status != Ok ==> lists == old(lists)[current := ListOr(old(lists), current) + [m]] || lists == old(lists)
      ensures status == Ok ==>
                && Begun(old(Now()), Now(), current, m) && IsOf(m, req, loader)
                && Settled(old(Now()), req, old(current), current) && (current == old(current) ==> tree == old(tree))
    {
      ghost var tb := table;
      var prev := current;
      m := Publish(req, loader);
      status := Settle(req, m);
      if status == Ok && !req.hasInstall { status := NotFound; }
      AddedAndTaken(tb, m, Entry(1, prev));
    }

    /** What an install does, with m as the loader, and the moments it goes through. */
    method RunInstall(req: Request, steps: seq<InstallStep>, m: Module) returns (ghost ts: seq<Moment>)
      requires req.install == steps && Valid() && m.serial < nextSerial
      modifies this`tree, this`lists, this`table, this`current, this`gates, this`nextSerial, this`trace, this`wide,
               this`gone, this`stray
      ensures Valid() && Carries(old(Now()), Now(), Named(steps)) && (Calm(steps) ==> stray == old(stray))
      ensures Named(steps) == {} ==> Grows(old(Now()), Now())
      ensures Trail(steps, m, ts) && At(ts[0], old(current), old(Now()), old(trace))
      ensures At(ts[|ts| - 1], current, Now(), trace)
      decreases req, 0
    {
      ghost var b := Now();
      ts := [Moment(current, b, trace, Ok, None, None)];
      StartOfInstall(b, steps);
      for i := 0 to |steps|
        invariant Valid() && Carries(b, Now(), Named(steps)) && (Calm(steps) ==> stray == old(stray))
        invariant Named(steps) == {} ==> Grows(b, Now())
        invariant |ts| == i + 1 && At(ts[0], old(current), b, old(trace)) && At(ts[i], current, Now(), trace)
        invariant Trail(steps[..i], m, ts)
      {
        ghost var b1 := Now();
        ghost var t := RunStep(steps[i], m, ts[i]);
        OneMoreStep(b, b1, Now(), steps, i);
        TrailMore(steps, i, m, ts, t);
        ts := ts + [t];
      }
      assert steps[..|steps|] == steps;
    }

    /** One call of an install. */
    method RunStep(step: InstallStep, m: Module, ghost x: Moment) returns (ghost y: Moment)
      requires Valid() && m.serial < nextSerial && At(x, current, Now(), trace)
      modifies this`tree, this`lists, this`table, this`current, this`gates, this`nextSerial, this`trace, this`wide,
               this`gone, this`stray
      ensures Valid() && Carries(old(Now()), Now(), NamedBy(step)) && (CalmStep(step) ==> stray == old(stray))
      ensures NamedBy(step) == {} ==> Grows(old(Now()), Now())
      ensures Follows(step, m, x, y) && At(y, current, Now(), trace)
      decreases step, 9
    {
      if step.LoadModule? || step.ReloadModule? {
        y := RunModuleStep(step, m, x);
      } else {
        y := RunPlainStep(step, m, x);
      }
    }

    /** A load or a reload, which run installs of their own. */
    method RunModuleStep(step: InstallStep, m: Module, ghost x: Moment) returns (ghost y: Moment)
      requires Valid() && m.serial < nextSerial && At(x, current, Now(), trace)
      requires step.LoadModule? || step.ReloadModule?
      modifies this`tree, this`lists, this`table, this`current, this`gates, this`nextSerial, this`trace, this`wide,
               this`gone, this`stray
      ensures Valid() && Carries(old(Now()), Now(), NamedBy(step)) && (CalmStep(step) ==> stray == old(stray))
      ensures NamedBy(step) == {} ==> Grows(old(Now()), Now())
      ensures Follows(step, m, x, y) && At(y, current, Now(), trace)
      decreases step, 8
    {
      ghost var b := Now();
      ghost var run: Option<ReloadRun> := None;
      var status, entry;
      if step.LoadModule? {
        ghost var inner;
        status, entry, inner := Load(step.req, m);
        if Named(step.req.install) == {} { LoadGrows(current, b, Now(), step.req, m, status, entry); }
      } else {
        var lost;
        status, entry, lost, run := Reload(step.req, m);
      }
      y := Moment(current, Now(), trace, status, entry, run);
      FollowsIs(step, m, x, y);
    }

    method RunPlainStep(step: InstallStep, m: Module, ghost x: Moment) returns (ghost y: Moment)
      requires Valid() && At(x, current, Now(), trace) && !step.LoadModule? && !step.ReloadModule?
      modifies this`tree, this`lists, this`table, this`current, this`gates, this`trace, this`gone
      ensures Valid() && Carries(old(Now()), Now(), NamedBy(step))
      ensures NamedBy(step) == {} ==> Grows(old(Now()), Now())
      ensures Follows(step, m, x, y) && At(y, current, Now(), trace)
    {
      ghost var b := Now();
      var status := Ok;
      if step.UnloadModule? {
        status := Unload(step.path);
        UnloadedCarries(b, Now(), current, step.path);
      } else if step.ClaimRegion? {
        status := Claim(step.id, step.plen, step.handler);
      } else if step.RequireClaim? {
        RequireClaim(step.handler);
        SameBooks(b);
        GatesAside(b, b, gates, {});
      } else {
        Deny(step);
        SameBooks(b);
      }
      y := Moment(current, Now(), trace, status, None, None);
      FollowsIs(step, m, x, y);
    }

    /** A denial, registration or hook call made by an install, in the current region. */
    method Deny(step: InstallStep)
      requires Valid() && (step.DenyHook? || step.DenyModule? || step.RegisterHook? || step.CallHook?)
      modifies this`trace
      ensures Valid()
      ensures trace == old(trace) + [match step
                                     case DenyHook(hook) => Op.ForbidHook(current, hook)
                                     case DenyModule(path) => Op.ForbidModule(current, path)
                                     case RegisterHook(hook) => Op.Mint(hook)
                                     case CallHook(number) => Op.Call(current, number)]
    {
      match step {
        case DenyHook(hook) => Meanwhile(Op.ForbidHook(current, hook));
        case DenyModule(path) => Meanwhile(Op.ForbidModule(current, path));
        case RegisterHook(hook) => Meanwhile(Op.Mint(hook));
        case CallHook(number) => Meanwhile(Op.Call(current, number));
      }
    }

    /** `mod_load_run_install` and `mod_load_restore_context`, on an entry begun with the books b. */
    method Install(req: Request, loader: Module?, m: Module, prev: Key, ghost b: Books)
      returns (ghost ts: seq<Moment>)
      requires Valid() && Balanced(b) && Begun(b, Now(), current, m) && prev in b.tree && IsOf(m, req, loader)
      requires Settled(b, req, prev, current) && (current == prev ==> tree == b.tree)
      modifies this`tree, this`lists, this`table, this`current, this`gates, this`nextSerial, this`trace, this`wide,
               this`gone, this`stray
      ensures Valid() && current == prev && Carries(b, Now(), Named(req.install))
      ensures Calm(req.install) ==> stray == b.stray
      ensures Added(prev, b, Now(), req, loader, m) && Installs(prev, b, Now(), req, m, ts)
      decreases req, 1
    {
      ghost var b1, home := Now(), current;
      if tree == b.tree { BegunEntered(b, b1, home, m); }
      ts := RunInstall(req, req.install, m);
      UnloadOnce(req.install, m, ts);
      InstalledIsAdded(prev, b, b1, Now(), req, loader, m, home);
      Return(prev);
    }

    /** The transaction for a module that is not loaded here yet. */
    method LoadNew(req: Request, loader: Module?)
      returns (status: Status, entry: Option<Module>, ghost ts: seq<Moment>)
      requires Valid() && (loader != null ==> loader.serial < nextSerial) && Vacant(table, current, req.path)
      requires req.opens
      modifies this`tree, this`lists, this`table, this`current, this`gates, this`nextSerial, this`trace, this`wide,
               this`gone, this`stray
      ensures Valid() && current == old(current)
      ensures LoadEffect(current, old(Now()), Now(), req, loader, status, entry)
      ensures status == Ok ==> Installs(current, old(Now()), Now(), req, entry.value, ts)
      decreases req, 2
    {
      ghost var b := Now();
      var prev := current;
      ts := [];
      var m;
      status, m := Begin(req, loader);
      if status != Ok {
        UndoneCarries(b, Now(), Named(req.install));
        return status, None, [];
      }
      ts := Install(req, loader, m, prev, b);
      entry := Some(m);
    }

    /** `_mod_load`: reuse the live entry of this path and region, or load anew. */
    method Load(req: Request, loader: Module?)
      returns (status: Status, entry: Option<Module>, ghost ts: seq<Moment>)
      requires Valid() && (loader != null ==> loader.serial < nextSerial)
      modifies this`tree, this`lists, this`table, this`current, this`gates, this`nextSerial, this`trace, this`wide,
               this`gone, this`stray
      ensures Valid() && current == old(current)
      ensures LoadEffect(current, old(Now()), Now(), req, loader, status, entry)
      ensures status == Ok && Vacant(old(table), current, req.path) ==>
                Installs(current, old(Now()), Now(), req, entry.value, ts)
      decreases req, 3
    {
      ts := [];
      if !req.opens {
        NotOpened(current, Now(), req, loader);
        return NotFound, None, [];
      }
      var existing := Find(req.path);
      if existing.Some? {
        Retain(req, loader, existing.value);
        return Ok, existing, [];
      }
      status, entry, ts := LoadNew(req, loader);
    }

    /** `mod_load_try_reuse_existing`. */
    method Retain(req: Request, loader: Module?, m: Module)
      requires Valid() && IsHere(table, current, req.path, m) && req.opens
      modifies this`table
      ensures Valid() && LoadEffect(current, old(Now()), Now(), req, loader, Ok, Some(m))
    {
      ghost var b := Now();
      RetainedEffect(current, b, req, loader, m);
      table := table[m := table[m].(refs := table[m].refs + 1)];
      assert table.Keys == b.table.Keys;
    }

    // ----- Reloading

    /** `module_region_insert_after` for an entry that is linked nowhere. */
    method InsertBehind(m: Module, after: Option<Module>)
      requires Valid() && m in table && forall k :: k in lists ==> m !in lists[k]
      requires table[m].home in lists && (after.Some? ==> after.value in lists[table[m].home])
      modifies this`lists, this`trace
      ensures Valid() && table[m].home in lists && Behind(old(lists)[table[m].home], after, m, lists[table[m].home])
      ensures lists == old(lists)[table[m].home := lists[table[m].home]]
    {
      var home := table[m].home;
      var i := 0;
      if after.Some? {
        var j :| 0 <= j < |lists[home]| && lists[home][j] == after.value;
        i := j + 1;
      }
      LinkBooks(Now(), m, i);
      HomeListed(Now(), m);
      if !wide { MirrorsInserted(trace, tree, lists, table.Keys, home, i, m); }
      trace := trace + [Op.Insert(home, i, m)];
      lists := lists[home := InsertAt(lists[home], i, m)];
      assert BehindAt(old(lists)[home], after, m, i, lists[home]);
    }

    /** Unlink m from its home and link it again behind `after`. */
    method Reposition(m: Module, after: Option<Module>)
      requires Valid() && m in table && after != Some(m)
      requires table[m].home in lists && (after.Some? ==> after.value in lists[table[m].home])
      modifies this`lists, this`trace
      ensures Valid() && table[m].home in lists && lists == old(lists)[table[m].home := lists[table[m].home]]
      ensures Behind(Without(old(lists)[table[m].home], {m}), after, m, lists[table[m].home])
    {
      var home := table[m].home;
      UnlinkBooks(Now(), m);
      assert Homed(lists, table) && OnceEach(lists) by { BalancedIs(Now()); }
      Detach(m, false);
      if after.Some? { WithoutMember(old(lists)[home], {m}, after.value); }
      InsertBehind(m, after);
    }

    /**
     * The end of a reload. Behind a predecessor that is gone the code writes to freed memory; the model stops there.
     */
    method PutBack(m: Module, after: Option<Module>) returns (lost: bool)
      requires Valid() && m in table && after != Some(m) && table[m].home in lists
      modifies this`lists, this`trace, this`stray
      ensures Valid() && PutBackEffect(old(Now()), Now(), table[m].home, m, after, lost)
    {
      lost := after.Some? && after.value !in lists[table[m].home];
      if lost { stray := true; } else { Reposition(m, after); }
    }

    /** `region_prev` of an entry. */
    method Predecessor(e: Module) returns (after: Option<Module>)
      requires e in table && table[e].home in lists
      ensures Preceded(lists, table[e].home, e, after)
    {
      var ms := lists[table[e].home];
      if e !in ms { return None; }
      var i :| 0 <= i < |ms| && ms[i] == e;
      after := if i == 0 then None else Some(ms[i - 1]);
      assert IsPredecessor(ms, e, i, after);
    }

    /** Look the path up again and put what is found behind the old predecessor. */
    method PutBackFound(path: string, after: Option<Module>) returns (entry: Option<Module>, lost: bool)
      requires Valid() && (after.Some? ==> !IsHere(table, current, path, after.value))
      modifies this`lists, this`trace, this`stray
      ensures Valid() && (entry.None? <==> Vacant(old(table), current, path))
      ensures entry.None? ==> !lost && Now() == old(Now())
      ensures entry.Some? ==> && IsHere(old(table), current, path, entry.value) && current in old(lists)
                              && PutBackEffect(old(Now()), Now(), current, entry.value, after, lost)
    {
      lost := false;
      entry := Find(path);
      if entry.Some? {
        HomeListed(Now(), entry.value);
        lost := PutBack(entry.value, after);
      }
    }

    /** `xy_reload`, with a record of what it went through. */
    method Reload(req: Request, loader: Module?)
      returns (status: Status, entry: Option<Module>, lost: bool, ghost run: Option<ReloadRun>)
      requires Valid() && (loader != null ==> loader.serial < nextSerial)
      modifies this`tree, this`lists, this`table, this`current, this`gates, this`nextSerial, this`trace, this`wide,
               this`gone, this`stray
      ensures Valid() && current == old(current)
      ensures Carries(old(Now()), Now(), NamedBy(ReloadModule(req)))
      ensures ReloadedHere(old(Now()), Now(), current, req, loader, run)
      ensures Vacant(old(table), current, req.path) ==> status == NotFound && entry.None? && !lost
      ensures !Vacant(old(table), current, req.path) ==>
                run.Some? && run.value.status == status && run.value.entry == entry && run.value.lost == lost
      decreases req, 6
    {
      var existing := Find(req.path);
      if existing.None? {
        SameBooks(Now());
        CarriesMore(Now(), Now(), {}, NamedBy(ReloadModule(req)));
        return NotFound, None, false, None;
      }
      HomeListed(Now(), existing.value);
      var after := Predecessor(existing.value);
      ghost var r;
      status, entry, lost, r := Renew(req, loader, existing.value, after);
      ReloadCarries(r);
      run := Some(r);
    }

    /** Unload and load. */
    method Replace(req: Request, loader: Module?, e: Module)
      returns (status: Status, loaded: Option<Module>, ghost b1: Books)
      requires Valid() && (loader != null ==> loader.serial < nextSerial) && e in table
      modifies this`tree, this`lists, this`table, this`current, this`gates, this`nextSerial, this`trace, this`wide,
               this`gone, this`stray
      ensures Valid() && current == old(current) && b1 == Unloaded(old(Now()), e)
      ensures LoadEffect(current, b1, Now(), req, loader, status, loaded)
      decreases req, 4
    {
      Release(e);
      b1 := Now();
      ghost var inner;
      status, loaded, inner := Load(req, loader);
    }

    /** The steps of a reload once the entry and its predecessor are known. */
    method Renew(req: Request, loader: Module?, e: Module, after: Option<Module>)
      returns (status: Status, entry: Option<Module>, lost: bool, ghost r: ReloadRun)
      requires Valid() && (loader != null ==> loader.serial < nextSerial)
      requires IsHere(table, current, req.path, e) && Preceded(lists, current, e, after)
      modifies this`tree, this`lists, this`table, this`current, this`gates, this`nextSerial, this`trace, this`wide,
               this`gone, this`stray
      ensures Valid() && current == old(current)
      ensures Records(r, current, old(Now()), Now(), req, loader, status, entry, lost)
      decreases req, 5
    {
      ghost var b := Now();
      Listed(b);
      var loaded;
      ghost var b1;
      status, loaded, b1 := Replace(req, loader, e);
      ghost var b2 := Now();
      Listed(b2);
      if after.Some? { PredecessorDiffers(b, b2, current, e, after.value, req.path); }
      entry, lost := None, false;
      if status == Ok { entry, lost := PutBackFound(req.path, after); }
      r := ReloadRun(current, b, b1, b2, Now(), req, loader, e, after, loaded, status, entry, lost);
    }
  }

  /**
   * Whatever was loaded, unloaded, reloaded, claimed, denied and dispatched, while no place was lost: the regions form
   * a tree of prefixes, every linked module is live and linked once, no fresh vector holds a module that is not live
   * and linked below its region.
   */
  lemma ReachedIsSound(r: Registry)
    requires r.Valid() && !r.wide && !r.stray && |r.trace| < Coherence.LAST_GEN
    ensures TreeInv(r.tree) && Coherence.Linked(r.lists, r.table.Keys) && Coherence.Inv(Run(r.trace))
    ensures var s := Run(r.trace);
            IsState(s, r.tree, r.lists, r.table.Keys) &&
            forall k, h, m :: k in r.tree && Coherence.IsFresh(s.cache[k], h) && m in s.cache[k].vec[h].slots ==>
              m in r.table && exists j :: j in Below(r.tree, k) && j in r.lists && m in r.lists[j]
  {
    var s := Run(r.trace);
    RunBehind(r.trace, r.tree, r.lists, r.table.Keys);
    RunInv(r.trace);
    forall k, h, m | k in r.tree && Coherence.IsFresh(s.cache[k], h) && m in s.cache[k].vec[h].slots
      ensures m in r.table && exists j :: j in Below(r.tree, k) && j in r.lists && m in r.lists[j]
    {
      NoStaleListener(r.trace, k, h, m);
    }
  }
}
