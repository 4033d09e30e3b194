/**
 * What loads come to, told by the fields of the request: when one succeeds, what it adds, and what its install loads.
 */
module Installs {
  import opened Word
  import opened Prefix
  import opened Tree
  import opened Claims
  import opened Slots
  import opened ModuleEntry
  import opened Dispatch
  import opened Lifecycle
  import opened HostLemmas
  import opened Tables
  import opened Orders
  import opened Loading
  import opened Reloading
  import opened Loader

  // ----- When a load succeeds

  /** The module's context is one the host can fill. */
  predicate Fitting(req: Request) {
    req.opens && (req.hasCtx ==> req.abiOk)
  }

  /** Without a claim: refused where the region requires one, and nothing is changed by a refusal. */
  lemma UnclaimedLoad(k: Key, b: Books, b': Books, req: Request, loader: Module?, status: Status, entry: Option<Module>)
    requires LoadEffect(k, b, b', req, loader, status, entry) && Vacant(b.table, k, req.path)
    requires Fitting(req) && req.claim == None
    ensures status == Refused <==> k in b.gates.required
    ensures status == Ok <==> k !in b.gates.required && req.hasInstall
    ensures status == NotFound <==> k !in b.gates.required && !req.hasInstall
    ensures status != Ok ==> entry == None && b'.table == b.table && (!b.stray ==> AsBefore(b.lists, b'.lists))
  {
  }

  /** With a claim, in a region with a handler: what is asked, what is granted, and a slot for it. */
  lemma ClaimedLoad(k: Key, b: Books, b': Books, req: Request, loader: Module?, status: Status, entry: Option<Module>,
                    bits: nat)
    requires LoadEffect(k, b, b', req, loader, status, entry) && Vacant(b.table, k, req.path) && k in b.tree
    requires Fitting(req) && req.claim == Some(bits) && k in b.gates.handled
    ensures status == Invalid <==> bits == 0 || 64 < bits
    ensures 0 < bits <= 64 && (!req.answer.Grants? || req.answer.granted == 0 || 64 < req.answer.granted) ==>
              status == Refused
    ensures 0 < bits <= 64 && req.answer.Grants? && 0 < req.answer.granted <= 64 ==>
              if Alloc(b.tree.Keys, k, req.answer.granted) == INVALID_ID then status == TooBig
              else status == if req.hasInstall then Ok else NotFound
  {
  }

  /** With a claim, where none is asked for: refused under a gate without a handler, else as if there were none. */
  lemma UnheardLoad(k: Key, b: Books, b': Books, req: Request, loader: Module?, status: Status, entry: Option<Module>,
                    bits: nat)
    requires LoadEffect(k, b, b', req, loader, status, entry) && Vacant(b.table, k, req.path) && k in b.tree
    requires Fitting(req) && req.claim == Some(bits) && k !in b.gates.handled
    ensures k in b.gates.required ==> status == if bits == 0 || 64 < bits then Invalid else Refused
    ensures k !in b.gates.required ==> status == if req.hasInstall then Ok else NotFound
  {
  }

  /** The region takes the module: no claim where none is required, or one that is granted a slot. */
  ghost predicate Takes(b: Books, k: Key, req: Request) {
    match req.claim
    case None => k !in b.gates.required
    case Some(bits) =>
      || (k !in b.gates.handled && k !in b.gates.required)
      || (k in b.gates.handled && 0 < bits <= 64 && req.answer.Grants? && 0 < req.answer.granted <= 64
          && Alloc(b.tree.Keys, k, req.answer.granted) != INVALID_ID)
  }

  /** A module that is not here yet is loaded if and only if it opens, fits, has an install and the region takes it. */
  lemma LoadSucceedsIff(k: Key, b: Books, b': Books, req: Request, loader: Module?, status: Status,
                        entry: Option<Module>)
    requires LoadEffect(k, b, b', req, loader, status, entry) && Vacant(b.table, k, req.path) && k in b.tree
    ensures status == Ok <==> Fitting(req) && req.hasInstall && Takes(b, k, req)
    ensures !req.opens ==> status == NotFound
    ensures req.opens && req.hasCtx && !req.abiOk ==> status == AbiMismatch
  {
  }

  /** A granted slot exists, below width 64, exactly while some identity of that width inside the region is free. */
  lemma TakesIff(b: Books, k: Key, req: Request, bits: nat)
    requires Canonical(k) && k in b.gates.handled && req.claim == Some(bits) && 0 < bits <= 64
    requires req.answer.Grants? && 0 < req.answer.granted && k.plen + req.answer.granted < 64
    ensures Takes(b, k, req) <==> exists f :: FreeInside(b.tree.Keys, k, req.answer.granted, f)
  {
    AllocFailsIffFull(b.tree.Keys, k, req.answer.granted);
  }

  // ----- Gates, by calls

  method GateRefuses(r: Registry, req: Request) returns (status: Status, entry: Option<Module>)
    requires r.Valid() && !r.stray && Vacant(r.table, r.current, req.path) && Fitting(req) && req.claim == None
    modifies r
    ensures r.Valid() && status == Refused && entry == None && r.table == old(r.table)
    ensures AsBefore(old(r.lists), r.lists) && r.current == old(r.current)
  {
    r.RequireClaim(true);
    ghost var b := r.Now();
    ghost var ts;
    status, entry, ts := r.Load(req, null);
    UnclaimedLoad(r.current, b, r.Now(), req, null, status, entry);
  }

  // ----- References

  /** Loading again what is loaded counts one reference more, and unloading it then takes that one away. */
  method LoadTwice(r: Registry, req: Request) returns (entry: Option<Module>)
    requires r.Valid() && req.opens && !Vacant(r.table, r.current, req.path)
    modifies r
    ensures r.Valid() && r.Now() == old(r.Now()) && r.current == old(r.current)
    ensures entry.Some? && IsHere(r.table, r.current, req.path, entry.value)
  {
    ghost var b := r.Now();
    var existing := r.Find(req.path);
    var e := existing.value;
    var status;
    ghost var ts;
    status, entry, ts := r.Load(req, null);
    ghost var b1 := r.Now();
    assert IsHere(b1.table, r.current, req.path, e);
    var gone := r.Unload(req.path);
    CountedBack(b, e);
  }

  lemma CountedBack(b: Books, e: Module)
    requires Balanced(b) && e in b.table
    ensures b.table[e].refs > 0 && Unloaded(b.(table := Retained(b.table, e)), e) == b
  {
    BalancedIs(b);
    UnloadShared(b.(table := Retained(b.table, e)), e);
  }

  /** And a module loaded once is gone after one unload. */
  method LoadOnce(r: Registry, req: Request) returns (status: Status)
    requires r.Valid() && !r.stray && Vacant(r.table, r.current, req.path) && req.install == []
    requires Ungated(r.gates, req, r.current)
    modifies r
    ensures r.Valid() && r.table == old(r.table) && r.current == old(r.current)
  {
    ghost var b := r.Now();
    var entry;
    ghost var ts;
    status, entry, ts := r.Load(req, null);
    if status == Ok {
      ghost var b1, m := r.Now(), entry.value;
      assert Named([]) == {} && Calm([]);
      assert IsHere(b1.table, r.current, req.path, m);
      var gone := r.Unload(req.path);
      UnloadedAlone(b, b1, m);
    }
  }

  lemma UnloadedAlone(b: Books, b1: Books, m: Module)
    requires Balanced(b) && m.serial == b.nextSerial && LoadedOnly(b.lists, b.table, b1.lists, b1.table, m)
    ensures Unloaded(b1, m).table == b.table
  {
    BalancedIs(b);
    OnlyAdded(b.table, b1.table, m);
    forall x | x in b.table ensures !Doomed(b1.table, m, x) && !Reached(b1.table, m, x) {
      if Doomed(b1.table, m, x) { DoomedYounger(b1.table, m, x); }
      if Reached(b1.table, m, x) { DoomedYounger(b1.table, m, x.loader); }
    }
  }

  // ----- What an install loads

  /** Two modules of a region, the second loaded by the first and linked behind it. */
  ghost predicate LoaderAndLoaded(b: Books, k: Key, x: Module, y: Module) {
    && x in b.table && b.table[x].home == k && y in b.table && b.table[y].home == k && y.loader == x && y != x
    && k in b.lists && exists i, j :: 0 <= i < j < |b.lists[k]| && b.lists[k][i] == x && b.lists[k][j] == y
  }

  /** Loading p, whose install loads q, loads q as well, with p as its loader and behind it. */
  method LoadWithChild(r: Registry, p: Request, q: Request) returns (x: Module, ghost y: Module)
    requires r.Valid() && !r.stray && Vacant(r.table, r.current, p.path) && Vacant(r.table, r.current, q.path)
    requires p.path != q.path && p.install == [LoadModule(q)] && Named(q.install) == {}
    requires Fitting(p) && p.hasInstall && p.claim == None && Fitting(q) && q.hasInstall && q.claim == None
    requires r.current !in r.gates.required
    modifies r
    ensures r.Valid() && r.current == old(r.current) && x.path == p.path && y.path == q.path
    ensures LoaderAndLoaded(r.Now(), r.current, x, y)
  {
    ghost var b := r.Now();
    var status, entry;
    ghost var ts;
    status, entry, ts := r.Load(p, null);
    UnclaimedLoad(r.current, b, r.Now(), p, null, status, entry);
    x := entry.value;
    FollowsIs(LoadModule(q), x, ts[0], ts[1]);
    y := ChildLoaded(r.current, b, r.Now(), p, q, x, ts);
  }

  lemma ChildLoaded(k: Key, b: Books, b': Books, p: Request, q: Request, x: Module, ts: seq<Moment>) returns (y: Module)
    requires Balanced(b) && Balanced(b') && !b.stray && Vacant(b.table, k, q.path) && x.path == p.path != q.path
    requires p.install == [LoadModule(q)] && Named(q.install) == {} && p.claim == None
    requires Fitting(q) && q.hasInstall && q.claim == None && k !in b.gates.required
    requires Installs(k, b, b', p, x, ts)
    ensures y.path == q.path && LoaderAndLoaded(b', k, x, y)
  {
    FollowsIs(LoadModule(q), x, ts[0], ts[1]);
    var b1 := ts[0].b;
    assert b1 == Entered(b, k, x);
    assert Vacant(b1.table, k, q.path);
    UnclaimedLoad(k, b1, b', q, x, ts[1].status, ts[1].entry);
    y := ts[1].entry.value;
    NamelessCalm(q.install);
    InFrontOf(k, b1, b', q, x, y);
  }

  lemma InFrontOf(k: Key, b1: Books, b': Books, q: Request, x: Module, y: Module)
    requires Added(k, b1, b', q, x, y) && !b'.stray && !b1.stray && Named(q.install) == {} && q.claim == None
    requires x in b1.table && b1.table[x].home == k && IsAt(b1.lists, k, x)
    ensures LoaderAndLoaded(b', k, x, y)
  {
    var i :| 0 <= i < |b1.lists[k]| && b1.lists[k][i] == x;
    var n := |b1.lists[k]|;
    assert b'.lists[k][i] == (ListOr(b1.lists, k) + [y])[i];
    assert b'.lists[k][n] == (ListOr(b1.lists, k) + [y])[n];
  }

  // ----- What an install claims

  /**
   * A claim of a legal shape makes the region current, adds it and nothing else to the regions if it was not there, and
   * gives it a handler only if it brings one; of any other shape it does nothing.
   */
  lemma ClaimMakes(k: Key, b: Books, k': Key, b': Books, id: Word, plen: nat, handler: bool, status: Status)
    requires Balanced(b) && ClaimedHere(k, b, k', b', Key(id, plen), handler, status)
    ensures plen > 64 ==> status == TooBig && k' == k && b' == b
    ensures plen <= 64 && id % Pow2(64 - plen) != 0 ==> status == Invalid && k' == k && b' == b
    ensures plen <= 64 && id % Pow2(64 - plen) == 0 ==>
              && status == Ok && k' == Key(id, plen) && b'.tree.Keys == b.tree.Keys + {k'}
              && b'.table == b.table && b'.gates.required == b.gates.required
              && b'.gates.handled == (if handler then b.gates.handled + {k'} else b.gates.handled)
              && (k' !in b.tree ==>
                    && k' in b'.lists && b'.lists[k'] == [] && k' in b'.tree && b'.tree[k'].parent.Some?
                    && IsLongest(b.tree.Keys, id, plen, b'.tree[k'].parent.value)
                    && (!handler ==> k' !in b'.gates.handled) && k' !in b'.gates.required)
  {
    BalancedIs(b);
    if plen <= 64 { AgreesIsTruncation(id, Key(id, plen)); }
  }

  /** An install that claims a region and then loads there: the child is at home in the claimed region. */
  method ClaimThenLoad(r: Registry, p: Request, q: Request, id: Word, plen: nat) returns (x: Module, ghost y: Module)
    requires r.Valid() && !r.stray && Vacant(r.table, r.current, p.path) && Fitting(p) && p.hasInstall
    requires p.claim == None
    requires p.install == [ClaimRegion(id, plen, false), LoadModule(q)] && Named(q.install) == {}
    requires r.current !in r.gates.required && Fitting(q) && q.hasInstall && q.claim == None
    requires plen <= 64 && id % Pow2(64 - plen) == 0 && Key(id, plen) !in r.tree
    modifies r
    ensures r.Valid() && r.current == old(r.current) && x.path == p.path && y.path == q.path
    ensures y in r.table && r.table[y].home == Key(id, plen) && y.loader == x
  {
    ghost var b := r.Now();
    var status, entry;
    ghost var ts;
    status, entry, ts := r.Load(p, null);
    UnclaimedLoad(r.current, b, r.Now(), p, null, status, entry);
    x := entry.value;
    y := ClaimedThenLoaded(r.current, b, r.Now(), p, q, id, plen, x, ts);
  }

  lemma ClaimedThenLoaded(k: Key, b: Books, b': Books, p: Request, q: Request, id: Word, plen: nat, x: Module,
                          ts: seq<Moment>) returns (y: Module)
    requires Balanced(b) && !b.stray && p.claim == None && Installs(k, b, b', p, x, ts)
    requires p.install == [ClaimRegion(id, plen, false), LoadModule(q)] && Named(q.install) == {}
    requires Fitting(q) && q.hasInstall && q.claim == None
    requires plen <= 64 && id % Pow2(64 - plen) == 0 && Key(id, plen) !in b.tree && k in b.tree
    ensures y.path == q.path && y in b'.table && b'.table[y].home == Key(id, plen) && y.loader == x
  {
    FollowsIs(p.install[0], x, ts[0], ts[1]);
    FollowsIs(p.install[1], x, ts[1], ts[2]);
    var b0, b1 := ts[0].b, ts[1].b;
    ClaimMakes(ts[0].k, b0, ts[1].k, b1, id, plen, false, ts[1].status);
    Listed(b0);
    NothingThere(b0, ts[1].k, q.path);
    UnclaimedLoad(ts[1].k, b1, b', q, x, ts[2].status, ts[2].entry);
    NamelessCalm(q.install);
    y := ts[2].entry.value;
  }

  lemma NothingThere(b: Books, k: Key, path: string)
    requires Balanced(b) && k !in b.tree
    ensures Vacant(b.table, k, path)
  {
    BalancedIs(b);
  }
}
