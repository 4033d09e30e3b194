/**
 * Handlers that call hooks while a dispatch iterates: which listeners each nested call finds, and what it may rewrite.
 */
module Reentry {
  import opened Prefix
  import opened Tree
  import opened ModuleEntry
  import opened Dispatch
  import opened Coherence
  import opened Runs
  import opened Scopes
  import opened Vectors
  import opened Tables

  /** A call a handler makes: a hook number, in either scope, and the region it has entered for it, if any. */
  datatype Ask = Ask(h: nat, selfOnly: bool, within: Option<Key>)

  /** The region a call is made in by a handler whose region is k. */
  function From(k: Key, ask: Ask): Key {
    if ask.within.Some? then ask.within.value else k
  }

  /** What the handlers do: the calls module m makes while it handles hook h. */
  type Program = (Module, nat) -> seq<Ask>

  /** A call made in region k, and the listeners it ran. */
  datatype Served = Served(k: Key, ask: Ask, runs: seq<Module>)

  /** Homes are regions, and every linked module is linked at home. */
  ghost predicate AtHome(s: State, homes: map<Module, Key>) {
    && (forall j, m :: j in s.lists && m in s.lists[j] ==> m in homes && homes[m] == j)
    && (forall m :: m in homes ==> homes[m] in s.tree)
  }

  /** What one call finds: the state it leaves and its listeners. A hook without number or refused has none. */
  ghost function Found(s: State, k: Key, ask: Ask): (State, seq<Module>)
    requires Aligned(s) && k in s.tree
  {
    if ask.h >= |s.hooks| || HookRefused(s, k, s.hooks[ask.h]) then (s, [])
    else if ask.selfOnly then (s, SelfRuns(s, k, ask.h))
    else Dispatched(s, k, ask.h)
  }

  /** The same by the simple walk, caches aside. */
  ghost function Walked(s: State, k: Key, ask: Ask): seq<Module>
    requires Aligned(s) && k in s.tree
  {
    if ask.h >= |s.hooks| || HookRefused(s, k, s.hooks[ask.h]) then []
    else if ask.selfOnly then SelfRuns(s, k, ask.h)
    else Naive(s, k, ask.h)
  }

  /** A call with all it causes, nested at most depth deep: the state it leaves and every call made, in order. */
  ghost function Serve(s: State, homes: map<Module, Key>, does: Program, k: Key, ask: Ask, depth: nat)
    : (State, seq<Served>)
    decreases depth, 2, 0
  {
    if !Aligned(s) || k !in s.tree then (s, [])
    else
      var (s1, runs) := Found(s, k, ask);
      var (s2, more) := ServeEach(s1, homes, does, runs, ask.h, depth);
      (s2, [Served(k, ask, runs)] + more)
  }

  /** The handlers of one call, each in its own region. */
  ghost function ServeEach(s: State, homes: map<Module, Key>, does: Program, ms: seq<Module>, h: nat, depth: nat)
    : (State, seq<Served>)
    decreases depth, 1, |ms|
  {
    if ms == [] || depth == 0 || ms[0] !in homes then (s, [])
    else
      var (s1, first) := ServeAll(s, homes, does, homes[ms[0]], does(ms[0], h), depth - 1);
      var (s2, rest) := ServeEach(s1, homes, does, ms[1..], h, depth);
      (s2, first + rest)
  }

  /** The calls one handler makes, from its region or from one it has entered; entering an unknown one runs nothing. */
  ghost function ServeAll(s: State, homes: map<Module, Key>, does: Program, k: Key, asks: seq<Ask>, depth: nat)
    : (State, seq<Served>)
    decreases depth, 3, |asks|
  {
    if asks == [] then (s, [])
    else
      var (s1, first) := Serve(s, homes, does, From(k, asks[0]), asks[0], depth);
      var (s2, rest) := ServeAll(s1, homes, does, k, asks[1..], depth);
      (s2, first + rest)
  }

  // ----- What calls leave alone

  /** Only caches differ, generations do not, and every fresh vector is untouched. */
  ghost predicate Untouched(s: State, s': State) {
    && Aligned(s) && Aligned(s') && s' == s.(cache := s'.cache)
    && forall j {:trigger SameFresh(s.cache[j], s'.cache[j])} :: j in s.tree ==> SameFresh(s.cache[j], s'.cache[j])
  }

  ghost predicate SameFresh(c: Cache, c': Cache) {
    c'.gen == c.gen && forall h :: IsFresh(c, h) ==> IsFresh(c', h) && c'.vec[h] == c.vec[h]
  }

  lemma UntouchedOn(s: State, s': State, s'': State)
    requires Untouched(s, s') && Untouched(s', s'')
    ensures Untouched(s, s'')
  {
    forall j | j in s.tree ensures SameFresh(s.cache[j], s''.cache[j]) {
      assert SameFresh(s.cache[j], s'.cache[j]) && SameFresh(s'.cache[j], s''.cache[j]);
    }
  }

  lemma FoundLeaves(s: State, k: Key, ask: Ask) returns (r: (State, seq<Module>))
    requires Inv(s) && k in s.tree
    ensures r == Found(s, k, ask) && Untouched(s, r.0)
  {
    r := Found(s, k, ask);
    if r.0 != s { DispatchLeaves(s, k, ask.h); }
    forall j | j in s.tree ensures SameFresh(s.cache[j], r.0.cache[j]) {
    }
  }

  lemma DispatchLeaves(s: State, k: Key, h: nat)
    requires Inv(s) && k in s.tree && h < |s.hooks|
    ensures SameFresh(s.cache[k], Freshened(s, k, h))
  {
    assert CacheOkAt(s, k);
    var c, c' := Collected(s, k), Freshened(s, k, h);
    var vec := Grown(c.vec, h);
    forall i | IsFresh(s.cache[k], i) ensures IsFresh(c', i) && c'.vec[i] == s.cache[k].vec[i] {
      assert vec[..|c.vec|][i] == c.vec[i];
    }
  }

  /** The simple walk and the refusal do not look at the caches. */
  lemma WalkedUntouched(s: State, s': State, k: Key, ask: Ask)
    requires Untouched(s, s') && k in s.tree
    ensures Walked(s', k, ask) == Walked(s, k, ask)
  {
  }

  lemma FoundExact(s: State, k: Key, ask: Ask) returns (r: (State, seq<Module>))
    requires Inv(s) && k in s.tree
    ensures r == Found(s, k, ask) && Inv(r.0) && (Exact(s) ==> Exact(r.0) && r.1 == Walked(s, k, ask))
  {
    r := Found(s, k, ask);
    if ask.h < |s.hooks| { DispatchedKeeps(s, k, ask.h); }
  }

  // ----- Every call of a nest

  /** Each call ran exactly what the simple walk finds from the region it was made in. */
  ghost predicate AllWalked(s: State, calls: seq<Served>)
    requires Aligned(s)
  {
    forall i :: 0 <= i < |calls| ==> calls[i].k in s.tree && calls[i].runs == Walked(s, calls[i].k, calls[i].ask)
  }

  /** What holds after a nest of calls from s. */
  ghost predicate Settled(s: State, r: (State, seq<Served>)) {
    Untouched(s, r.0) && Inv(r.0) && (Exact(s) ==> Exact(r.0) && AllWalked(s, r.1))
  }

  lemma AllWalkedBack(s: State, s': State, calls: seq<Served>)
    requires Untouched(s, s')
    ensures AllWalked(s', calls) ==> AllWalked(s, calls)
  {
    forall i | AllWalked(s', calls) && 0 <= i < |calls|
      ensures calls[i].k in s.tree && calls[i].runs == Walked(s, calls[i].k, calls[i].ask)
    {
      WalkedUntouched(s, s', calls[i].k, calls[i].ask);
    }
  }

  /**
   * However deep handlers call: no nested call rewrites a fresh vector, so none rewrites one an outer dispatch iterates
   * over, and with exact vectors every call runs what the simple walk finds from the region it is made in, be it that
   * of the handler or one the handler has entered.
   */
  lemma {:induction false} ServeSettles(s: State, homes: map<Module, Key>, does: Program, k: Key, ask: Ask, depth: nat)
    requires Inv(s) && AtHome(s, homes)
    ensures Settled(s, Serve(s, homes, does, k, ask, depth))
    decreases depth, 2, 0
  {
    if k !in s.tree {
      Itself(s);
      return;
    }
    var r := FoundSettles(s, homes, k, ask);
    EachSettles(r.0, homes, does, r.1, ask.h, depth);
    Joined(s, (r.0, [Served(k, ask, r.1)]), ServeEach(r.0, homes, does, r.1, ask.h, depth));
  }

  lemma FoundSettles(s: State, homes: map<Module, Key>, k: Key, ask: Ask) returns (r: (State, seq<Module>))
    requires Inv(s) && AtHome(s, homes) && k in s.tree
    ensures r == Found(s, k, ask) && Settled(s, (r.0, [Served(k, ask, r.1)])) && AtHome(r.0, homes)
  {
    r := FoundLeaves(s, k, ask);
    var e := FoundExact(s, k, ask);
    StillHome(s, r.0, homes);
    if Exact(s) { OneWalked(s, k, ask, r.1); }
  }

  lemma StillHome(s: State, s': State, homes: map<Module, Key>)
    requires Untouched(s, s') && AtHome(s, homes)
    ensures AtHome(s', homes)
  {
  }

  lemma OneWalked(s: State, k: Key, ask: Ask, runs: seq<Module>)
    requires Aligned(s) && k in s.tree && runs == Walked(s, k, ask)
    ensures AllWalked(s, [Served(k, ask, runs)])
  {
  }

  lemma {:induction false} EachSettles(s: State, homes: map<Module, Key>, does: Program, ms: seq<Module>, h: nat,
                                       depth: nat)
    requires Inv(s) && AtHome(s, homes)
    ensures Settled(s, ServeEach(s, homes, does, ms, h, depth))
    decreases depth, 1, |ms|
  {
    if ms == [] || depth == 0 || ms[0] !in homes {
      Itself(s);
    } else {
      var r := OneSettles(s, homes, does, ms[0], h, depth);
      EachSettles(r.0, homes, does, ms[1..], h, depth);
      Joined(s, r, ServeEach(r.0, homes, does, ms[1..], h, depth));
    }
  }

  lemma {:induction false} OneSettles(s: State, homes: map<Module, Key>, does: Program, m: Module, h: nat, depth: nat)
    returns (r: (State, seq<Served>))
    requires Inv(s) && AtHome(s, homes) && depth > 0 && m in homes
    ensures r == ServeAll(s, homes, does, homes[m], does(m, h), depth - 1)
    ensures Settled(s, r) && AtHome(r.0, homes)
    decreases depth, 0, 0
  {
    r := ServeAll(s, homes, does, homes[m], does(m, h), depth - 1);
    AllSettle(s, homes, does, homes[m], does(m, h), depth - 1);
  }

  lemma {:induction false} AllSettle(s: State, homes: map<Module, Key>, does: Program, k: Key, asks: seq<Ask>,
                                     depth: nat)
    requires Inv(s) && AtHome(s, homes)
    ensures Settled(s, ServeAll(s, homes, does, k, asks, depth))
    decreases depth, 3, |asks|
  {
    if asks == [] {
      Itself(s);
    } else {
      ServeSettles(s, homes, does, From(k, asks[0]), asks[0], depth);
      var r := Serve(s, homes, does, From(k, asks[0]), asks[0], depth);
      AllSettle(r.0, homes, does, k, asks[1..], depth);
      Joined(s, r, ServeAll(r.0, homes, does, k, asks[1..], depth));
    }
  }

  lemma Itself(s: State)
    requires Inv(s)
    ensures Settled(s, (s, []))
  {
    forall j | j in s.tree ensures SameFresh(s.cache[j], s.cache[j]) {
    }
  }

  lemma Joined(s: State, a: (State, seq<Served>), b: (State, seq<Served>))
    requires Settled(s, a) && Settled(a.0, b)
    ensures Settled(s, (b.0, a.1 + b.1))
  {
    UntouchedOn(s, a.0, b.0);
    AllWalkedBack(s, a.0, b.1);
  }

  // ----- Which calls a nest is made of

  /** Every listener a call finds is at home somewhere. */
  lemma FoundAtHome(s: State, homes: map<Module, Key>, k: Key, ask: Ask)
    requires Inv(s) && AtHome(s, homes) && k in s.tree
    ensures forall m :: m in Found(s, k, ask).1 ==> m in homes
  {
    forall m | m in Found(s, k, ask).1 ensures m in homes {
      if ask.selfOnly {
        KeepMember(s.lists[k], Denied(s, k), s.hooks[ask.h], m);
      } else {
        DispatchedKeeps(s, k, ask.h);
        SubtreeModsMember(s.tree, s.lists, k, m);
      }
    }
  }

  /** A state calls can be made in, and one that calls made there can lead to. Folded, see `Look`. */
  ghost predicate Apt(s: State, homes: map<Module, Key>) {
    forall n {:trigger Look(n)} :: Look(n) ==> Inv(s) && AtHome(s, homes)
  }

  ghost predicate Since(s: State, s': State) {
    forall n {:trigger Look(n)} :: Look(n) ==> Untouched(s, s')
  }

  lemma AptIs(s: State, homes: map<Module, Key>)
    ensures Apt(s, homes) <==> Inv(s) && AtHome(s, homes)
  {
    assert Look(0);
  }

  lemma SinceIs(s: State, s': State)
    ensures Since(s, s') <==> Untouched(s, s')
  {
    assert Look(0);
  }

  lemma SinceOn(s: State, s': State, s'': State)
    requires Since(s, s') && Since(s', s'')
    ensures Since(s, s'')
  {
    SinceIs(s, s');
    SinceIs(s', s'');
    SinceIs(s, s'');
    UntouchedOn(s, s', s'');
  }

  /** The calls of one handler's asks, and those of one call's nest. Folded, see `Look`. */
  ghost predicate AllOf(s: State, homes: map<Module, Key>, does: Program, k: Key, asks: seq<Ask>, depth: nat,
                        calls: seq<Served>)
  {
    forall n {:trigger Look(n)} :: Look(n) ==> calls == ServeAll(s, homes, does, k, asks, depth).1
  }

  ghost predicate NestOf(s: State, homes: map<Module, Key>, does: Program, k: Key, ask: Ask, depth: nat,
                         calls: seq<Served>)
  {
    forall n {:trigger Look(n)} :: Look(n) ==> calls == Serve(s, homes, does, k, ask, depth).1
  }

  lemma AllOfIs(s: State, homes: map<Module, Key>, does: Program, k: Key, asks: seq<Ask>, depth: nat,
                calls: seq<Served>)
    ensures AllOf(s, homes, does, k, asks, depth, calls) <==> calls == ServeAll(s, homes, does, k, asks, depth).1
  {
    assert Look(0);
  }

  lemma NestOfIs(s: State, homes: map<Module, Key>, does: Program, k: Key, ask: Ask, depth: nat, calls: seq<Served>)
    ensures NestOf(s, homes, does, k, ask, depth, calls) <==> calls == Serve(s, homes, does, k, ask, depth).1
  {
    assert Look(0);
  }

  /** The calls a handler makes are all made, one after the other, each with the whole nest it causes. */
  lemma {:induction false} AllNests(s: State, homes: map<Module, Key>, does: Program, k: Key, asks: seq<Ask>,
                                    depth: nat, j: nat, calls: seq<Served>)
    returns (s': State, pre: seq<Served>, nest: seq<Served>, post: seq<Served>)
    requires Apt(s, homes) && j < |asks| && AllOf(s, homes, does, k, asks, depth, calls)
    ensures Since(s, s') && Apt(s', homes) && NestOf(s', homes, does, From(k, asks[j]), asks[j], depth, nest)
    ensures calls == pre + nest + post
    decreases j
  {
    var s1, first, rest := AllUnfolds(s, homes, does, k, asks, depth, calls);
    if j == 0 {
      s', pre, nest, post := s, [], first, rest;
      Longer([], [], nest, post, []);
    } else {
      s', pre, nest, post := AllNests(s1, homes, does, k, asks[1..], depth, j - 1, rest);
      SinceOn(s, s1, s');
      Longer(first, pre, nest, post, []);
      pre := first + pre;
    }
  }

  lemma AllUnfolds(s: State, homes: map<Module, Key>, does: Program, k: Key, asks: seq<Ask>, depth: nat,
                   calls: seq<Served>)
    returns (s1: State, first: seq<Served>, rest: seq<Served>)
    requires Apt(s, homes) && asks != [] && AllOf(s, homes, does, k, asks, depth, calls)
    ensures NestOf(s, homes, does, From(k, asks[0]), asks[0], depth, first)
    ensures Since(s, s) && Since(s, s1) && Apt(s1, homes)
    ensures AllOf(s1, homes, does, k, asks[1..], depth, rest) && calls == first + rest
  {
    AptIs(s, homes);
    AllOfIs(s, homes, does, k, asks, depth, calls);
    ServeSettles(s, homes, does, From(k, asks[0]), asks[0], depth);
    var r := Serve(s, homes, does, From(k, asks[0]), asks[0], depth);
    Onward(s, r.0, homes);
    s1, first := r.0, r.1;
    rest := ServeAll(r.0, homes, does, k, asks[1..], depth).1;
    NestOfIs(s, homes, does, From(k, asks[0]), asks[0], depth, first);
    AllOfIs(s1, homes, does, k, asks[1..], depth, rest);
  }

  lemma Onward(s: State, s': State, homes: map<Module, Key>)
    requires Inv(s) && AtHome(s, homes) && Untouched(s, s') && Inv(s')
    ensures Since(s, s) && Since(s, s') && Apt(s', homes)
  {
    StillHome(s, s', homes);
    Itself(s);
    SinceIs(s, s);
    SinceIs(s, s');
    AptIs(s', homes);
  }

  lemma EachUnfolds(s: State, homes: map<Module, Key>, does: Program, ms: seq<Module>, h: nat, depth: nat)
    returns (s1: State, first: seq<Served>, rest: seq<Served>)
    requires Apt(s, homes) && depth > 0 && ms != [] && ms[0] in homes
    ensures AllOf(s, homes, does, homes[ms[0]], does(ms[0], h), depth - 1, first)
    ensures Since(s, s1) && Apt(s1, homes)
    ensures rest == ServeEach(s1, homes, does, ms[1..], h, depth).1
    ensures ServeEach(s, homes, does, ms, h, depth).1 == first + rest
  {
    AptIs(s, homes);
    var r := OneSettles(s, homes, does, ms[0], h, depth);
    Onward(s, r.0, homes);
    s1, first := r.0, r.1;
    rest := ServeEach(r.0, homes, does, ms[1..], h, depth).1;
    AllOfIs(s, homes, does, homes[ms[0]], does(ms[0], h), depth - 1, first);
  }

  /** So are those of every handler of a call. */
  lemma {:induction false} EachNests(s: State, homes: map<Module, Key>, does: Program, ms: seq<Module>, h: nat,
                                     depth: nat, n: nat, j: nat)
    returns (s': State, pre: seq<Served>, nest: seq<Served>, post: seq<Served>)
    requires Apt(s, homes) && depth > 0 && (forall m :: m in ms ==> m in homes)
    requires n < |ms| && j < |does(ms[n], h)|
    ensures Since(s, s') && Apt(s', homes)
    ensures var a := does(ms[n], h)[j]; NestOf(s', homes, does, From(homes[ms[n]], a), a, depth - 1, nest)
    ensures ServeEach(s, homes, does, ms, h, depth).1 == pre + nest + post
    decreases n
  {
    var s1, first, rest := EachUnfolds(s, homes, does, ms, h, depth);
    if n == 0 {
      s', pre, nest, post := AllNests(s, homes, does, homes[ms[0]], does(ms[0], h), depth - 1, j, first);
      Longer([], pre, nest, post, rest);
      post := post + rest;
    } else {
      s', pre, nest, post := EachNests(s1, homes, does, ms[1..], h, depth, n - 1, j);
      SinceOn(s, s1, s');
      Longer(first, pre, nest, post, []);
      pre := first + pre;
    }
  }

  lemma Longer<T>(before: seq<T>, a: seq<T>, b: seq<T>, c: seq<T>, after: seq<T>)
    ensures before + (a + b + c) == (before + a) + b + c
    ensures (a + b + c) + after == a + b + (c + after)
  {
  }

  /**
   * A call comes first, with the listeners it finds. Every call each of those listeners makes follows, with the whole
   * nest it causes, made from the listener's region or the one it has entered, in a state that differs in stale caches
   * only.
   */
  lemma ServeNests(s: State, homes: map<Module, Key>, does: Program, k: Key, ask: Ask, depth: nat, n: nat, j: nat)
    returns (s': State, pre: seq<Served>, nest: seq<Served>, post: seq<Served>)
    requires Inv(s) && AtHome(s, homes) && k in s.tree && depth > 0
    requires var runs := Found(s, k, ask).1; n < |runs| && j < |does(runs[n], ask.h)|
    ensures Untouched(s, s') && Inv(s') && Found(s, k, ask).1[n] in homes
    ensures var m := Found(s, k, ask).1[n];
            var a := does(m, ask.h)[j];
            nest == Serve(s', homes, does, From(homes[m], a), a, depth - 1).1
    ensures Serve(s, homes, does, k, ask, depth).1 == [Served(k, ask, Found(s, k, ask).1)] + pre + nest + post
  {
    var runs, calls;
    runs, calls, s', pre, nest, post := CallNests(s, homes, does, k, ask, depth, n, j);
    var a := does(runs[n], ask.h)[j];
    NestOfIs(s', homes, does, From(homes[runs[n]], a), a, depth - 1, nest);
    NestOfIs(s, homes, does, k, ask, depth, calls);
  }

  lemma CallNests(s: State, homes: map<Module, Key>, does: Program, k: Key, ask: Ask, depth: nat, n: nat, j: nat)
    returns (runs: seq<Module>, calls: seq<Served>, s': State, pre: seq<Served>, nest: seq<Served>, post: seq<Served>)
    requires Inv(s) && AtHome(s, homes) && k in s.tree && depth > 0
    requires n < |Found(s, k, ask).1| && j < |does(Found(s, k, ask).1[n], ask.h)|
    ensures runs == Found(s, k, ask).1 && NestOf(s, homes, does, k, ask, depth, calls)
    ensures Untouched(s, s') && Inv(s') && runs[n] in homes
    ensures var a := does(runs[n], ask.h)[j]; NestOf(s', homes, does, From(homes[runs[n]], a), a, depth - 1, nest)
    ensures calls == [Served(k, ask, runs)] + pre + nest + post
  {
    FoundAtHome(s, homes, k, ask);
    var r, rest := ServeUnfolds(s, homes, does, k, ask, depth);
    runs, calls := r.1, [Served(k, ask, r.1)] + rest;
    NestOfIs(s, homes, does, k, ask, depth, calls);
    AptIs(r.0, homes);
    s', pre, nest, post := EachNests(r.0, homes, does, r.1, ask.h, depth, n, j);
    SinceIs(r.0, s');
    AptIs(s', homes);
    UntouchedOn(s, r.0, s');
    Longer([Served(k, ask, r.1)], pre, nest, post, []);
  }

  lemma ServeUnfolds(s: State, homes: map<Module, Key>, does: Program, k: Key, ask: Ask, depth: nat)
    returns (r: (State, seq<Module>), rest: seq<Served>)
    requires Inv(s) && AtHome(s, homes) && k in s.tree
    ensures r == Found(s, k, ask) && Untouched(s, r.0) && Inv(r.0) && AtHome(r.0, homes)
    ensures rest == ServeEach(r.0, homes, does, r.1, ask.h, depth).1
    ensures Serve(s, homes, does, k, ask, depth).1 == [Served(k, ask, r.1)] + rest
  {
    r := FoundSettles(s, homes, k, ask);
    rest := ServeEach(r.0, homes, does, r.1, ask.h, depth).1;
  }
}
