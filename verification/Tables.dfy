/** The module table beside the regions and their lists: what keeps the three in step. */
module Tables {
  import opened Prefix
  import opened Tree
  import opened Claims
  import opened ModuleEntry
  import opened Dispatch
  import opened Runs
  import opened Lifecycle

  /**
   * Always true. A predicate guarded by it stays folded where a proof only carries it along, which keeps such proofs
   * small; a proof that needs what is inside mentions it.
   */
  predicate Look(n: nat) {
    n >= 0
  }

  /** A linked module is linked at its home. */
  ghost predicate Homed(lists: Lists, tb: Table) {
    forall k, m :: k in lists && m in lists[k] ==> m in tb && tb[m].home == k
  }

  ghost predicate NoDup(ms: seq<Module>) {
    forall i, j :: 0 <= i < j < |ms| ==> ms[i] != ms[j]
  }

  ghost predicate OnceEach(lists: Lists) {
    forall k {:trigger NoDup(lists[k])} :: k in lists ==> NoDup(lists[k])
  }

  /** The module table fits the lists: homes are regions, linked modules are linked at home, loaders are older. */
  ghost predicate Fits(t: Tree, lists: Lists, tb: Table, nextSerial: nat) {
    && Aged(tb) && Distinct(tb) && Homed(lists, tb) && OnceEach(lists)
    && (forall m :: m in tb ==> m.serial < nextSerial && tb[m].home in t)
  }

  /** At most one entry comes from each shared object. */
  ghost predicate OnePerImage(tb: Table) {
    forall x, y {:trigger SameImage(x, y)} :: x in tb && y in tb && SameImage(x, y) ==> x == y
  }

  predicate SameImage(x: Module, y: Module) {
    x.image == y.image
  }

  lemma OtherImages(tb: Table, e: Module)
    requires OnePerImage(tb) && e in tb
    ensures forall m :: m in tb && m != e ==> m.image != e.image
  {
    forall m | m in tb && m.image == e.image ensures m == e {
      assert SameImage(m, e);
    }
  }

  lemma NotLinked(before: Lists, e: Module)
    ensures !IsLinked(Purged(before, {e}), e)
  {
    if IsLinked(Purged(before, {e}), e) {
      var k :| k in before && e in Without(before[k], {e});
      WithoutMember(before[k], {e}, e);
    }
  }

  ghost function ListOr(ls: Lists, k: Key): seq<Module> {
    if k in ls then ls[k] else []
  }

  // ----- Lists that lose modules

  lemma {:induction false} WithoutNoDup(ms: seq<Module>, gone: set<Module>)
    requires NoDup(ms)
    ensures NoDup(Without(ms, gone))
  {
    if ms != [] {
      WithoutNoDup(ms[1..], gone);
      WithoutMember(ms[1..], gone, ms[0]);
    }
  }

  lemma PurgedNothing(lists: Lists)
    ensures Purged(lists, {}) == lists
  {
    forall k | k in lists ensures Without(lists[k], {}) == lists[k] {
      WithoutNone(lists[k], {});
    }
  }

  lemma PurgedOff(lists: Lists, e: Module)
    ensures forall k :: k in lists ==> e !in Purged(lists, {e})[k]
  {
    forall k | k in lists ensures e !in Without(lists[k], {e}) {
      WithoutMember(lists[k], {e}, e);
    }
  }

  /** Only its home's list can hold an entry. */
  lemma PurgedHome(lists: Lists, tb: Table, e: Module)
    requires Homed(lists, tb) && e in tb
    ensures var k := tb[e].home;
            Purged(lists, {e}) == if k in lists && e in lists[k] then lists[k := Without(lists[k], {e})] else lists
  {
    forall j | j in lists && e !in lists[j] ensures Without(lists[j], {e}) == lists[j] {
      WithoutNone(lists[j], {e});
    }
  }

  /** Tables and lists that only lose entries, references and links still fit. */
  lemma FitsShrunk(t: Tree, lists: Lists, tb: Table, gone: set<Module>, tb': Table, nextSerial: nat)
    requires Fits(t, lists, tb, nextSerial)
    requires forall m :: m in tb' ==> m in tb && tb'[m].home == tb[m].home
    requires forall m :: m in tb && m !in gone ==> m in tb'
    ensures Fits(t, Purged(lists, gone), tb', nextSerial)
  {
    forall x, y | x in tb' && y in tb' && SamePlace(tb', x, y) ensures x == y {
      assert SamePlace(tb, x, y);
    }
    forall k, m | k in lists && m in Without(lists[k], gone) ensures m in tb' && tb'[m].home == k {
      WithoutMember(lists[k], gone, m);
    }
    forall k | k in lists ensures NoDup(Without(lists[k], gone)) {
      assert NoDup(lists[k]);
      WithoutNoDup(lists[k], gone);
    }
  }

  lemma FitsUnlinked(t: Tree, lists: Lists, tb: Table, nextSerial: nat, m: Module)
    requires Fits(t, lists, tb, nextSerial) && m in tb
    ensures Fits(t, Purged(lists, {m}), tb, nextSerial)
    ensures forall k :: k in Purged(lists, {m}) ==> m !in Purged(lists, {m})[k]
  {
    forall k, x | k in lists && x in Without(lists[k], {m}) ensures x in lists[k] && x != m {
      WithoutMember(lists[k], {m}, x);
    }
    forall k | k in lists ensures NoDup(Without(lists[k], {m})) {
      assert NoDup(lists[k]);
      WithoutNoDup(lists[k], {m});
    }
  }

  // ----- Lists, regions and tables that grow

  lemma FitsOneMore(t: Tree, lists: Lists, tb: Table, nextSerial: nat, m: Module, home: Key)
    requires Fits(t, lists, tb, nextSerial) && m !in tb && m.serial == nextSerial && home in t
    requires m.loader != null ==> m.loader.serial < nextSerial
    requires forall x :: x in tb ==> x.path != m.path || tb[x].home != home
    ensures Fits(t, lists, tb[m := Entry(1, home)], nextSerial + 1)
    ensures forall k :: k in lists ==> m !in lists[k]
  {
    var tb' := tb[m := Entry(1, home)];
    forall x, y | x in tb' && y in tb' && SamePlace(tb', x, y) ensures x == y {
      if x != m && y != m { assert SamePlace(tb, x, y); }
    }
  }

  lemma FitsInserted(t: Tree, lists: Lists, tb: Table, nextSerial: nat, m: Module, i: nat)
    requires Fits(t, lists, tb, nextSerial) && m in tb && tb[m].home in lists && i <= |lists[tb[m].home]|
    requires forall k :: k in lists ==> m !in lists[k]
    ensures Fits(t, lists[tb[m].home := InsertAt(lists[tb[m].home], i, m)], tb, nextSerial)
  {
    var home := tb[m].home;
    var ms := lists[home];
    var ls := lists[home := InsertAt(ms, i, m)];
    assert NoDup(ms);
    assert forall x :: x in InsertAt(ms, i, m) <==> x == m || x in ms by {
      assert ms == ms[..i] + ms[i..];
    }
    forall k | k in ls ensures NoDup(ls[k]) {
      assert NoDup(lists[k]);
    }
  }

  lemma FitsMoreRegions(t: Tree, t': Tree, lists: Lists, k: Key, tb: Table, nextSerial: nat)
    requires Fits(t, lists, tb, nextSerial) && k !in lists && forall j :: j in t ==> j in t'
    ensures Fits(t', lists[k := []], tb, nextSerial)
  {
    var ls := lists[k := []];
    forall j | j in ls ensures NoDup(ls[j]) {
      if j != k { assert NoDup(lists[j]); }
    }
  }

  /** An unlinked entry moves to a region that has no entry yet. */
  lemma FitsRehomed(t: Tree, lists: Lists, tb: Table, nextSerial: nat, m: Module, k: Key, before: Tree)
    requires Fits(t, lists, tb, nextSerial) && m in tb && k in t && k !in before
    requires (forall x :: x in tb ==> tb[x].home in before) && forall j :: j in lists ==> m !in lists[j]
    ensures Fits(t, lists, tb[m := tb[m].(home := k)], nextSerial)
  {
    var tb' := tb[m := tb[m].(home := k)];
    forall x, y | x in tb' && y in tb' && SamePlace(tb', x, y) ensures x == y {
      if x != m && y != m { assert SamePlace(tb, x, y); }
    }
  }

  ghost function Retained(tb: Table, m: Module): Table
    requires m in tb
  {
    tb[m := tb[m].(refs := tb[m].refs + 1)]
  }

  lemma FitsRetained(t: Tree, lists: Lists, tb: Table, nextSerial: nat, m: Module)
    requires Fits(t, lists, tb, nextSerial) && m in tb
    ensures Fits(t, lists, Retained(tb, m), nextSerial) && Retained(tb, m).Keys == tb.Keys
  {
    PurgedNothing(lists);
    FitsShrunk(t, lists, tb, {}, Retained(tb, m), nextSerial);
  }

  // ----- The table of the live modules

  /** The table holds the live modules and fits regions and lists. Folded, see `Look`. */
  ghost predicate Seated(t: Tree, lists: Lists, tb: Table, live: set<Module>, nextSerial: nat) {
    forall n {:trigger Look(n)} :: Look(n) ==> tb.Keys == live && Fits(t, lists, tb, nextSerial)
  }

  lemma SeatedIs(t: Tree, lists: Lists, tb: Table, live: set<Module>, nextSerial: nat)
    ensures Seated(t, lists, tb, live, nextSerial) <==> tb.Keys == live && Fits(t, lists, tb, nextSerial)
  {
    assert Look(0);
  }

  lemma SeatedRegion(t: Tree, t': Tree, lists: Lists, k: Key, tb: Table, live: set<Module>, nextSerial: nat)
    requires k !in lists && forall j :: j in t ==> j in t'
    ensures Seated(t, lists, tb, live, nextSerial) ==> Seated(t', lists[k := []], tb, live, nextSerial)
  {
    SeatedIs(t, lists, tb, live, nextSerial);
    SeatedIs(t', lists[k := []], tb, live, nextSerial);
    if Seated(t, lists, tb, live, nextSerial) { FitsMoreRegions(t, t', lists, k, tb, nextSerial); }
  }

  lemma SeatedInserted(t: Tree, lists: Lists, tb: Table, live: set<Module>, nextSerial: nat, m: Module, i: nat)
    requires Seated(t, lists, tb, live, nextSerial) && m in tb && tb[m].home in lists && i <= |lists[tb[m].home]|
    requires forall k :: k in lists ==> m !in lists[k]
    ensures Seated(t, lists[tb[m].home := InsertAt(lists[tb[m].home], i, m)], tb, live, nextSerial)
  {
    SeatedIs(t, lists, tb, live, nextSerial);
    FitsInserted(t, lists, tb, nextSerial, m, i);
    SeatedIs(t, lists[tb[m].home := InsertAt(lists[tb[m].home], i, m)], tb, live, nextSerial);
  }

  lemma SeatedUnlinked(t: Tree, lists: Lists, tb: Table, live: set<Module>, nextSerial: nat, m: Module)
    requires Seated(t, lists, tb, live, nextSerial) && m in live
    ensures Seated(t, Purged(lists, {m}), tb, live, nextSerial)
  {
    SeatedIs(t, lists, tb, live, nextSerial);
    FitsUnlinked(t, lists, tb, nextSerial, m);
    SeatedIs(t, Purged(lists, {m}), tb, live, nextSerial);
  }

  lemma SeatedEnlisted(t: Tree, lists: Lists, tb: Table, live: set<Module>, nextSerial: nat, m: Module, home: Key)
    requires Seated(t, lists, tb, live, nextSerial) && m !in live && m.serial == nextSerial && home in t
    requires m.loader != null ==> m.loader.serial < nextSerial
    requires forall x :: x in tb ==> x.path != m.path || tb[x].home != home
    ensures m !in tb && Seated(t, lists, tb[m := Entry(1, home)], live + {m}, nextSerial + 1)
    ensures !IsLinked(lists, m)
  {
    SeatedIs(t, lists, tb, live, nextSerial);
    FitsOneMore(t, lists, tb, nextSerial, m, home);
    SeatedIs(t, lists, tb[m := Entry(1, home)], live + {m}, nextSerial + 1);
  }

  lemma SeatedGone(t: Tree, lists: Lists, tb: Table, live: set<Module>, nextSerial: nat, e: Module)
    requires Seated(t, lists, tb, live, nextSerial) && e in live
    ensures Seated(t, Purged(lists, {e}), tb - {e}, live - {e}, nextSerial)
    ensures e in tb && tb[e].home in t && forall j :: j in lists && e in lists[j] ==> j == tb[e].home
  {
    SeatedIs(t, lists, tb, live, nextSerial);
    FitsShrunk(t, lists, tb, {e}, tb - {e}, nextSerial);
    SeatedIs(t, Purged(lists, {e}), tb - {e}, live - {e}, nextSerial);
  }
}
