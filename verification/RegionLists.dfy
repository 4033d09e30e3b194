/** The regions' module lists as pointers: the linked cells of all regions stand for the lists the tables keep. */
module RegionLists {
  import opened Prefix
  import opened Tree
  import opened ModuleEntry
  import opened Dispatch
  import Runs
  import ModuleList

  type Heads = map<Key, ModuleList.Region>
  type Cells = map<Module, ModuleList.Node>

  /** One region's linked cells are those of its modules, in list order. */
  ghost predicate Stands(r: ModuleList.Region, cells: Cells, ms: seq<Module>)
    reads r, r.nodes
  {
    r.Valid() && |r.nodes| == |ms| && forall i :: 0 <= i < |ms| ==> ms[i] in cells && r.nodes[i] == cells[ms[i]]
  }

  ghost predicate Injective(regions: Heads, cells: Cells) {
    && (forall j, k :: j in regions && k in regions && regions[j] == regions[k] ==> j == k)
    && (forall x, y :: x in cells && y in cells && cells[x] == cells[y] ==> x == y)
  }

  /** Every region's cells stand for its list. */
  ghost predicate Represents(regions: Heads, cells: Cells, lists: Lists)
    reads regions.Values, cells.Values
  {
    && regions.Keys == lists.Keys && Injective(regions, cells)
    && (forall k, n :: k in regions && n in regions[k].nodes ==> n in cells.Values)
    && forall k {:trigger lists[k]} :: k in lists ==> Stands(regions[k], cells, lists[k])
  }

  /** The cells of other regions, none of which holds m. */
  lemma OthersApart(regions: Heads, cells: Cells, lists: Lists, k: Key, m: Module)
    requires Represents(regions, cells, lists) && k in lists && m in cells
    requires forall j :: j in lists && j != k ==> m !in lists[j]
    ensures forall j :: j in lists && j != k ==>
              regions[j] != regions[k] && regions[j].Valid() && cells[m] !in regions[j].nodes
  {
    forall j | j in lists && j != k
      ensures regions[j] != regions[k] && regions[j].Valid() && cells[m] !in regions[j].nodes
    {
      assert Stands(regions[j], cells, lists[j]);
    }
  }

  /** With every list standing for itself the cells are covered. */
  lemma Assembled(regions: Heads, cells: Cells, lists: Lists)
    requires regions.Keys == lists.Keys && Injective(regions, cells)
    requires forall k {:trigger lists[k]} :: k in lists ==> Stands(regions[k], cells, lists[k])
    ensures Represents(regions, cells, lists)
  {
    forall k, n | k in regions && n in regions[k].nodes ensures n in cells.Values {
      assert Stands(regions[k], cells, lists[k]);
      var i :| 0 <= i < |regions[k].nodes| && regions[k].nodes[i] == n;
      assert n == cells[lists[k][i]];
    }
  }

  /** The regions but k. */
  function Others(regions: Heads, k: Key): set<ModuleList.Region> {
    set j | j in regions && j != k :: regions[j]
  }

  lemma StandsInserted(r: ModuleList.Region, cells: Cells, ms: seq<Module>, nodes: seq<ModuleList.Node>, i: nat,
                       m: Module)
    requires r.Valid() && m in cells && i <= |ms| == |nodes| && r.nodes == Runs.InsertAt(nodes, i, cells[m])
    requires forall j :: 0 <= j < |ms| ==> ms[j] in cells && nodes[j] == cells[ms[j]]
    ensures Stands(r, cells, Runs.InsertAt(ms, i, m))
  {
    ModuleList.Shifted(ms, i, m);
    ModuleList.Shifted(nodes, i, cells[m]);
  }

  lemma StandsRemoved(r: ModuleList.Region, cells: Cells, ms: seq<Module>, nodes: seq<ModuleList.Node>, i: nat)
    requires r.Valid() && i < |ms| == |nodes| && r.nodes == Runs.RemoveAt(nodes, i)
    requires forall j :: 0 <= j < |ms| ==> ms[j] in cells && nodes[j] == cells[ms[j]]
    ensures Stands(r, cells, Runs.RemoveAt(ms, i))
  {
  }

  /** Linking a module behind another, or first, is the insertion of the lists. */
  method Insert(regions: Heads, cells: Cells, ghost lists: Lists, k: Key, m: Module, after: Option<Module>,
                ghost i: nat)
    requires Represents(regions, cells, lists) && k in lists && m in cells && forall j :: j in lists ==> m !in lists[j]
    requires i <= |lists[k]| && after == (if i == 0 then None else Some(lists[k][i - 1]))
    modifies regions[k], regions[k].nodes, cells[m]
    ensures Represents(regions, cells, lists[k := Runs.InsertAt(lists[k], i, m)])
  {
    InsertEach(regions, cells, lists, k, m, after, i);
    Assembled(regions, cells, lists[k := Runs.InsertAt(lists[k], i, m)]);
  }

  method InsertEach(regions: Heads, cells: Cells, ghost lists: Lists, k: Key, m: Module, after: Option<Module>,
                    ghost i: nat)
    requires Represents(regions, cells, lists) && k in lists && m in cells && forall j :: j in lists ==> m !in lists[j]
    requires i <= |lists[k]| && after == (if i == 0 then None else Some(lists[k][i - 1]))
    modifies regions[k], regions[k].nodes, cells[m]
    ensures forall j {:trigger lists[j]} :: j in lists && j != k ==> Stands(regions[j], cells, lists[j])
    ensures Stands(regions[k], cells, Runs.InsertAt(lists[k], i, m))
  {
    assert Stands(regions[k], cells, lists[k]);
    OthersApart(regions, cells, lists, k, m);
    ghost var nodes := regions[k].nodes;
    var cell: ModuleList.Node? := null;
    if after.Some? { cell := cells[after.value]; }
    ModuleList.LinkAmong(regions[k], Others(regions, k), cells[m], cell, i);
    forall j | j in lists && j != k ensures Stands(regions[j], cells, lists[j]) {
      assert regions[j] in Others(regions, k);
    }
    StandsInserted(regions[k], cells, lists[k], nodes, i, m);
  }

  /** Taking a module out is the removal of the lists. */
  method Remove(regions: Heads, cells: Cells, ghost lists: Lists, k: Key, m: Module, ghost i: nat)
    requires Represents(regions, cells, lists) && k in lists && i < |lists[k]| && lists[k][i] == m && m in cells
    requires forall j :: j in lists && j != k ==> m !in lists[j]
    modifies regions[k], regions[k].nodes
    ensures Represents(regions, cells, lists[k := Runs.RemoveAt(lists[k], i)])
  {
    assert Stands(regions[k], cells, lists[k]);
    OthersApart(regions, cells, lists, k, m);
    ghost var nodes := regions[k].nodes;
    ModuleList.UnlinkAmong(regions[k], Others(regions, k), cells[m], i);
    forall j | j in lists && j != k ensures Stands(regions[j], cells, lists[j]) {
      assert regions[j] in Others(regions, k);
    }
    StandsRemoved(regions[k], cells, lists[k], nodes, i);
    Assembled(regions, cells, lists[k := Runs.RemoveAt(lists[k], i)]);
  }

  /** Walking a region's cells from the head meets its modules in list order. */
  method Walk(regions: Heads, cells: Cells, ghost lists: Lists, k: Key) returns (order: seq<ModuleList.Node>)
    requires Represents(regions, cells, lists) && k in lists
    ensures |order| == |lists[k]|
    ensures forall i :: 0 <= i < |order| ==> lists[k][i] in cells && order[i] == cells[lists[k][i]]
  {
    assert Stands(regions[k], cells, lists[k]);
    order := regions[k].InOrder();
  }
}
