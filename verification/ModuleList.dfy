/**
 * The intrusive doubly linked list of a region's modules: the pointer surgery behind the lists of the other modules.
 */
module ModuleList {
  import Runs

  /** The list cells of a module entry. `home` is the region it was last linked into. */
  class Node {
    var prev: Node?
    var next: Node?
    var home: Region?

    constructor ()
      ensures home == null
    {
      prev, next, home := null, null, null;
    }
  }

  /** Where an insertion puts everything. */
  lemma Shifted<T>(s: seq<T>, i: nat, x: T)
    requires i <= |s|
    ensures var r := Runs.InsertAt(s, i, x);
            |r| == |s| + 1 && r[i] == x && (forall j :: 0 <= j < i ==> r[j] == s[j])
              && forall j :: i < j < |r| ==> r[j] == s[j - 1]
  {
  }

  /** The list cells of a region entry, with the modules they stand for in order. */
  class Region {
    var head: Node?
    var tail: Node?
    ghost var nodes: seq<Node>

    constructor ()
      ensures Valid() && nodes == []
    {
      head, tail, nodes := null, null, [];
    }

    /** The node at i, or nothing beyond either end. */
    ghost function At(i: int): Node?
      reads this
    {
      if 0 <= i < |nodes| then nodes[i] else null
    }

    ghost predicate LinkedAt(i: int)
      requires 0 <= i < |nodes|
      reads this, nodes[i]
    {
      nodes[i].prev == At(i - 1) && nodes[i].next == At(i + 1) && nodes[i].home == this
    }

    ghost predicate NoRepeats()
      reads this
    {
      forall i, j :: 0 <= i < j < |nodes| ==> nodes[i] != nodes[j]
    }

    ghost predicate Valid()
      reads this, nodes
    {
      && head == At(0) && tail == At(|nodes| - 1)
      && NoRepeats()
      && (forall i :: 0 <= i < |nodes| ==> LinkedAt(i))
    }

    /** Following the links from the head meets the modules in list order, each once. */
    method InOrder() returns (order: seq<Node>)
      requires Valid()
      ensures order == nodes
    {
      order := [];
      var e := head;
      while e != null
        invariant |order| <= |nodes| && order == nodes[..|order|]
        invariant e == At(|order|)
        decreases |nodes| - |order|
      {
        assert |order| < |nodes| && LinkedAt(|order|);
        order := order + [e];
        e := e.next;
      }
    }

    /** `module_region_insert_after`: after a given module, or at the head. */
    method InsertAfter(e: Node, after: Node?, ghost i: nat)
      requires Valid() && e !in nodes
      requires i <= |nodes| && after == At(i - 1) && (i > 0 ==> after != null)
      modifies this, nodes, e
      ensures Valid() && nodes == Runs.InsertAt(old(nodes), i, e)
    {
      ghost var was := nodes;
      if i > 0 { assert LinkedAt(i - 1); }
      if i < |nodes| { assert LinkedAt(i); }
      e.home := this;
      if after == null {
        e.prev, e.next := null, head;
        if head != null { head.prev := e; } else { tail := e; }
        head := e;
      } else {
        e.prev, e.next := after, after.next;
        if after.next != null { after.next.prev := e; } else { tail := e; }
        after.next := e;
      }
      nodes := Runs.InsertAt(was, i, e);
      forall j | 0 <= j < |nodes| ensures LinkedAt(j) {
        Shifted(was, i, e);
        if j < i { assert old(LinkedAt(j)); } else if j > i { assert old(LinkedAt(j - 1)); }
      }
    }

    /** `module_region_append`. */
    method Append(e: Node)
      requires Valid() && e !in nodes
      modifies this, nodes, e
      ensures Valid() && nodes == old(nodes) + [e]
    {
      InsertAfter(e, tail, |nodes|);
    }
  }

  /** `module_region_detach`. The entry keeps naming the region it was linked into. */
  method Detach(e: Node, ghost i: nat)
    requires e.home != null ==> e.home.Valid() && i < |e.home.nodes| && e.home.nodes[i] == e
    modifies e, e.home, if e.home == null then [] else e.home.nodes
    ensures e.home == old(e.home)
    ensures e.home == null ==> e.prev == old(e.prev) && e.next == old(e.next)
    ensures e.home != null ==> e.home.Valid() && e.home.nodes == Runs.RemoveAt(old(e.home.nodes), i)
    ensures e.home != null ==> e.prev == null && e.next == null && e !in e.home.nodes
  {
    var re := e.home;
    if re == null { return; }
    ghost var was := re.nodes;
    assert re.LinkedAt(i);
    if i > 0 { assert re.LinkedAt(i - 1); }
    if i + 1 < |was| { assert re.LinkedAt(i + 1); }
    if e.prev != null { e.prev.next := e.next; } else { re.head := e.next; }
    if e.next != null { e.next.prev := e.prev; } else { re.tail := e.prev; }
    e.prev, e.next := null, null;
    re.nodes := Runs.RemoveAt(was, i);
    forall j | 0 <= j < |re.nodes| ensures re.LinkedAt(j) {
      assert old(re.LinkedAt(if j < i then j else j + 1));
    }
  }

  lemma HomeOf(a: Region)
    requires a.Valid()
    ensures forall e :: e in a.nodes ==> e.home == a
  {
    forall e | e in a.nodes ensures e.home == a {
      var i :| 0 <= i < |a.nodes| && a.nodes[i] == e;
      assert a.LinkedAt(i);
    }
  }

  /** Two regions' lists share no module: every node names its one home. */
  lemma ListsApart(a: Region, b: Region)
    requires a.Valid() && b.Valid() && a != b
    ensures forall e :: e in a.nodes ==> e !in b.nodes
  {
    HomeOf(a);
    HomeOf(b);
  }

  /** Reload's last step: take the fresh entry out and put it behind its old predecessor, or at the head. */
  method Reposition(e: Node, after: Node?, ghost i: nat, ghost j: nat)
    requires e.home != null && e.home.Valid() && i < |e.home.nodes| && e.home.nodes[i] == e
    requires j < |e.home.nodes| && (after == null <==> j == 0)
    requires after != null ==> after == Runs.RemoveAt(e.home.nodes, i)[j - 1]
    modifies e, e.home, e.home.nodes
    ensures e.home == old(e.home) && e.home.Valid()
    ensures e.home.nodes == Runs.InsertAt(Runs.RemoveAt(old(e.home.nodes), i), j, e)
  {
    var re := e.home;
    Detach(e, i);
    re.InsertAfter(e, after, j);
    assert re.LinkedAt(j);
  }

  // ----- With other regions around

  /** Linking an entry that no region holds leaves the other regions' lists alone. */
  method LinkAmong(r: Region, others: set<Region>, e: Node, after: Node?, ghost i: nat)
    requires r.Valid() && e !in r.nodes && i <= |r.nodes| && after == r.At(i - 1) && (i > 0 ==> after != null)
    requires forall o :: o in others ==> o != r && o.Valid() && e !in o.nodes
    modifies r, r.nodes, e
    ensures r.Valid() && r.nodes == Runs.InsertAt(old(r.nodes), i, e)
    ensures forall o :: o in others ==> o.nodes == old(o.nodes) && o.Valid()
  {
    forall o | o in others ensures forall n :: n in o.nodes ==> n !in r.nodes && n != e { ListsApart(o, r); }
    r.InsertAfter(e, after, i);
    forall o | o in others ensures o.Valid() {
      forall j | 0 <= j < |o.nodes| ensures o.LinkedAt(j) {
        assert o.nodes[j] in old(o.nodes) && old(o.LinkedAt(j));
      }
    }
  }

  /** Taking an entry out leaves the other regions' lists alone. */
  method UnlinkAmong(r: Region, others: set<Region>, e: Node, ghost i: nat)
    requires r.Valid() && i < |r.nodes| && r.nodes[i] == e
    requires forall o :: o in others ==> o != r && o.Valid()
    modifies r, r.nodes
    ensures r.Valid() && r.nodes == Runs.RemoveAt(old(r.nodes), i)
    ensures forall o :: o in others ==> o.nodes == old(o.nodes) && o.Valid()
  {
    assert r.LinkedAt(i);
    forall o | o in others ensures forall n :: n in o.nodes ==> n !in r.nodes { ListsApart(o, r); }
    Detach(e, i);
    forall o | o in others ensures o.Valid() {
      forall j | 0 <= j < |o.nodes| ensures o.LinkedAt(j) {
        assert o.nodes[j] in old(o.nodes) && old(o.LinkedAt(j));
      }
    }
  }
}
