/** The region tree as a value: which region hangs under which, and what the searches over it answer. */
module Tree {
  import opened Word
  import opened Prefix

  datatype Option<+T> = None | Some(value: T)

  /** A region's place in the tree; children are listed newest first, as claims prepend them. */
  datatype Links = Links(parent: Option<Key>, children: seq<Key>)

  type Tree = map<Key, Links>

  const SEED: Tree := map[ROOT := Links(None, [])]

  // ----- Invariants

  ghost predicate ParentOk(t: Tree, k: Key)
    requires k in t
  {
    match t[k].parent
    case None => k == ROOT
    case Some(p) => k != ROOT && p in t && p.plen < k.plen
  }

  ghost predicate ChildrenOk(t: Tree, k: Key)
    requires k in t
  {
    && (forall c :: c in t[k].children <==> c in t && t[c].parent == Some(k))
    && (forall i, j :: 0 <= i < j < |t[k].children| ==> t[k].children[i] != t[k].children[j])
  }

  /** A root, strictly wider children, and mirrored links. */
  ghost predicate Shape(t: Tree) {
    && ROOT in t
    && (forall k :: k in t ==> k.plen <= 64)
    && (forall k {:trigger ParentOk(t, k)} :: k in t ==> ParentOk(t, k))
    && (forall k {:trigger ChildrenOk(t, k)} :: k in t ==> ChildrenOk(t, k))
  }

  /** Identities are canonical and every parent contains its child. */
  ghost predicate Nested(t: Tree) {
    && (forall k {:trigger Canonical(k)} :: k in t ==> Canonical(k))
    && (forall k :: k in t && t[k].parent.Some? ==> Contains(t[k].parent.value, k))
  }

  ghost predicate TreeInv(t: Tree) {
    Shape(t) && Nested(t)
  }

  /** `k` is `a` or lies below it: the walk up the parent links from k meets a. */
  ghost predicate IsUnder(t: Tree, k: Key, a: Key)
    decreases k.plen
  {
    k == a ||
    (k in t && t[k].parent.Some? && t[k].parent.value.plen < k.plen && IsUnder(t, t[k].parent.value, a))
  }

  /** Tree descent implies prefix containment. */
  lemma {:induction false} UnderContained(t: Tree, k: Key, a: Key)
    requires TreeInv(t) && k in t && IsUnder(t, k, a)
    ensures Contains(a, k)
    decreases k.plen
  {
    assert Canonical(k);
    if k == a {
      assert Agrees(k.id, k);
    } else {
      var p := t[k].parent.value;
      assert ParentOk(t, k);
      UnderContained(t, p, a);
      assert Canonical(p) && Contains(p, k);
      CoversTransitive(a, p, k.id, k.plen);
    }
  }

  lemma {:induction false} UnderWider(t: Tree, k: Key, a: Key)
    requires Shape(t) && k in t && IsUnder(t, k, a)
    ensures a in t && a.plen <= k.plen
    ensures a.plen == k.plen ==> a == k
    decreases k.plen
  {
    if k != a {
      assert ParentOk(t, k);
      UnderWider(t, t[k].parent.value, a);
    }
  }

  lemma {:induction false} UnderTransitive(t: Tree, k: Key, b: Key, a: Key)
    requires IsUnder(t, k, b) && IsUnder(t, b, a)
    ensures IsUnder(t, k, a)
    decreases k.plen
  {
    if k != b {
      UnderTransitive(t, t[k].parent.value, b, a);
    }
  }

  lemma {:induction false} UnderRoot(t: Tree, k: Key)
    requires Shape(t) && k in t
    ensures IsUnder(t, k, ROOT)
    decreases k.plen
  {
    assert ParentOk(t, k);
    if t[k].parent.Some? {
      UnderRoot(t, t[k].parent.value);
    }
  }

  /** Two regions above k are comparable. */
  lemma {:induction false} UnderLinear(t: Tree, k: Key, a: Key, b: Key)
    requires Shape(t) && k in t && IsUnder(t, k, a) && IsUnder(t, k, b)
    ensures IsUnder(t, a, b) || IsUnder(t, b, a)
    decreases k.plen
  {
    if k != a && k != b {
      assert ParentOk(t, k);
      UnderLinear(t, t[k].parent.value, a, b);
    }
  }

  /** A proper descendant of a lies under a child of a; this is that child. */
  lemma {:induction false} ChildToward(t: Tree, k: Key, a: Key) returns (c: Key)
    requires Shape(t) && k in t && IsUnder(t, k, a) && k != a
    ensures a in t && c in t && c in t[a].children && IsUnder(t, k, c)
    decreases k.plen
  {
    assert ParentOk(t, k);
    var p := t[k].parent.value;
    if p == a {
      assert ChildrenOk(t, a);
      c := k;
    } else {
      c := ChildToward(t, p, a);
    }
  }

  /** Children lie strictly below their parent. */
  lemma ChildrenWider(t: Tree, k: Key)
    requires Shape(t) && k in t
    ensures forall c :: c in t[k].children ==> c in t && c.plen > k.plen && IsUnder(t, c, k)
  {
    assert ChildrenOk(t, k);
    forall c | c in t[k].children ensures c.plen > k.plen && IsUnder(t, c, k) {
      assert ParentOk(t, c);
    }
  }

  // ----- Ancestor chains

  /** The regions from the root down to k. */
  function Chain(t: Tree, k: Key): (r: seq<Key>)
    requires k in t && Shape(t)
    ensures 0 < |r| <= k.plen + 1
    ensures r[0] == ROOT && r[|r| - 1] == k
    decreases k.plen
  {
    assert ParentOk(t, k);
    if t[k].parent.None? then [k] else Chain(t, t[k].parent.value) + [k]
  }

  lemma {:induction false} ChainIsAncestors(t: Tree, k: Key, a: Key)
    requires k in t && Shape(t)
    ensures a in Chain(t, k) <==> IsUnder(t, k, a)
    decreases k.plen
  {
    assert ParentOk(t, k);
    if t[k].parent.Some? {
      ChainIsAncestors(t, t[k].parent.value, a);
    }
  }

  /** Widths grow strictly along a chain; with widths at most 64 a chain has at most 65 regions. */
  lemma {:induction false} ChainNarrows(t: Tree, k: Key)
    requires k in t && Shape(t)
    ensures |Chain(t, k)| <= 65
    ensures forall i, j :: 0 <= i < j < |Chain(t, k)| ==> Chain(t, k)[i].plen < Chain(t, k)[j].plen
    decreases k.plen
  {
    assert ParentOk(t, k);
    if t[k].parent.Some? {
      var p := t[k].parent.value;
      ChainNarrows(t, p);
    }
  }

  // ----- The prefix searches

  /** The regions a point agrees with. */
  function Agreeing(t: Tree, id: nat): set<Key> {
    set k | k in t && Agrees(id, k)
  }

  /**
   * The depth-first search: stop at regions of width `limit` or more, and keep the widest hit, the first one on ties.
   * The ancestor search runs it with the request's width as the limit, the cover search with one more.
   */
  function Search(t: Tree, node: Key, hits: set<Key>, limit: nat, best: Option<Key>): Option<Key>
    requires Shape(t) && node in t
    decreases 64 - node.plen, |t[node].children| + 1
  {
    if node.plen >= limit then best
    else
      ChildrenWider(t, node);
      SearchAll(t, node, t[node].children, hits, limit, Better(node, hits, best))
  }

  function SearchAll(t: Tree, node: Key, rest: seq<Key>, hits: set<Key>, limit: nat, best: Option<Key>): Option<Key>
    requires Shape(t) && node in t
    requires forall c :: c in rest ==> c in t && c.plen > node.plen
    decreases 64 - node.plen, |rest|
  {
    if rest == [] then best
    else SearchAll(t, node, rest[1..], hits, limit, Search(t, rest[0], hits, limit, best))
  }

  function Better(node: Key, hits: set<Key>, best: Option<Key>): Option<Key> {
    if node in hits && (best.None? || node.plen > best.value.plen) then Some(node) else best
  }

  /** What a search over the regions in `scope` has to return, given what was found before. */
  ghost predicate Improves(scope: set<Key>, hits: set<Key>, limit: nat, best: Option<Key>, r: Option<Key>) {
    && (r == best || (r.Some? && r.value in scope && r.value in hits && r.value.plen < limit))
    && (best.Some? ==> r.Some? && best.value.plen <= r.value.plen)
    && (forall k :: k in scope && k in hits && k.plen < limit ==> r.Some? && k.plen <= r.value.plen)
  }

  ghost function Below(t: Tree, a: Key): set<Key> {
    set k | k in t && IsUnder(t, k, a)
  }

  ghost function BelowAny(t: Tree, roots: seq<Key>): set<Key> {
    set k | k in t && exists a :: a in roots && IsUnder(t, k, a)
  }

  lemma ImprovesThen(s1: set<Key>, s2: set<Key>, hits: set<Key>, limit: nat, b0: Option<Key>, b1: Option<Key>,
                     b2: Option<Key>)
    requires Improves(s1, hits, limit, b0, b1) && Improves(s2, hits, limit, b1, b2)
    ensures Improves(s1 + s2, hits, limit, b0, b2)
  {
  }

  lemma {:induction false} SearchImproves(t: Tree, node: Key, hits: set<Key>, limit: nat, best: Option<Key>)
    requires Shape(t) && node in t
    ensures Improves(Below(t, node), hits, limit, best, Search(t, node, hits, limit, best))
    decreases 64 - node.plen, |t[node].children| + 1
  {
    if node.plen >= limit {
      forall k | k in Below(t, node) ensures k.plen >= limit {
        UnderWider(t, k, node);
      }
    } else {
      ChildrenWider(t, node);
      var better := Better(node, hits, best);
      assert Improves({node}, hits, limit, best, better);
      SearchAllImproves(t, node, t[node].children, hits, limit, better);
      BelowSplits(t, node);
      var below := BelowAny(t, t[node].children);
      ImprovesThen({node}, below, hits, limit, best, better, Search(t, node, hits, limit, best));
    }
  }

  lemma {:induction false} SearchAllImproves(t: Tree, node: Key, rest: seq<Key>, hits: set<Key>, limit: nat,
                                             best: Option<Key>)
    requires Shape(t) && node in t
    requires forall c :: c in rest ==> c in t && c.plen > node.plen
    ensures Improves(BelowAny(t, rest), hits, limit, best, SearchAll(t, node, rest, hits, limit, best))
    decreases 64 - node.plen, |rest|
  {
    if rest != [] {
      var first := Search(t, rest[0], hits, limit, best);
      SearchImproves(t, rest[0], hits, limit, best);
      SearchAllImproves(t, node, rest[1..], hits, limit, first);
      BelowAnySplits(t, rest);
      ImprovesThen(Below(t, rest[0]), BelowAny(t, rest[1..]), hits, limit, best, first,
                   SearchAll(t, node, rest[1..], hits, limit, first));
    }
  }

  /** A subtree is its top region together with the subtrees of the children. */
  lemma BelowSplits(t: Tree, node: Key)
    requires Shape(t) && node in t
    ensures Below(t, node) == {node} + BelowAny(t, t[node].children)
  {
    var cs := t[node].children;
    forall k | k in Below(t, node) && k != node ensures k in BelowAny(t, cs) {
      var c := ChildToward(t, k, node);
    }
    ChildrenWider(t, node);
    forall k | k in BelowAny(t, cs) ensures k in Below(t, node) {
      var c :| c in cs && IsUnder(t, k, c);
      UnderTransitive(t, k, c, node);
    }
  }

  lemma BelowAnySplits(t: Tree, roots: seq<Key>)
    requires roots != []
    ensures BelowAny(t, roots) == Below(t, roots[0]) + BelowAny(t, roots[1..])
  {
    assert forall a :: a in roots <==> a == roots[0] || a in roots[1..];
  }

  // ----- The flat reading of a search

  /** Among a flat set of regions, the widest one narrower than the limit that agrees with the point. */
  ghost predicate IsLongest(keys: set<Key>, id: nat, limit: nat, k: Key) {
    && k in keys && k.plen < limit && Agrees(id, k)
    && (forall a :: a in keys && a.plen < limit && Agrees(id, a) ==> a.plen <= k.plen)
  }

  lemma LongestUnique(keys: set<Key>, id: nat, limit: nat, a: Key, b: Key)
    requires IsWord(id) && forall k :: k in keys ==> k.plen <= 64
    requires IsLongest(keys, id, limit, a) && IsLongest(keys, id, limit, b)
    ensures a == b
  {
    SameWidthDisjoint(a, b, id);
  }

  /** `region_nearest_ancestor`, as a search from the root. */
  function NearestAncestor(t: Tree, k: Key): Option<Key>
    requires Shape(t)
  {
    Search(t, ROOT, Agreeing(t, k.id), k.plen, None)
  }

  lemma NearestIsNarrower(t: Tree, k: Key)
    requires Shape(t) && NearestAncestor(t, k).Some?
    ensures NearestAncestor(t, k).value in t && NearestAncestor(t, k).value.plen < k.plen
  {
    SearchImproves(t, ROOT, Agreeing(t, k.id), k.plen, None);
  }

  /** `xy_region_at`, as a search from the root. */
  function RegionAt(t: Tree, id: nat, plen: nat): Option<Key>
    requires Shape(t)
  {
    Search(t, ROOT, Agreeing(t, id), plen + 1, None)
  }

  /** The pruned tree search answers exactly longest-prefix match over the flat set of regions. */
  lemma SearchIsLongest(t: Tree, id: nat, limit: nat)
    requires Shape(t) && IsWord(id) && limit > 0
    ensures var r := Search(t, ROOT, Agreeing(t, id), limit, None);
            r.Some? && forall k :: IsLongest(t.Keys, id, limit, k) <==> r == Some(k)
  {
    var hits := Agreeing(t, id);
    var r := Search(t, ROOT, hits, limit, None);
    SearchImproves(t, ROOT, hits, limit, None);
    RootCovers(id, 64);
    forall k | k in t ensures k in Below(t, ROOT) {
      UnderRoot(t, k);
    }
    assert ROOT in hits;
    assert IsLongest(t.Keys, id, limit, r.value);
    forall k | IsLongest(t.Keys, id, limit, k) ensures r == Some(k) {
      LongestUnique(t.Keys, id, limit, k, r.value);
    }
  }
}
