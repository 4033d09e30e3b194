/** Claiming regions: what one request does to the tree, and what a whole list of requests amounts to. */
module Claims {
  import opened Word
  import opened Prefix
  import opened Tree

  /** The status codes the operations of this model return. */
  datatype Status = Ok | NotFound | Invalid | TooBig | Refused | AbiMismatch

  /** Hang a new leaf k under p, in front of p's other children. */
  ghost function Attach(t: Tree, p: Key, k: Key): Tree
    requires p in t
  {
    t[p := t[p].(children := [k] + t[p].children)][k := Links(Some(p), [])]
  }

  /** `xy_claim_at` on the tree: the checks in the order the source makes them. */
  ghost function ClaimAt(t: Tree, k: Key): (Tree, Status)
    requires Shape(t)
  {
    if k.plen > 64 then (t, TooBig)
    else if !Agrees(k.id, k) then (t, Invalid)
    else if k in t then (t, Ok)
    else
      match NearestAncestor(t, k)
      case None => (t, NotFound)
      case Some(p) => if k.plen <= p.plen || p !in t then (t, Invalid) else (Attach(t, p, k), Ok)
  }

  /** k can be hung under p as far as the tree's shape goes; attachable also asks that it lie inside p. */
  ghost predicate Hangable(t: Tree, p: Key, k: Key) {
    k !in t && p in t && p.plen < k.plen <= 64
  }

  ghost predicate Attachable(t: Tree, p: Key, k: Key) {
    Hangable(t, p, k) && Canonical(k) && Contains(p, k)
  }

  lemma AttachKeepsInv(t: Tree, p: Key, k: Key)
    requires TreeInv(t) && Attachable(t, p, k)
    ensures TreeInv(Attach(t, p, k))
  {
    AttachKeepsShape(t, p, k);
  }

  lemma AttachKeepsShape(t: Tree, p: Key, k: Key)
    requires Shape(t) && Hangable(t, p, k)
    ensures Shape(Attach(t, p, k))
  {
    var t' := Attach(t, p, k);
    forall j | j in t' ensures ParentOk(t', j) {
      if j != k { assert ParentOk(t, j); }
    }
    forall j | j in t' ensures ChildrenOk(t', j) {
      if j == k {
        forall c | c in t ensures t[c].parent != Some(k) { assert ParentOk(t, c); }
      } else {
        AttachKeepsChildren(t, p, k, j);
      }
    }
  }

  lemma AttachKeepsChildren(t: Tree, p: Key, k: Key, j: Key)
    requires Shape(t) && Hangable(t, p, k) && j in t
    ensures ChildrenOk(Attach(t, p, k), j)
  {
    assert ChildrenOk(t, j);
    var cs := t[j].children;
    assert k !in cs;
    assert forall c :: c in [k] + cs <==> c == k || c in cs;
  }

  /** Attaching a leaf leaves the old ancestry alone; the leaf's own is its parent's plus itself. */
  lemma {:induction false} AttachUnder(t: Tree, p: Key, k: Key, j: Key, a: Key)
    requires Shape(t) && Hangable(t, p, k) && j in t
    ensures IsUnder(Attach(t, p, k), j, a) <==> IsUnder(t, j, a)
    decreases j.plen
  {
    assert ParentOk(t, j);
    if t[j].parent.Some? {
      AttachUnder(t, p, k, t[j].parent.value, a);
    }
  }

  lemma AttachUnderLeaf(t: Tree, p: Key, k: Key, a: Key)
    requires Shape(t) && Attachable(t, p, k)
    ensures IsUnder(Attach(t, p, k), k, a) <==> a == k || IsUnder(t, p, a)
  {
    AttachUnder(t, p, k, p, a);
  }

  // ----- One claim

  /** A fresh canonical request always finds its parent, and the parent is the widest narrower region around it. */
  lemma NearestAncestorFound(t: Tree, k: Key)
    requires TreeInv(t) && Canonical(k) && k !in t
    ensures var r := NearestAncestor(t, k);
            r.Some? && Attachable(t, r.value, k) && IsLongest(t.Keys, k.id, k.plen, r.value)
  {
    if k.plen == 0 { OnlyRootHasNoWidth(k); }
    SearchIsLongest(t, k.id, k.plen);
  }

  /** The outcome of a request depends only on its shape, and success adds exactly the requested region. */
  lemma ClaimAtEffect(t: Tree, k: Key)
    requires TreeInv(t) && IsWord(k.id)
    ensures var (t', status) := ClaimAt(t, k);
      && TreeInv(t')
      && status == (if k.plen > 64 then TooBig else if !Canonical(k) then Invalid else Ok)
      && t'.Keys == (if Canonical(k) then t.Keys + {k} else t.Keys)
      && (Canonical(k) && k !in t ==>
            NearestAncestor(t, k).Some? && t' == Attach(t, NearestAncestor(t, k).value, k))
      && (!Canonical(k) || k in t ==> t' == t)
  {
    if Canonical(k) && k !in t {
      NearestAncestorFound(t, k);
      AttachKeepsInv(t, NearestAncestor(t, k).value, k);
    }
  }

  /** The parent search is the cover search one bit narrower, and it never sees bits below that width. */
  lemma ParentIsNarrowerCover(t: Tree, k: Key, id: nat)
    requires TreeInv(t) && IsWord(k.id) && 0 < k.plen <= 64
    requires IsWord(id) && Masked(id, k.plen - 1) == Masked(k.id, k.plen - 1)
    ensures NearestAncestor(t, k) == RegionAt(t, k.id, k.plen - 1)
    ensures RegionAt(t, id, k.plen - 1) == RegionAt(t, k.id, k.plen - 1)
  {
    SearchIsLongest(t, id, k.plen);
    SearchIsLongest(t, k.id, k.plen);
    var r := RegionAt(t, id, k.plen - 1).value;
    forall a | a in t && a.plen < k.plen ensures Agrees(id, a) <==> Agrees(k.id, a) {
      AgreesByTruncation(id, k.id, k.plen - 1, a);
    }
    assert IsLongest(t.Keys, k.id, k.plen, r);
  }

  lemma AgreesByTruncation(id: nat, id': nat, plen: nat, a: Key)
    requires IsWord(id) && IsWord(id') && a.plen <= plen <= 64
    requires Masked(id, plen) == Masked(id', plen)
    ensures Agrees(id, a) <==> Agrees(id', a)
  {
    MaskedTwice(id, a.plen, plen);
    MaskedTwice(id', a.plen, plen);
    AgreesIsTruncation(id, a);
    AgreesIsTruncation(id', a);
  }

  /** A new region changes a lookup exactly where it contains the point more deeply than the old answer. */
  lemma ClaimChangesLookup(t: Tree, k: Key, id: nat, plen: nat)
    requires TreeInv(t) && Canonical(k) && IsWord(id) && plen <= 64
    ensures TreeInv(ClaimAt(t, k).0)
    ensures var before, after := RegionAt(t, id, plen), RegionAt(ClaimAt(t, k).0, id, plen);
            && before.Some?
            && after == if Covers(k, id, plen) && k.plen > before.value.plen then Some(k) else before
  {
    ClaimAtEffect(t, k);
    var t' := ClaimAt(t, k).0;
    SearchIsLongest(t, id, plen + 1);
    SearchIsLongest(t', id, plen + 1);
    var b := RegionAt(t, id, plen).value;
    if Covers(k, id, plen) && k.plen > b.plen {
      assert IsLongest(t'.Keys, id, plen + 1, k);
    } else {
      assert IsLongest(t'.Keys, id, plen + 1, b);
    }
  }

  // ----- Lists of claims

  lemma SeedInv()
    ensures TreeInv(SEED)
  {
    RootCovers(0, 0);
  }

  /** The tree after a list of requests, the last one made last. */
  ghost function ClaimAll(reqs: seq<Key>): (t: Tree)
    requires forall k :: k in reqs ==> IsWord(k.id)
    ensures TreeInv(t)
  {
    if reqs == [] then SeedInv(); SEED
    else
      var last := |reqs| - 1;
      assert reqs[last] in reqs && forall k :: k in reqs[..last] ==> k in reqs;
      ClaimAtEffect(ClaimAll(reqs[..last]), reqs[last]);
      ClaimAt(ClaimAll(reqs[..last]), reqs[last]).0
  }

  ghost function Requested(reqs: seq<Key>): set<Key> {
    set k | k in reqs && Canonical(k)
  }

  lemma {:induction false} ClaimAllRegions(reqs: seq<Key>)
    requires forall k :: k in reqs ==> IsWord(k.id)
    ensures ClaimAll(reqs).Keys == {ROOT} + Requested(reqs)
  {
    if reqs != [] {
      var last := |reqs| - 1;
      assert reqs == reqs[..last] + [reqs[last]];
      ClaimAllRegions(reqs[..last]);
      ClaimAtEffect(ClaimAll(reqs[..last]), reqs[last]);
    }
  }

  /** The order of claims is invisible to lookups: every permutation yields the same regions and the same answers. */
  lemma ClaimOrderInvisible(p: seq<Key>, q: seq<Key>, id: nat, plen: nat)
    requires forall k :: k in p ==> IsWord(k.id)
    requires forall k :: k in q ==> IsWord(k.id)
    requires multiset(p) == multiset(q)
    requires IsWord(id)
    ensures ClaimAll(p).Keys == ClaimAll(q).Keys
    ensures RegionAt(ClaimAll(p), id, plen) == RegionAt(ClaimAll(q), id, plen)
  {
    SameRequests(p, q);
    ClaimAllRegions(p);
    ClaimAllRegions(q);
    SameRegionsSameLookup(ClaimAll(p), ClaimAll(q), id, plen);
  }

  lemma SameRequests(p: seq<Key>, q: seq<Key>)
    requires multiset(p) == multiset(q)
    ensures Requested(p) == Requested(q)
  {
    forall k ensures k in p <==> k in q {
      assert k in p <==> k in multiset(p);
      assert k in q <==> k in multiset(q);
    }
  }

  lemma SameRegionsSameLookup(t: Tree, u: Tree, id: nat, plen: nat)
    requires Shape(t) && Shape(u) && t.Keys == u.Keys && IsWord(id)
    ensures RegionAt(t, id, plen) == RegionAt(u, id, plen)
  {
    SearchIsLongest(t, id, plen + 1);
    SearchIsLongest(u, id, plen + 1);
    assert IsLongest(u.Keys, id, plen + 1, RegionAt(t, id, plen).value);
  }

  /** The order does show in the parent links: a region claimed after one it contains does not adopt it. */
  lemma ClaimOrderShowsInLinks(a: Key, b: Key)
    requires Canonical(a) && Canonical(b) && a != b && a != ROOT && b != ROOT && Contains(a, b)
    ensures var t, u := ClaimAll([a, b]), ClaimAll([b, a]);
            t.Keys == u.Keys == {ROOT, a, b} && t[b].parent == Some(a) && u[b].parent == Some(ROOT)
  {
    if a.plen == b.plen { SameWidthDisjoint(a, b, b.id); }
    if a.plen == 0 { OnlyRootHasNoWidth(a); }
    var t, p := ClaimTwo(a, b);
    WiderWins(a, b, p);
    var u, q := ClaimTwo(b, a);
  }

  lemma WiderWins(a: Key, b: Key, p: Key)
    requires 0 < a.plen < b.plen && Contains(a, b) && IsLongest({ROOT, a}, b.id, b.plen, p)
    ensures p == a
  {
    assert a in {ROOT, a};
  }

  lemma OnlyRootHasNoWidth(k: Key)
    requires Canonical(k) && k.plen == 0
    ensures k == ROOT
  {
    RootCovers(k.id, 0);
    SameWidthDisjoint(k, ROOT, k.id);
  }

  /** Two claims on a fresh runtime, step by step. */
  lemma ClaimTwo(a: Key, b: Key) returns (t: Tree, p: Key)
    requires Canonical(a) && Canonical(b) && a != b && a != ROOT && b != ROOT
    ensures t == ClaimAll([a, b]) && t.Keys == {ROOT, a, b}
    ensures t[a].parent == Some(ROOT) && t[b].parent == Some(p) && IsLongest({ROOT, a}, b.id, b.plen, p)
  {
    assert [a, b][..1] == [a] && [a][..0] == [];
    assert ClaimAll([]) == SEED;
    var one := ClaimAll([a]);
    assert one == ClaimAt(SEED, a).0;
    ClaimAtEffect(SEED, a);
    NearestAncestorFound(SEED, a);
    assert one.Keys == {ROOT, a};
    ClaimAtEffect(one, b);
    NearestAncestorFound(one, b);
    t, p := ClaimAt(one, b).0, NearestAncestor(one, b).value;
    assert ClaimAll([a, b]) == t;
  }

  // ----- When the tree is the prefix tree

  /** Tree descent coincides with prefix containment. */
  ghost predicate IsTrie(t: Tree) {
    forall a, b :: a in t && b in t ==> (IsUnder(t, b, a) <==> Contains(a, b))
  }

  /** No region already there lies strictly inside the requested one. */
  ghost predicate ClaimedBeforeItsInside(t: Tree, k: Key) {
    Canonical(k) && k !in t ==> forall b :: b in t ==> !Contains(k, b)
  }

  /** One claim keeps the tree a prefix tree exactly when the new region has nothing inside it yet. */
  lemma ClaimKeepsTrie(t: Tree, k: Key)
    requires TreeInv(t) && IsWord(k.id)
    ensures IsTrie(ClaimAt(t, k).0) <==> IsTrie(t) && ClaimedBeforeItsInside(t, k)
  {
    ClaimAtEffect(t, k);
    if Canonical(k) && k !in t {
      var p := NearestAncestor(t, k).value;
      NearestAncestorFound(t, k);
      if IsTrie(t) && ClaimedBeforeItsInside(t, k) {
        TrieGrows(t, p, k);
      }
      if IsTrie(ClaimAt(t, k).0) {
        TrieWas(t, p, k);
      }
    }
  }

  lemma TrieGrows(t: Tree, p: Key, k: Key)
    requires TreeInv(t) && IsTrie(t) && Attachable(t, p, k) && IsLongest(t.Keys, k.id, k.plen, p)
    requires forall b :: b in t ==> !Contains(k, b)
    ensures IsTrie(Attach(t, p, k))
  {
    var t' := Attach(t, p, k);
    forall a, b | a in t' && b in t' ensures IsUnder(t', b, a) <==> Contains(a, b) {
      if b == k {
        LeafIsTrie(t, p, k, a);
      } else {
        AttachUnder(t, p, k, b, a);
        if a == k && IsUnder(t, b, k) { UnderWider(t, b, k); }
      }
    }
  }

  lemma TrieWas(t: Tree, p: Key, k: Key)
    requires TreeInv(t) && Attachable(t, p, k) && IsTrie(Attach(t, p, k))
    ensures IsTrie(t) && forall b :: b in t ==> !Contains(k, b)
  {
    var t' := Attach(t, p, k);
    forall a, b | a in t && b in t ensures IsUnder(t, b, a) <==> Contains(a, b) {
      AttachUnder(t, p, k, b, a);
      assert a in t' && b in t';
    }
    forall b | b in t ensures !Contains(k, b) {
      AttachUnder(t, p, k, b, k);
      assert k in t' && b in t';
      if IsUnder(t, b, k) { UnderWider(t, b, k); }
    }
  }

  lemma LeafIsTrie(t: Tree, p: Key, k: Key, a: Key)
    requires TreeInv(t) && IsTrie(t) && Attachable(t, p, k) && IsLongest(t.Keys, k.id, k.plen, p)
    requires a in t || a == k
    ensures IsUnder(Attach(t, p, k), k, a) <==> Contains(a, k)
  {
    AttachUnderLeaf(t, p, k, a);
    assert Canonical(p);
    if a != k {
      if Contains(a, k) {
        if a.plen == k.plen { SameWidthDisjoint(a, k, k.id); }
        AgreesNested(a, p, k.id);
      }
      if IsUnder(t, p, a) {
        CoversTransitive(a, p, k.id, k.plen);
      }
    }
  }

  /** Every request was made before any region inside the requested one existed. */
  ghost predicate OutsideIn(reqs: seq<Key>)
    requires forall k :: k in reqs ==> IsWord(k.id)
  {
    forall i :: 0 <= i < |reqs| ==> BeforeItsInside(reqs, i)
  }

  /** No earlier request names a region strictly inside request i, unless i repeats an earlier request. */
  ghost predicate BeforeItsInside(reqs: seq<Key>, i: nat)
    requires i < |reqs|
  {
    Canonical(reqs[i]) && reqs[i] != ROOT && reqs[i] !in reqs[..i] ==>
      forall j :: 0 <= j < i && Canonical(reqs[j]) ==> !Contains(reqs[i], reqs[j])
  }

  /** A list of claims builds the prefix tree if and only if it was made outside-in. */
  lemma {:induction false} TrieIffOutsideIn(reqs: seq<Key>)
    requires forall k :: k in reqs ==> IsWord(k.id)
    ensures IsTrie(ClaimAll(reqs)) <==> OutsideIn(reqs)
  {
    if reqs == [] {
      RootCovers(0, 0);
    } else {
      var n := |reqs| - 1;
      var init, last := reqs[..n], reqs[n];
      assert last in reqs;
      TrieIffOutsideIn(init);
      ClaimKeepsTrie(ClaimAll(init), last);
      OutsideInPrefix(reqs);
      ClaimAllRegions(init);
      LastClaim(reqs);
    }
  }

  lemma OutsideInPrefix(reqs: seq<Key>)
    requires reqs != [] && forall k :: k in reqs ==> IsWord(k.id)
    ensures var n := |reqs| - 1; OutsideIn(reqs) <==> OutsideIn(reqs[..n]) && BeforeItsInside(reqs, n)
  {
    var n := |reqs| - 1;
    var init := reqs[..n];
    forall i | 0 <= i < n ensures BeforeItsInside(reqs, i) <==> BeforeItsInside(init, i) {
      assert init[..i] == reqs[..i];
    }
  }

  lemma LastClaim(reqs: seq<Key>)
    requires reqs != [] && forall k :: k in reqs ==> IsWord(k.id)
    requires ClaimAll(reqs[..|reqs| - 1]).Keys == {ROOT} + Requested(reqs[..|reqs| - 1])
    ensures var n := |reqs| - 1;
            ClaimedBeforeItsInside(ClaimAll(reqs[..n]), reqs[n]) <==> BeforeItsInside(reqs, n)
  {
    var n := |reqs| - 1;
    var t, k := ClaimAll(reqs[..n]), reqs[n];
    forall j | 0 <= j < n && Canonical(reqs[j]) ensures reqs[j] in t { assert reqs[j] == reqs[..n][j]; }
    if Canonical(k) && k != ROOT && k !in reqs[..n] {
      assert k !in t;
      if Contains(k, ROOT) { OnlyRootHasNoWidth(k); }
      forall b | b in t && b != ROOT ensures exists j :: 0 <= j < n && reqs[j] == b && Canonical(reqs[j]) {
        var j :| 0 <= j < n && reqs[..n][j] == b;
        assert reqs[j] == b;
      }
    }
  }
}
