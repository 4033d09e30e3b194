/** Region identities: a 64-bit id together with the width of its prefix. */
module Prefix {
  import opened Word

  /** The pair that names a region; two regions may share an id and differ in width. */
  datatype Key = Key(id: nat, plen: nat)

  const ROOT := Key(0, 0)

  /** The containment mask, branch by branch as the source builds it. */
  function RegionMask(plen: nat): nat {
    if plen == 0 then 0
    else if plen >= 64 then Not(0)
    else ShiftLeft(Not(0), 64 - plen)
  }

  lemma RegionMaskValue(plen: nat)
    requires plen <= 64
    ensures Pow2(64 - plen) <= WORD_SIZE
    ensures RegionMask(plen) == WORD_SIZE - Pow2(64 - plen)
  {
    WordSize();
    Pow2Monotone(64 - plen, 64);
    if 0 < plen < 64 {
      var p := Pow2(64 - plen);
      assert (WORD_SIZE - 1) * p == (p - 1) * WORD_SIZE + (WORD_SIZE - p);
      DivModUnique((WORD_SIZE - 1) * p, WORD_SIZE, p - 1, WORD_SIZE - p);
    }
  }

  /** `id & region_mask(plen)`: the high plen bits of id, everything below them cleared. */
  function Masked(id: nat, plen: nat): (r: nat)
    requires IsWord(id) && plen <= 64
    ensures r == ClearLow(id, 64 - plen)
  {
    WordSize();
    RegionMaskValue(plen);
    AndHighMask(id, 64 - plen, 64);
    And(id, RegionMask(plen))
  }

  /** The containment test of the source: `(id & region_mask(k.plen)) == k.id`. */
  predicate Agrees(id: nat, k: Key) {
    And(id, RegionMask(k.plen)) == k.id
  }

  /** A canonical identity has no bit set below its width. */
  predicate Canonical(k: Key) {
    k.plen <= 64 && IsWord(k.id) && Agrees(k.id, k)
  }

  /** Region `a` contains the point (id, plen): it is no wider than the point and agrees on its own width. */
  predicate Covers(a: Key, id: nat, plen: nat) {
    a.plen <= plen && Agrees(id, a)
  }

  /** Region `a` contains region `b`. */
  predicate Contains(a: Key, b: Key) {
    Covers(a, b.id, b.plen)
  }

  lemma AgreesIsTruncation(id: nat, k: Key)
    requires IsWord(id) && k.plen <= 64
    ensures Agrees(id, k) <==> ClearLow(id, 64 - k.plen) == k.id
  {
    var m := Masked(id, k.plen);
  }

  lemma RootCovers(id: nat, plen: nat)
    requires IsWord(id)
    ensures Canonical(ROOT) && Covers(ROOT, id, plen)
  {
    WordSize();
    AgreesIsTruncation(id, ROOT);
    AgreesIsTruncation(0, ROOT);
    DivModUnique(id, WORD_SIZE, 0, id);
    DivModUnique(0, WORD_SIZE, 0, 0);
  }

  /** Truncating twice keeps only the shorter prefix. */
  lemma MaskedTwice(id: nat, p: nat, q: nat)
    requires IsWord(id) && p <= q <= 64
    ensures IsWord(Masked(id, q))
    ensures Masked(Masked(id, q), p) == Masked(id, p)
  {
    ModAtMost(id, Pow2(64 - q));
    Pow2Add(64 - q, q - p);
    DropTwice(id, Pow2(64 - q), Pow2(q - p));
  }

  /** Dropping the part below `lo` first does not change what is above `lo * m`. */
  lemma DropTwice(x: nat, lo: nat, m: nat)
    requires lo > 0 && m > 0 && lo * m > 0
    ensures var y := x - x % lo; y - y % (lo * m) == x - x % (lo * m)
  {
    var hi := lo * m;
    var a, r := x / lo, x % lo;
    var b, t := a / m, a % m;
    calc {
      a * lo;
      (b * m + t) * lo;
      b * m * lo + t * lo;
      { MulAssoc(b, m, lo); }
      b * hi + t * lo;
    }
    MulLe(t + 1, m, lo);
    MulNonNegative(t, lo);
    DivModUnique(a * lo, hi, b, t * lo);
    DivModUnique(x, hi, b, t * lo + r);
  }

  lemma MulLe(a: nat, b: nat, c: nat)
    requires a <= b
    ensures a * c <= b * c
  {
    assert b * c == a * c + (b - a) * c;
    MulNonNegative(b - a, c);
  }

  lemma MulNonNegative(a: nat, b: nat)
    ensures a * b >= 0
  {
  }

  /** The regions that agree with one point form a chain: the narrower contains the wider. */
  lemma AgreesNested(a: Key, b: Key, id: nat)
    requires IsWord(id) && a.plen <= b.plen <= 64
    requires Agrees(id, a) && Agrees(id, b)
    ensures IsWord(b.id) && Contains(a, b)
    ensures a.plen == b.plen ==> a == b
  {
    AgreesIsTruncation(id, a);
    AgreesIsTruncation(id, b);
    MaskedTwice(id, a.plen, b.plen);
    AgreesIsTruncation(b.id, a);
  }

  lemma CoversTransitive(a: Key, b: Key, id: nat, plen: nat)
    requires IsWord(id) && IsWord(b.id) && b.plen <= 64
    requires Contains(a, b) && Covers(b, id, plen)
    ensures Covers(a, id, plen)
  {
    AgreesIsTruncation(id, b);
    AgreesIsTruncation(b.id, a);
    MaskedTwice(id, a.plen, b.plen);
    AgreesIsTruncation(id, a);
  }

  /** Two canonical regions of one width that share a point are one region. */
  lemma SameWidthDisjoint(a: Key, b: Key, id: nat)
    requires IsWord(id) && a.plen == b.plen <= 64
    requires Agrees(id, a) && Agrees(id, b)
    ensures a == b
  {
    AgreesNested(a, b, id);
  }
}
