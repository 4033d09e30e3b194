/** The slot allocator behind claim-gated loads: child identities of a given width under one parent. */
module Slots {
  import opened Word
  import opened Prefix

  const INVALID_ID: nat := WORD_SIZE - 1

  /** The id tried at step s: the slot number lands right below the parent's prefix. */
  function CandidateId(parent: Key, cplen: nat, s: nat): nat {
    Or(parent.id, ShiftLeft(s, if cplen < 64 then 64 - cplen else 0))
  }

  function Candidate(parent: Key, cplen: nat, s: nat): Key {
    Key(CandidateId(parent, cplen, s), cplen)
  }

  /** How many steps the probing loop can make; at width 64 the bound wraps to 0 and the loop runs through all words. */
  function Probes(bits: nat, cplen: nat): nat {
    if cplen == 64 then WORD_SIZE else Pow2(bits)
  }

  function FirstFree(keys: set<Key>, parent: Key, cplen: nat, s: nat, n: nat): (r: nat)
    requires s <= n
    ensures s <= r <= n
    ensures r < n ==> Candidate(parent, cplen, r) !in keys
    ensures forall i :: s <= i < r ==> Candidate(parent, cplen, i) in keys
    decreases n - s
  {
    if s == n || Candidate(parent, cplen, s) !in keys then s else FirstFree(keys, parent, cplen, s + 1, n)
  }

  /** `region_alloc_slot`: the id of the first free candidate, or the all-ones word for "none". */
  function Alloc(keys: set<Key>, parent: Key, bits: nat): nat {
    var cplen := parent.plen + bits;
    if cplen > 64 then INVALID_ID
    else
      var n := Probes(bits, cplen);
      var s := FirstFree(keys, parent, cplen, 0, n);
      if s == n then INVALID_ID else CandidateId(parent, cplen, s)
  }

  // ----- Where the candidates lie

  ghost predicate Grantable(parent: Key, bits: nat) {
    Canonical(parent) && bits > 0 && parent.plen + bits <= 64
  }

  /** The numbers involved: child step, parent step, and how many of the one make the other. */
  lemma Steps(parent: Key, bits: nat)
    requires Grantable(parent, bits)
    ensures var lo, hi := Pow2(64 - parent.plen - bits), Pow2(64 - parent.plen);
            hi == Pow2(bits) * lo && parent.id % hi == 0 && parent.id + hi <= WORD_SIZE && hi <= WORD_SIZE
  {
    var hi := Pow2(64 - parent.plen);
    WordSize();
    Pow2Add(bits, 64 - parent.plen - bits);
    Pow2Add(parent.plen, 64 - parent.plen);
    Pow2Monotone(64 - parent.plen, 64);
    AgreesIsTruncation(parent.id, parent);
    ClearLowMultiple(parent.id, 64 - parent.plen);
    RoundsUp(parent.id, hi, Pow2(parent.plen));
  }

  lemma RoundsUp(x: nat, d: nat, n: nat)
    requires d > 0 && x % d == 0 && x < n * d
    ensures x + d <= n * d
  {
    var q := x / d;
    assert x == q * d;
    if q >= n { MulLe(n, q, d); }
    MulLe(q + 1, n, d);
  }

  /** The shifted slot number stays inside one step of the parent. */
  lemma SlotOffset(parent: Key, bits: nat, s: nat)
    requires Grantable(parent, bits) && s < Pow2(bits)
    ensures var lo, hi := Pow2(64 - parent.plen - bits), Pow2(64 - parent.plen);
            0 <= s * lo && s * lo + lo <= hi && hi <= WORD_SIZE
  {
    var lo := Pow2(64 - parent.plen - bits);
    Steps(parent, bits);
    MulLe(s + 1, Pow2(bits), lo);
    MulNonNegative(s, lo);
    assert (s + 1) * lo == s * lo + lo;
  }

  /** Slot s sits s child steps above the parent's id. */
  lemma CandidateValue(parent: Key, bits: nat, s: nat)
    requires Grantable(parent, bits) && s < Pow2(bits)
    ensures CandidateId(parent, parent.plen + bits, s) == parent.id + s * Pow2(64 - parent.plen - bits)
  {
    SlotOffset(parent, bits, s);
    Steps(parent, bits);
    var off := s * Pow2(64 - parent.plen - bits);
    SmallMod(off, WORD_SIZE);
    OrDisjoint(parent.id, off, 64 - parent.plen);
  }

  /** Slot s below 2^bits is a canonical identity inside the parent. */
  lemma CandidateInside(parent: Key, bits: nat, s: nat)
    requires Grantable(parent, bits) && s < Pow2(bits)
    ensures var k := Candidate(parent, parent.plen + bits, s);
            Canonical(k) && Contains(parent, k) && k.id == parent.id + s * Pow2(64 - k.plen)
  {
    var k := Candidate(parent, parent.plen + bits, s);
    var lo, hi := Pow2(64 - k.plen), Pow2(64 - parent.plen);
    Steps(parent, bits);
    SlotOffset(parent, bits, s);
    CandidateValue(parent, bits, s);
    StepsBelow(parent.id, s * lo, lo, hi, Pow2(bits), s);
    WithOffset(k, parent, s * lo);
  }

  lemma WithOffset(k: Key, parent: Key, off: nat)
    requires k.plen <= 64 && parent.plen <= k.plen && IsWord(k.id) && k.id == parent.id + off
    requires k.id % Pow2(64 - k.plen) == 0 && k.id % Pow2(64 - parent.plen) == off
    ensures Canonical(k) && Contains(parent, k)
  {
    AgreesIsTruncation(k.id, k);
    AgreesIsTruncation(k.id, parent);
  }

  lemma StepsBelow(x: nat, off: nat, lo: nat, hi: nat, m: nat, s: nat)
    requires lo > 0 && hi == m * lo && hi > 0 && x % hi == 0 && off == s * lo && off < hi
    ensures (x + off) % lo == 0 && (x + off) % hi == off
  {
    var q := x / hi;
    assert x == q * hi;
    DivModUnique(x + off, hi, q, off);
    MulAssoc(q, m, lo);
    assert x + off == (q * m + s) * lo;
    DivModUnique(x + off, lo, q * m + s, 0);
  }

  /** Conversely every identity of that width inside the parent is one of the slots. */
  lemma InsideIsCandidate(parent: Key, bits: nat, k: Key) returns (s: nat)
    requires Grantable(parent, bits) && k.plen == parent.plen + bits && Canonical(k) && Contains(parent, k)
    ensures s < Pow2(bits) && k == Candidate(parent, k.plen, s)
  {
    var lo, hi := Pow2(64 - k.plen), Pow2(64 - parent.plen);
    Steps(parent, bits);
    OffsetOf(k, parent);
    MultiplesSubtract(k.id, parent.id, lo, hi, Pow2(bits));
    var off := k.id - parent.id;
    s := off / lo;
    Quotient(off, lo, Pow2(bits));
    CandidateValue(parent, bits, s);
  }

  lemma OffsetOf(k: Key, parent: Key)
    requires Canonical(k) && Canonical(parent) && Contains(parent, k)
    ensures k.id % Pow2(64 - k.plen) == 0
    ensures parent.id <= k.id && k.id - parent.id == k.id % Pow2(64 - parent.plen)
  {
    AgreesIsTruncation(k.id, k);
    AgreesIsTruncation(k.id, parent);
    ClearLowMultiple(k.id, 64 - k.plen);
  }

  lemma Quotient(x: nat, d: nat, m: nat)
    requires d > 0 && x % d == 0 && x < m * d
    ensures x / d < m && x == (x / d) * d
  {
    if x / d >= m { MulLe(m, x / d, d); }
  }

  lemma MultiplesSubtract(x: nat, y: nat, lo: nat, hi: nat, m: nat)
    requires lo > 0 && hi == m * lo && hi > 0 && x % lo == 0 && y % hi == 0 && y <= x
    ensures (x - y) % lo == 0
  {
    var a, b := x / lo, y / hi;
    assert x == a * lo && y == b * hi;
    MulAssoc(b, m, lo);
    assert x - y == (a - b * m) * lo;
    DivModUnique(x - y, lo, a - b * m, 0);
  }

  /** A free identity inside the parent, as many bits wider as requested. */
  ghost predicate FreeInside(keys: set<Key>, parent: Key, bits: nat, k: Key) {
    k.plen == parent.plen + bits && Canonical(k) && Contains(parent, k) && k !in keys
  }

  /** The allocator stays inside the parent: below width 64 always, at width 64 while a free identity exists there. */
  ghost predicate StaysInside(keys: set<Key>, parent: Key, bits: nat) {
    parent.plen + bits < 64 || (parent.plen + bits == 64 && exists k :: FreeInside(keys, parent, bits, k))
  }

  /**
   * While a free identity exists, the allocator returns the lowest one: the failure value if that is the all-ones id.
   */
  lemma AllocLowest(keys: set<Key>, parent: Key, bits: nat, f: Key)
    requires Grantable(parent, bits) && FreeInside(keys, parent, bits, f)
    ensures var r := Key(Alloc(keys, parent, bits), parent.plen + bits);
            FreeInside(keys, parent, bits, r) && r.id <= f.id && (f.id != INVALID_ID ==> r.id != INVALID_ID)
  {
    var cplen := parent.plen + bits;
    var n := Probes(bits, cplen);
    WordSize();
    Pow2Monotone(bits, 64);
    var sf := InsideIsCandidate(parent, bits, f);
    var s := FirstFree(keys, parent, cplen, 0, n);
    assert s <= sf;
    CandidateInside(parent, bits, s);
    CandidatesRise(parent, bits, s, sf);
  }

  lemma CandidatesRise(parent: Key, bits: nat, s: nat, t: nat)
    requires Grantable(parent, bits) && s <= t < Pow2(bits)
    ensures CandidateId(parent, parent.plen + bits, s) <= CandidateId(parent, parent.plen + bits, t)
  {
    CandidateValue(parent, bits, s);
    CandidateValue(parent, bits, t);
    MulLe(s, t, Pow2(64 - parent.plen - bits));
  }

  /** Below width 64 the allocator fails exactly when every identity of that width inside the parent exists. */
  lemma AllocFailsIffFull(keys: set<Key>, parent: Key, bits: nat)
    requires Grantable(parent, bits) && parent.plen + bits < 64
    ensures Alloc(keys, parent, bits) == INVALID_ID <==>
            !exists k :: FreeInside(keys, parent, bits, k)
  {
    var cplen := parent.plen + bits;
    if k: Key :| FreeInside(keys, parent, bits, k) {
      AllocLowest(keys, parent, bits, k);
      var r := Key(Alloc(keys, parent, bits), cplen);
      Pow2Monotone(1, 64 - cplen);
      AgreesIsTruncation(r.id, r);
      ClearLowMultiple(r.id, 64 - cplen);
      if r.id == INVALID_ID { OnesAreOdd(64 - cplen); }
    } else {
      var s := FirstFree(keys, parent, cplen, 0, Pow2(bits));
      if s < Pow2(bits) {
        CandidateInside(parent, bits, s);
        assert FreeInside(keys, parent, bits, Candidate(parent, cplen, s));
      }
    }
  }

  lemma OnesAreOdd(k: nat)
    requires 0 < k < 64
    ensures INVALID_ID % Pow2(k) != 0
  {
    WordSize();
    Pow2Add(64 - k, k);
    Pow2Monotone(1, k);
    OnesMod(Pow2(64 - k), Pow2(k));
  }

  lemma OnesMod(m: nat, d: nat)
    requires d > 1 && m > 0
    ensures (m * d - 1) % d == d - 1
  {
    assert m * d - 1 == (m - 1) * d + (d - 1);
    DivModUnique(m * d - 1, d, m - 1, d - 1);
  }

  /** What a caller can use: not the failure value, and a free identity inside the parent. */
  ghost predicate Usable(keys: set<Key>, parent: Key, bits: nat, k: Key) {
    k.id != INVALID_ID && FreeInside(keys, parent, bits, k)
  }

  /**
   * At width 64 the loop does not stop after 2^bits slots, and the last word of all is the failure value. The id it
   * returns is a free identity inside the parent if and only if one other than the all-ones word was free there.
   */
  lemma FullWidthEscapes(keys: set<Key>, parent: Key, bits: nat)
    requires Grantable(parent, bits) && parent.plen + bits == 64
    ensures (exists k :: Usable(keys, parent, bits, k)) <==>
            Usable(keys, parent, bits, Key(Alloc(keys, parent, bits), 64))
  {
    if k: Key :| Usable(keys, parent, bits, k) {
      AllocLowest(keys, parent, bits, k);
    }
  }

  /** A slot that turns out to lie inside the parent shows that the allocator stayed there. */
  lemma ContainedStays(keys: set<Key>, parent: Key, bits: nat)
    requires var k := Key(Alloc(keys, parent, bits), parent.plen + bits);
             k.id != INVALID_ID && Canonical(k) && Contains(parent, k)
    ensures StaysInside(keys, parent, bits)
  {
    assert FreeInside(keys, parent, bits, Key(Alloc(keys, parent, bits), parent.plen + bits));
  }

  /** The load is refused although the all-ones identity is free, when that is the only one. */
  lemma LastWordRefused(keys: set<Key>, parent: Key, bits: nat)
    requires Grantable(parent, bits) && FreeInside(keys, parent, bits, Key(INVALID_ID, 64))
    requires !exists k :: Usable(keys, parent, bits, k)
    ensures Alloc(keys, parent, bits) == INVALID_ID
  {
    AllocLowest(keys, parent, bits, Key(INVALID_ID, 64));
    assert !Usable(keys, parent, bits, Key(Alloc(keys, parent, bits), 64));
  }

  /** A parent of width 63 holds two words: those that agree but for the last bit. */
  lemma SingleWord(id: nat)
    requires IsWord(id)
    ensures Canonical(Key(id, 64)) && Contains(Key(2 * (id / 2), 63), Key(id, 64)) && Canonical(Key(2 * (id / 2), 63))
    ensures forall x: nat :: IsWord(x) && Contains(Key(2 * (id / 2), 63), Key(x, 64)) ==> x / 2 == id / 2
  {
    assert Pow2(0) == 1 && Pow2(1) == 2;
    AgreesIsTruncation(id, Key(id, 64));
    WordPair(id, id);
    WordPair(2 * (id / 2), id);
    forall x: nat | IsWord(x) && Contains(Key(2 * (id / 2), 63), Key(x, 64)) ensures x / 2 == id / 2 {
      WordPair(x, id);
    }
  }

  lemma WordPair(x: nat, id: nat)
    requires IsWord(x) && IsWord(id)
    ensures Agrees(x, Key(2 * (id / 2), 63)) <==> x / 2 == id / 2
  {
    assert Pow2(0) == 1 && Pow2(1) == 2;
    AgreesIsTruncation(x, Key(2 * (id / 2), 63));
    assert ClearLow(x, 1) == x - x % 2 == 2 * (x / 2);
  }

  /** The first failure: under a full parent of two words the id returned is a stranger's. */
  lemma EscapeAtOneBit()
    ensures var p := Key(0, 63); var keys := {Key(0, 64), Key(1, 64)};
            Grantable(p, 1) && Alloc(keys, p, 1) == 2 && !Contains(p, Key(2, 64))
  {
    var p, keys := Key(0, 63), {Key(0, 64), Key(1, 64)};
    SingleWord(0);
    assert Pow2(0) == 1 && Pow2(1) == 2;
    CandidateValue(p, 1, 0);
    CandidateValue(p, 1, 1);
    SmallMod(2, WORD_SIZE);
    assert CandidateId(p, 64, 2) == 2;
    var s := FirstFree(keys, p, 64, 0, WORD_SIZE);
    assert Candidate(p, 64, 0) in keys && Candidate(p, 64, 1) in keys && Candidate(p, 64, 2) !in keys;
    assert s == 2;
  }

  /** The second: under the parent of the last two words the free all-ones identity is taken for a refusal. */
  lemma RefusalAtOneBit()
    ensures var p := Key(INVALID_ID - 1, 63); var keys := {Key(INVALID_ID - 1, 64)};
            Grantable(p, 1) && FreeInside(keys, p, 1, Key(INVALID_ID, 64)) && Alloc(keys, p, 1) == INVALID_ID
  {
    var p, keys := Key(INVALID_ID - 1, 63), {Key(INVALID_ID - 1, 64)};
    SingleWord(INVALID_ID);
    forall k | FreeInside(keys, p, 1, k) ensures k.id == INVALID_ID {
      assert k.id / 2 == INVALID_ID / 2;
    }
    LastWordRefused(keys, p, 1);
  }

  /** Pigeonhole: the slot found is no further than the number of regions of that width inside the parent. */
  lemma AllocProbes(keys: set<Key>, parent: Key, bits: nat)
    requires Grantable(parent, bits) && parent.plen + bits < 64
    ensures var cplen := parent.plen + bits;
            FirstFree(keys, parent, cplen, 0, Pow2(bits)) <=
              |set k | k in keys && k.plen == cplen && Contains(parent, k)|
  {
    var cplen := parent.plen + bits;
    var s := FirstFree(keys, parent, cplen, 0, Pow2(bits));
    var taken := set k | k in keys && k.plen == cplen && Contains(parent, k);
    var first := FirstSlots(parent, bits, s);
    forall k | k in first ensures k in taken {
      var i :| 0 <= i < s && IsSlot(parent, bits, i, k);
      CandidateInside(parent, bits, i);
    }
    SubsetSize(first, taken);
  }

  ghost predicate IsSlot(parent: Key, bits: nat, i: nat, k: Key) {
    k == Candidate(parent, parent.plen + bits, i)
  }

  lemma {:induction false} FirstSlots(parent: Key, bits: nat, n: nat) returns (slots: set<Key>)
    requires Grantable(parent, bits) && n <= Pow2(bits)
    ensures |slots| == n
    ensures forall k :: k in slots ==> exists i :: 0 <= i < n && IsSlot(parent, bits, i, k)
    decreases n
  {
    if n == 0 {
      slots := {};
    } else {
      var cplen := parent.plen + bits;
      var before := FirstSlots(parent, bits, n - 1);
      var k := Candidate(parent, cplen, n - 1);
      CandidateInside(parent, bits, n - 1);
      forall j | j in before ensures j != k {
        var i :| 0 <= i < n - 1 && IsSlot(parent, bits, i, j);
        CandidateInside(parent, bits, i);
        StrictlyMonotone(i, n - 1, Pow2(64 - cplen));
      }
      assert IsSlot(parent, bits, n - 1, k);
      slots := before + {k};
    }
  }

  lemma StrictlyMonotone(a: nat, b: nat, d: nat)
    requires a < b && d > 0
    ensures a * d < b * d
  {
    MulLe(a + 1, b, d);
  }

  lemma {:induction false} SubsetSize<T>(a: set<T>, b: set<T>)
    requires a <= b
    ensures |a| <= |b|
    decreases a
  {
    if a != {} {
      var x :| x in a;
      SubsetSize(a - {x}, b - {x});
    }
  }
}
