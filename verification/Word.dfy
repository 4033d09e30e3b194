/** 64-bit words as naturals: the bitwise operations of the source, and what they compute on prefixes. */
module Word {

  function Pow2(n: nat): (r: nat)
    ensures r > 0
  {
    if n == 0 then 1 else 2 * Pow2(n - 1)
  }

  const WORD_SIZE: nat := 0x1_0000_0000_0000_0000

  lemma WordSize()
    ensures WORD_SIZE == Pow2(64)
  {
    assert Pow2(4) == 2 * Pow2(3) == 2 * (2 * (2 * Pow2(1))) == 16;
    Pow2Add(4, 4);
    Pow2Add(8, 8);
    Pow2Add(16, 16);
    Pow2Add(32, 32);
  }

  predicate IsWord(x: nat) {
    x < WORD_SIZE
  }

  type Word = x: nat | IsWord(x)

  type Byte = b: nat | b < 256
  type Bytes = seq<Byte>

  /** Bitwise `a & b`, one bit at a time from the low end. */
  function And(a: nat, b: nat): nat
    decreases a
  {
    if a == 0 || b == 0 then 0 else 2 * And(a / 2, b / 2) + (if a % 2 == 1 && b % 2 == 1 then 1 else 0)
  }

  /** Bitwise `a | b`. */
  function Or(a: nat, b: nat): nat
    decreases a + b
  {
    if a == 0 then b
    else if b == 0 then a
    else 2 * Or(a / 2, b / 2) + (if a % 2 == 1 || b % 2 == 1 then 1 else 0)
  }

  /** `~a` on 64 bits. */
  function Not(a: nat): nat
    requires IsWord(a)
  {
    WORD_SIZE - 1 - a
  }

  /** `a << k` on 64 bits: the bits pushed out of the word are lost. */
  function ShiftLeft(a: nat, k: nat): nat {
    (a * Pow2(k)) % WORD_SIZE
  }

  lemma {:induction false} Pow2Add(m: nat, n: nat)
    ensures Pow2(m + n) == Pow2(m) * Pow2(n)
  {
    if m == 0 {
    } else {
      Pow2Add(m - 1, n);
      MulAssoc(2, Pow2(m - 1), Pow2(n));
    }
  }

  lemma {:induction false} Pow2Monotone(m: nat, n: nat)
    requires m <= n
    ensures Pow2(m) <= Pow2(n)
    ensures m < n ==> 2 * Pow2(m) <= Pow2(n)
  {
    if m < n {
      Pow2Monotone(m, n - 1);
    }
  }

  lemma MulAssoc(a: int, b: int, c: int)
    ensures a * (b * c) == (a * b) * c
  {
  }

  /** Euclidean division is determined by any in-range remainder. */
  lemma DivModUnique(x: int, d: int, q: int, r: int)
    requires d > 0 && 0 <= r < d && x == q * d + r
    ensures x / d == q && x % d == r
  {
    var q', r' := x / d, x % d;
    assert (q - q') * d == r' - r;
    assert (q' - q) * d == r - r';
    if q > q' {
      MulAtLeast(q - q', d);
    } else if q < q' {
      MulAtLeast(q' - q, d);
    }
  }

  lemma SmallMod(x: nat, d: nat)
    requires x < d
    ensures x % d == x
  {
    DivModUnique(x, d, 0, x);
  }

  lemma MulAtLeast(a: int, d: int)
    requires a >= 1 && d > 0
    ensures a * d >= d
  {
    assert a * d == (a - 1) * d + d;
    if a > 1 { MulAtLeast(a - 1, d); }
  }

  /** Clearing the low k bits of x, written on numbers. */
  function ClearLow(x: nat, k: nat): nat {
    ModAtMost(x, Pow2(k));
    x - x % Pow2(k)
  }

  lemma ModAtMost(x: nat, d: nat)
    requires d > 0
    ensures 0 <= x % d <= x
  {
    if x < d { DivModUnique(x, d, 0, x); }
  }

  lemma ClearLowMultiple(x: nat, k: nat)
    ensures ClearLow(x, k) % Pow2(k) == 0
  {
    DivModUnique(ClearLow(x, k), Pow2(k), x / Pow2(k), 0);
  }

  // ----- And with a mask, bit by bit

  /** n ones. */
  function Ones(n: nat): nat {
    if n == 0 then 0 else 2 * Ones(n - 1) + 1
  }

  /** n - k ones followed by k zeros. */
  function HighOnes(k: nat, n: nat): nat
    requires k <= n
  {
    if k == 0 then Ones(n) else 2 * HighOnes(k - 1, n - 1)
  }

  /** x without its low k bits. */
  function Rounded(x: nat, k: nat): nat {
    if k == 0 then x else 2 * Rounded(x / 2, k - 1)
  }

  lemma {:induction false} OnesIs(n: nat)
    ensures Ones(n) + 1 == Pow2(n)
  {
    if n > 0 { OnesIs(n - 1); }
  }

  lemma {:induction false} HighOnesIs(k: nat, n: nat)
    requires k <= n
    ensures HighOnes(k, n) + Pow2(k) == Pow2(n)
  {
    if k == 0 { OnesIs(n); } else { HighOnesIs(k - 1, n - 1); }
  }

  lemma {:induction false} RoundedIs(x: nat, k: nat)
    ensures Rounded(x, k) == ClearLow(x, k)
  {
    if k == 0 {
      DivModUnique(x, 1, x, 0);
    } else {
      RoundedIs(x / 2, k - 1);
      ClearLowHalves(x, k);
    }
  }

  lemma {:induction false} AndOnes(x: nat, n: nat)
    requires x < Pow2(n)
    ensures And(x, Ones(n)) == x
  {
    if n > 0 {
      AndOnes(x / 2, n - 1);
      AndOdd(x, Ones(n - 1));
    }
  }

  lemma {:induction false} AndHighOnes(x: nat, k: nat, n: nat)
    requires k <= n && x < Pow2(n)
    ensures And(x, HighOnes(k, n)) == Rounded(x, k)
  {
    if k == 0 {
      AndOnes(x, n);
    } else {
      AndHighOnes(x / 2, k - 1, n - 1);
      AndDoubled(x, HighOnes(k - 1, n - 1));
    }
  }

  /** And with the complement of the low k bits clears exactly those bits. */
  lemma AndHighMask(x: nat, k: nat, n: nat)
    requires k <= n && x < Pow2(n)
    requires Pow2(k) <= Pow2(n)
    ensures And(x, Pow2(n) - Pow2(k)) == ClearLow(x, k)
  {
    HighOnesIs(k, n);
    AndHighOnes(x, k, n);
    RoundedIs(x, k);
  }

  lemma AndDoubled(x: nat, b: nat)
    ensures And(x, 2 * b) == 2 * And(x / 2, b)
  {
    assert (2 * b) / 2 == b && (2 * b) % 2 == 0;
  }

  lemma AndOdd(x: nat, b: nat)
    ensures And(x, 2 * b + 1) == 2 * And(x / 2, b) + x % 2
  {
    assert (2 * b + 1) / 2 == b && (2 * b + 1) % 2 == 1;
  }

  lemma ModHalves(x: nat, k: nat)
    requires k > 0
    ensures x % Pow2(k) == 2 * ((x / 2) % Pow2(k - 1)) + x % 2
  {
    var h := x / 2;
    var q, r := h / Pow2(k - 1), h % Pow2(k - 1);
    assert h == q * Pow2(k - 1) + r;
    assert x == q * Pow2(k) + (2 * r + x % 2);
    DivModUnique(x, Pow2(k), q, 2 * r + x % 2);
  }

  lemma ClearLowHalves(x: nat, k: nat)
    requires k > 0
    ensures ClearLow(x, k) == 2 * ClearLow(x / 2, k - 1)
  {
    ModHalves(x, k);
  }

  /** Or of two words with no bit in common is their sum; here the split is at bit k. */
  lemma {:induction false} OrDisjoint(a: nat, b: nat, k: nat)
    requires a % Pow2(k) == 0 && b < Pow2(k)
    ensures Or(a, b) == a + b
    decreases k, a
  {
    if a == 0 || b == 0 {
    } else {
      assert k > 0;
      ModHalves(a, k);
      assert a % 2 == 0 && (a / 2) % Pow2(k - 1) == 0;
      OrDisjoint(a / 2, b / 2, k - 1);
    }
  }
}
