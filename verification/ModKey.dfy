/** The byte string the module table is keyed by, and when it tells two entries apart. */
module ModKey {
  import opened Word

  const NUL: Byte := 0
  /** A terminator, sixteen digits of id and two of width. */
  const SUFFIX_LEN: nat := 19

  /** A lower-case hexadecimal digit. */
  function Digit(d: nat): (b: Byte)
    requires d < 16
    ensures b != NUL
  {
    if d < 10 then 48 + d else 87 + d
  }

  lemma DigitsDiffer(d: nat, e: nat)
    requires d < 16 && e < 16 && Digit(d) == Digit(e)
    ensures d == e
  {
  }

  /** The last n hexadecimal digits of x, most significant first. */
  function Hex(x: nat, n: nat): (s: Bytes)
    ensures |s| == n
  {
    if n == 0 then [] else Hex(x / 16, n - 1) + [Digit(x % 16)]
  }

  ghost function Pow16(n: nat): nat {
    if n == 0 then 1 else 16 * Pow16(n - 1)
  }

  /** With room for both numbers, equal digits mean equal numbers. */
  lemma {:induction false} HexDiffers(x: nat, y: nat, n: nat)
    requires x < Pow16(n) && y < Pow16(n)
    ensures Hex(x, n) == Hex(y, n) <==> x == y
  {
    if n > 0 {
      HexDiffers(x / 16, y / 16, n - 1);
      if Hex(x, n) == Hex(y, n) {
        assert Hex(x, n)[..n - 1] == Hex(x / 16, n - 1) && Hex(y, n)[..n - 1] == Hex(y / 16, n - 1);
        assert Hex(x, n)[n - 1] == Digit(x % 16) && Hex(y, n)[n - 1] == Digit(y % 16);
        DigitsDiffer(x % 16, y % 16);
      }
    }
  }

  /** What the format string spells out, in full. */
  function Text(path: Bytes, id: nat, plen: nat): (s: Bytes)
    ensures |s| == |path| + SUFFIX_LEN
  {
    path + [NUL] + Hex(id, 16) + Hex(plen, 2)
  }

  /** Bounded formatting: at most one byte less than the room, then a terminator. */
  function Formatted(text: Bytes, room: nat): Bytes
    requires room > 0
  {
    (if |text| < room then text else text[..room - 1]) + [NUL]
  }

  /** `mod_key`, given as much room as the text is long. */
  function Key(path: Bytes, id: nat, plen: nat): Bytes {
    Formatted(Text(path, id, plen), |path| + SUFFIX_LEN)
  }

  /** The terminator of the text takes the place of the last width digit. */
  lemma KeyShape(path: Bytes, id: nat, plen: nat)
    requires plen <= 64
    ensures Key(path, id, plen) == path + [NUL] + Hex(id, 16) + Hex(plen / 16, 1) + [NUL]
  {
    var text := Text(path, id, plen);
    assert Hex(plen, 2) == Hex(plen / 16, 1) + [Digit(plen % 16)];
    assert text == path + [NUL] + Hex(id, 16) + Hex(plen / 16, 1) + [Digit(plen % 16)];
  }

  lemma FirstNul(p: Bytes, s: Bytes)
    requires NUL !in p
    ensures (p + [NUL] + s)[|p|] == NUL && forall i :: 0 <= i < |p| ==> (p + [NUL] + s)[i] != NUL
  {
    forall i | 0 <= i < |p| ensures (p + [NUL] + s)[i] != NUL {
      assert p[i] in p;
    }
  }

  lemma SamePath(p: Bytes, q: Bytes, s: Bytes, t: Bytes)
    requires NUL !in p && NUL !in q && p + [NUL] + s == q + [NUL] + t
    ensures p == q && s == t
  {
    var u, v := p + [NUL] + s, q + [NUL] + t;
    FirstNul(p, s);
    FirstNul(q, t);
    assert |p| == |q|;
    assert p == u[..|p|] && q == v[..|q|] && s == u[|p| + 1..] && t == v[|q| + 1..];
  }

  /** Two modules share a key exactly when path and id agree and the widths lie in the same block of sixteen. */
  lemma KeysEqualIff(p: Bytes, id: nat, plen: nat, q: Bytes, id': nat, plen': nat)
    requires NUL !in p && NUL !in q && IsWord(id) && IsWord(id') && plen <= 64 && plen' <= 64
    ensures Key(p, id, plen) == Key(q, id', plen') <==> p == q && id == id' && plen / 16 == plen' / 16
  {
    KeyShape(p, id, plen);
    KeyShape(q, id', plen');
    WordDigits(id);
    WordDigits(id');
    assert Pow16(1) == 16;
    HexDiffers(id, id', 16);
    HexDiffers(plen / 16, plen' / 16, 1);
    if Key(p, id, plen) == Key(q, id', plen') {
      var s, t := Hex(id, 16) + Hex(plen / 16, 1) + [NUL], Hex(id', 16) + Hex(plen' / 16, 1) + [NUL];
      assert Key(p, id, plen) == p + [NUL] + s && Key(q, id', plen') == q + [NUL] + t;
      SamePath(p, q, s, t);
      assert s[..16] == Hex(id, 16) && t[..16] == Hex(id', 16);
      assert s[16..17] == Hex(plen / 16, 1) && t[16..17] == Hex(plen' / 16, 1);
    }
  }

  /** The root's left half at widths 16 and 17: one id, two regions, one key for any module loaded into both. */
  lemma LeftHalfCollides(path: Bytes)
    requires NUL !in path
    ensures Key(path, 0, 16) == Key(path, 0, 17)
  {
    KeysEqualIff(path, 0, 16, path, 0, 17);
  }

  lemma WordDigits(id: nat)
    requires IsWord(id)
    ensures id < Pow16(16)
  {
    WordSize();
    assert Pow16(4) == 0x1_0000 by { assert Pow16(2) == 256; }
    assert Pow16(8) == 0x1_0000_0000 by { assert Pow16(6) == 0x100_0000; }
    assert Pow16(12) == 0x1_0000_0000_0000 by { assert Pow16(10) == 0x100_0000_0000; }
    assert Pow16(14) == 0x100_0000_0000_0000;
  }
}
