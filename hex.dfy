/** byteArrToStr: a byte array as lowercase hexadecimal, two digits a byte, high nibble first. */
module Hex {

  /** Java's signed `byte`. */
  newtype int8 = x: int | -0x80 <= x < 0x80

  /** HEX_DIGITS */
  const HexDigits: string := "0123456789abcdef"

  /**
   * The byte's two's-complement bit pattern. byteArrToStr widens the byte to a
   * sign-extended int before masking; `0xF0 &` and `0xF &` only keep bits
   * within the low eight, which are this pattern's.
   */
  function Unsigned(b: int8): (u: nat)
    ensures u < 0x100 && (u - b as int) % 0x100 == 0
  {
    if b < 0 then b as int + 0x100 else b as int
  }

  /** `(0xF0 & b) >>> 4` */
  function HighNibble(b: int8): (n: nat)
    ensures n < 16
  {
    Unsigned(b) / 16
  }

  /** `0xF & b` */
  function LowNibble(b: int8): (n: nat)
    ensures n < 16
  {
    Unsigned(b) % 16
  }

  /**
   * On the byte's 8-bit pattern `x`, HighNibble is `(0xF0 & x) >>> 4` and
   * LowNibble is `0xF & x`, the two masks byteArrToStr applies.
   */
  lemma NibblesAreMasks(b: int8, x: bv8)
    requires x as int == Unsigned(b)
    ensures HighNibble(b) == ((x & 0xF0) >> 4) as int
    ensures LowNibble(b) == (x & 0xF) as int
  {
    HighMask(x);
    LowMask(x);
  }

  lemma HighMask(x: bv8)
    ensures ((x & 0xF0) >> 4) as int == x as int / 16
  {
  }

  lemma LowMask(x: bv8)
    ensures (x & 0xF) as int == x as int % 16
  {
  }

  /** The two nibbles together give back the byte's bit pattern. */
  lemma NibblesRebuildByte(b: int8)
    ensures HighNibble(b) * 16 + LowNibble(b) == Unsigned(b)
  {
  }

  predicate IsLowerHexDigit(c: char) {
    '0' <= c <= '9' || 'a' <= c <= 'f'
  }

  /** `s` spells `bytes`: characters 2q and 2q+1 are the digits of byte q's high and low nibble. */
  ghost predicate SpellsHex(s: string, bytes: seq<int8>) {
    && |s| == 2 * |bytes|
    && forall q :: 0 <= q < |bytes| ==>
         s[2 * q] == HexDigits[HighNibble(bytes[q])] && s[2 * q + 1] == HexDigits[LowNibble(bytes[q])]
  }

  /** The digit table is the sixteen lowercase hexadecimal digits, each once. */
  lemma HexDigitsAreDistinctLowerHex()
    ensures |HexDigits| == 16
    ensures forall n :: 0 <= n < 16 ==> IsLowerHexDigit(HexDigits[n])
    ensures forall m, n :: 0 <= m < n < 16 ==> HexDigits[m] != HexDigits[n]
  {
  }

  method ByteArrToStr(bytes: seq<int8>) returns (s: string)
    ensures SpellsHex(s, bytes)
    ensures forall i :: 0 <= i < |s| ==> IsLowerHexDigit(s[i])
  {
    HexDigitsAreDistinctLowerHex();
    s := "";
    var q := 0;
    while q < |bytes|
      invariant 0 <= q <= |bytes|
      invariant SpellsHex(s, bytes[..q])
      invariant forall i :: 0 <= i < |s| ==> IsLowerHexDigit(s[i])
    {
      s := s + [HexDigits[HighNibble(bytes[q])]];
      s := s + [HexDigits[LowNibble(bytes[q])]];
      q := q + 1;
    }
    assert bytes[..q] == bytes;
  }

  /** The spelling is lossless: one string spells at most one byte sequence. */
  lemma SpellsHexInjective(s: string, a: seq<int8>, b: seq<int8>)
    requires SpellsHex(s, a) && SpellsHex(s, b)
    ensures a == b
  {
    HexDigitsAreDistinctLowerHex();
    forall q | 0 <= q < |a| ensures a[q] == b[q] {
      assert HighNibble(a[q]) == HighNibble(b[q]);
      assert LowNibble(a[q]) == LowNibble(b[q]);
    }
  }

  /** The spelling is exact: a byte sequence has one spelling, and the empty one is "". */
  lemma SpellsHexUnique(s: string, t: string, bytes: seq<int8>)
    requires SpellsHex(s, bytes) && SpellsHex(t, bytes)
    ensures s == t
    ensures bytes == [] ==> s == ""
  {
    forall i | 0 <= i < |s| ensures s[i] == t[i] {
      var q := i / 2;
      assert 0 <= q < |bytes|;
      var b := bytes[q];
      if i % 2 == 0 {
        assert i == 2 * q;
        assert s[2 * q] == HexDigits[HighNibble(b)] == t[2 * q];
      } else {
        assert i == 2 * q + 1;
        assert s[2 * q + 1] == HexDigits[LowNibble(b)] == t[2 * q + 1];
      }
    }
  }
}
