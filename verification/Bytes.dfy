/** Machine bytes and words, and the additive checksum both frame layers use. */
module Bytes {

  type Byte = x: int | 0 <= x < 0x100
  type Word = x: int | 0 <= x < 0x1_0000
  type Word32 = x: int | 0 <= x < 0x1_0000_0000

  datatype Option<+T> = None | Some(value: T)

  /** The unbounded sum of a byte string; both checksums are this sum modulo 256. */
  function Sum(s: seq<Byte>): nat {
    if s == [] then 0 else Sum(s[..|s| - 1]) + s[|s| - 1]
  }

  lemma {:induction false} SumConcat(a: seq<Byte>, b: seq<Byte>)
    ensures Sum(a + b) == Sum(a) + Sum(b)
  {
    if b == [] {
      assert a + b == a;
    } else {
      assert (a + b)[..|a + b| - 1] == a + b[..|b| - 1];
      SumConcat(a, b[..|b| - 1]);
    }
  }

  /** Replacing one byte moves the sum by exactly the difference of the two bytes. */
  lemma {:induction false} SumUpdate(s: seq<Byte>, i: nat, b: Byte)
    requires i < |s|
    ensures Sum(s[i := b]) == Sum(s) - s[i] + b
  {
    if i == |s| - 1 {
      assert s[i := b][..|s| - 1] == s[..|s| - 1];
    } else {
      assert s[i := b][..|s| - 1] == s[..|s| - 1][i := b];
      SumUpdate(s[..|s| - 1], i, b);
    }
  }

  function Le16(lo: Byte, hi: Byte): Word {
    lo + hi * 0x100
  }

  lemma Le16Bytes(lo: Byte, hi: Byte)
    ensures Lo(Le16(lo, hi)) == lo && Hi(Le16(lo, hi)) == hi
  {
  }

  lemma Le16OfBytes(w: Word)
    ensures Le16(Lo(w), Hi(w)) == w
  {
  }

  function Be16(hi: Byte, lo: Byte): Word {
    hi * 0x100 + lo
  }

  function Be32(b3: Byte, b2: Byte, b1: Byte, b0: Byte): Word32 {
    b3 * 0x100_0000 + b2 * 0x1_0000 + b1 * 0x100 + b0
  }

  function Lo(w: Word): Byte { w % 0x100 }

  function Hi(w: Word): Byte { w / 0x100 }
}
