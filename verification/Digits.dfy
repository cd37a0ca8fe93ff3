// Frame numbers in binary: a directory index and a table index of ten bits each, each of
// them two digits of five bits.
module Digits {

  lemma Digit(f: int)
    requires 0 <= f < 32
    ensures (f as bv5) as int == f
  {}

  // A ten-bit number and its digits.
  function Ten(f: int): bv10
    requires 0 <= f < 1024
  {
    (((f / 32) as bv5) as bv10 << 5) | (((f % 32) as bv5) as bv10)
  }

  lemma TenSplit(h: bv10)
    ensures h as int == ((h >> 5) as bv5) as int * 32 + ((h & 0x1F) as bv5) as int
  {}

  lemma TenJoined(a: bv5, b: bv5)
    ensures ((((a as bv10) << 5) | (b as bv10)) >> 5) as bv5 == a
    ensures ((((a as bv10) << 5) | (b as bv10)) & 0x1F) as bv5 == b
  {}

  lemma TenComposed(a: bv5, b: bv5)
    ensures (((a as bv10) << 5) | (b as bv10)) as int == a as int * 32 + b as int
  {
    TenJoined(a, b);
    TenSplit(((a as bv10) << 5) | (b as bv10));
  }

  lemma TenIs(f: int)
    requires 0 <= f < 1024
    ensures Ten(f) as int == f
  {
    Digit(f / 32);
    Digit(f % 32);
    TenComposed((f / 32) as bv5, (f % 32) as bv5);
  }

  lemma HighHalf(h: bv10, l: bv10)
    ensures ((((h as bv32) << 22) | ((l as bv32) << 12)) >> 22) as bv10 == h
  {}

  lemma LowHalf(h: bv10, l: bv10)
    ensures (((((h as bv32) << 22) | ((l as bv32) << 12)) >> 12) & 0x3FF) as bv10 == l
  {}

  lemma FrameHalves(w: bv32)
    ensures (w >> 12) as int == ((w >> 22) as bv10) as int * 1024 + (((w >> 12) & 0x3FF) as bv10) as int
  {}

  // The word put together from the two indices.
  lemma Composed(h: bv10, l: bv10)
    ensures ((((h as bv32) << 22) | ((l as bv32) << 12)) >> 12) as int == h as int * 1024 + l as int
  {
    HighHalf(h, l);
    LowHalf(h, l);
    FrameHalves(((h as bv32) << 22) | ((l as bv32) << 12));
  }
}
