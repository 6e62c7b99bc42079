/** Masks and shifts of a byte as arithmetic. */
module Bits {
  lemma Shr1(b: bv8)
    ensures (b >> 1) as int == b as int / 2
  {
  }

  lemma Shr2(b: bv8)
    ensures (b >> 2) as int == b as int / 4
  {
  }

  lemma Shr3(b: bv8)
    ensures (b >> 3) as int == b as int / 8
  {
  }

  lemma Shr4(b: bv8)
    ensures (b >> 4) as int == b as int / 16
  {
  }

  lemma Shr5(b: bv8)
    ensures (b >> 5) as int == b as int / 32
  {
  }

  lemma Shr6(b: bv8)
    ensures (b >> 6) as int == b as int / 64
  {
  }

  lemma Shr7(b: bv8)
    ensures (b >> 7) as int == b as int / 128
  {
  }

  lemma Low1(b: bv8)
    ensures (b & 0x01) as int == b as int % 2
  {
  }

  lemma Low2(b: bv8)
    ensures (b & 0x03) as int == b as int % 4
  {
  }

  lemma Low4(b: bv8)
    ensures (b & 0x0f) as int == b as int % 16
  {
  }

  lemma Shl1(b: bv8)
    requires b < 128
    ensures (b << 1) as int == b as int * 2
  {
  }

  lemma Shl3(b: bv8)
    requires b < 32
    ensures (b << 3) as int == b as int * 8
  {
  }

  lemma Shl4(b: bv8)
    requires b < 16
    ensures (b << 4) as int == b as int * 16
  {
  }

  lemma OrIsSum(a: bv8, b: bv8)
    requires a & b == 0
    ensures (a | b) as int == a as int + b as int
  {
  }
}
