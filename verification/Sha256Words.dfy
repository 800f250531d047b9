/** The functions on 32-bit words of section 4.1.2 of FIPS 180-4, and the source's forms of them. */
module Sha256Words {
  import opened Bits

  // Section 4.1.2.

  function Ch(x: bv32, y: bv32, z: bv32): bv32 { (x & y) ^ (!x & z) }

  function Maj(x: bv32, y: bv32, z: bv32): bv32 { (x & y) ^ (x & z) ^ (y & z) }

  /** Ch takes the bits of y where x is one, and those of z where it is zero. */
  lemma ChTakesY(x: bv32, y: bv32, z: bv32)
    ensures Ch(x, y, z) & x == x & y
  {
  }

  lemma ChTakesZ(x: bv32, y: bv32, z: bv32)
    ensures Ch(x, y, z) & !x == !x & z
  {
  }

  /** Maj is one where two of the three are. */
  lemma MajCounts(x: bv32, y: bv32, z: bv32)
    ensures Maj(x, y, z) == (x & y) | (x & z) | (y & z)
  {
  }

  function BigSigma0(x: bv32): bv32 { x.RotateRight(2) ^ x.RotateRight(13) ^ x.RotateRight(22) }

  function BigSigma1(x: bv32): bv32 { x.RotateRight(6) ^ x.RotateRight(11) ^ x.RotateRight(25) }

  function SmallSigma0(x: bv32): bv32 { x.RotateRight(7) ^ x.RotateRight(18) ^ (x >> 3) }

  function SmallSigma1(x: bv32): bv32 { x.RotateRight(17) ^ x.RotateRight(19) ^ (x >> 10) }

  function Plus(x: bv32, y: bv32): bv32 { x + y }

  /** Four bytes as a word, the first one highest. */
  function Word(b0: byte, b1: byte, b2: byte, b3: byte): bv32 {
    ((b0 as bv32) << 24) | ((b1 as bv32) << 16) | ((b2 as bv32) << 8) | (b3 as bv32)
  }

  /** Byte i of a word, the highest one first. */
  function ByteOf(w: bv32, i: nat): byte
    requires i < 4
    decreases 4 - i, w
  {
    if i == 3 then (w & 0xFF) as byte else ByteOf(w >> 8, i + 1)
  }

  lemma {:induction false} WordOfBytes(w: bv32)
    ensures Word(ByteOf(w, 0), ByteOf(w, 1), ByteOf(w, 2), ByteOf(w, 3)) == w
  {
    assert ByteOf(w, 2) == ByteOf(w >> 8, 3);
    assert ByteOf(w, 1) == ByteOf(w >> 8, 2) == ByteOf(w >> 8 >> 8, 3);
    assert ByteOf(w, 0) == ByteOf(w >> 8, 1) == ByteOf(w >> 8 >> 8, 2) == ByteOf(w >> 8 >> 8 >> 8, 3);
  }

  function Ep0(x: bv32): (r: bv32)
    ensures r == BigSigma0(x)
  {
    ((x >> 2) | (x << 30)) ^ ((x >> 13) | (x << 19)) ^ ((x >> 22) | (x << 10))
  }

  function Ep1(x: bv32): (r: bv32)
    ensures r == BigSigma1(x)
  {
    ((x >> 6) | (x << 26)) ^ ((x >> 11) | (x << 21)) ^ ((x >> 25) | (x << 7))
  }

  function Sig0(x: bv32): (r: bv32)
    ensures r == SmallSigma0(x)
  {
    ((x >> 7) | (x << 25)) ^ ((x >> 18) | (x << 14)) ^ (x >> 3)
  }

  function Sig1(x: bv32): (r: bv32)
    ensures r == SmallSigma1(x)
  {
    ((x >> 17) | (x << 15)) ^ ((x >> 19) | (x << 13)) ^ (x >> 10)
  }
}
