/** What the bits of an encoded scalar are: two's complement, the low byte first, the high bit of every byte first, and the
    last, incomplete byte with the bits that are left. */
module ScalarWire {
  import opened Arith
  import opened Bits
  import opened Convert
  import opened Scalar

  lemma HighMasks(b: byte)
    ensures (b & 0x80 != 0) <==> b as nat / 128 % 2 == 1
    ensures (b & 0x40 != 0) <==> b as nat / 64 % 2 == 1
    ensures (b & 0x20 != 0) <==> b as nat / 32 % 2 == 1
    ensures (b & 0x10 != 0) <==> b as nat / 16 % 2 == 1
  {
  }

  lemma Mask8(b: byte)
    ensures (b & 8 != 0) <==> b as nat / 8 % 2 == 1
  {
  }

  lemma Mask4(b: byte)
    ensures (b & 4 != 0) <==> b as nat / 4 % 2 == 1
  {
  }

  lemma Mask2(b: byte)
    ensures (b & 2 != 0) <==> b as nat / 2 % 2 == 1
  {
  }

  lemma Mask1(b: byte)
    ensures (b & 1 != 0) <==> b as nat / 1 % 2 == 1
  {
  }

  /** Bit k of a byte as a number. */
  lemma {:induction false} ByteBit(b: byte, k: nat)
    requires k < 8
    ensures Bit(b, k) <==> b as nat / Pow2(7 - k) % 2 == 1
  {
    Pow2Values();
    BitMasks(b);
    HighMasks(b);
    Mask8(b);
    Mask4(b);
    Mask2(b);
    Mask1(b);
  }

  /** Byte q of a little-endian number. */
  lemma {:induction false} LittleEndianAt(n: nat, k: nat, q: nat)
    requires q < k
    ensures LittleEndian(n, k)[q] as nat == n / Pow2(8 * q) % 256
    decreases k
  {
    if q == 0 {
      ByteOfNat(n % 256);
    } else {
      LittleEndianAt(n / 256, k - 1, q - 1);
      Pow2Values();
      Pow2Add(8, 8 * (q - 1));
      SplitModulo(n, Pow2(8 * (q - 1)));
    }
  }

  lemma EvenApart(x: int, v: int)
    ensures (2 * x + v) % 2 == v % 2
  {
  }

  lemma {:induction false} QuotientParity(t: int, u: nat, p: nat, h: nat)
    requires p > 0
    ensures (p * (2 * h * t) + u) / p % 2 == u / p % 2
  {
    var v := u / p;
    assert u == p * v + u % p;
    Distribute(p, 2 * h * t, -v);
    DivModUnique(p * (2 * h * t) + u, p, 2 * h * t + v, u % p);
    MulAssociate(2, h, t);
    EvenApart(h * t, v);
  }

  /** The low bits of a number do not depend on the others. */
  lemma {:induction false} LowBit(n: int, bits: nat, j: nat)
    requires j < bits
    ensures n % Pow2(bits) / Pow2(j) % 2 == n / Pow2(j) % 2
  {
    var p, h, t, u := Pow2(j), Pow2(bits - j - 1), n / Pow2(bits), n % Pow2(bits);
    Pow2Add(j, bits - j);
    assert Pow2(bits - j) == 2 * h;
    assert n == (p * (2 * h)) * t + u;
    MulAssociate(p, 2 * h, t);
    QuotientParity(t, u, p, h);
  }

  lemma {:induction false} HalvesOf(m: nat, c: nat)
    requires c < 8
    ensures m % 256 / Pow2(c) % 2 == m / Pow2(c) % 2
  {
    Pow2Values();
    LowBit(m, 8, c);
  }

  lemma {:induction false} DivTwice(n: nat, a: nat, b: nat)
    requires a > 0 && b > 0
    ensures a * b > 0 && n / (a * b) == n / a / b
  {
    MulAtLeast(a, b);
    var m := n / a;
    MulAssociate(a, b, m / b);
    Distribute(a, m, m % b);
    assert n == a * m + n % a && m == b * (m / b) + m % b;
    MulLess(a, m % b, b);
    DivModUnique(n, a * b, m / b, a * (m % b) + n % a);
  }

  lemma MulLess(a: nat, x: nat, b: nat)
    requires x < b && a > 0
    ensures a * x + a <= a * b
  {
    Distribute(a, b, x);
    MulAtLeast(a, b - x);
  }

  lemma {:induction false} DivBy(n: nat, a: nat, b: nat, w: nat)
    requires a > 0 && b > 0 && w == a * b > 0
    ensures n / w == n / a / b
  {
    DivTwice(n, a, b);
  }

  /** Division by powers of two, one after the other. */
  lemma {:induction false} DivPowers(n: nat, a: nat, c: nat)
    ensures n / Pow2(a + c) == n / Pow2(a) / Pow2(c)
  {
    Pow2Add(a, c);
    DivBy(n, Pow2(a), Pow2(c), Pow2(a + c));
  }

  lemma NotNegative(n: nat, d: nat)
    requires d > 0
    ensures n / d >= 0
  {
  }

  lemma {:induction false} QuotientBit(n: nat, a: nat, c: nat)
    requires c < 8
    ensures n / Pow2(a) % 256 / Pow2(c) % 2 == n / Pow2(a + c) % 2
  {
    NotNegative(n, Pow2(a));
    DivPowers(n, a, c);
    HalvesOf(n / Pow2(a), c);
  }

  /** Bit k of byte q of a little-endian number, counted from the high end. */
  lemma {:induction false} NumberBit(n: nat, std: nat, q: nat, k: nat)
    requires q < std && k < 8
    ensures Bit(LittleEndian(n, std)[q], k) <==> n / Pow2(8 * q + (7 - k)) % 2 == 1
  {
    ByteBit(LittleEndian(n, std)[q], k);
    LittleEndianAt(n, std, q);
    QuotientBit(n, 8 * q, 7 - k);
  }

  /** A byte moved up by m bits. */
  function MovedUp(b: byte, m: nat): byte
    decreases m
  {
    if m == 0 then b else MovedUp(b << 1, m - 1)
  }

  lemma {:induction false} MovedBit(b: byte, m: nat, k: nat)
    requires k + m < 8
    ensures Bit(MovedUp(b, m), k) == Bit(b, k + m)
    decreases m
  {
    if m > 0 {
      MovedBit(b << 1, m - 1, k);
    }
  }

  lemma ShiftsUp(b: byte)
    ensures (b << 1) << 1 == b << 2 && ((b << 1) << 1) << 1 == b << 3 && (((b << 1) << 1) << 1) << 1 == b << 4
  {
  }

  lemma MoreShiftsUp(b: byte)
    ensures ((b << 4) << 1) == b << 5 && (b << 5) << 1 == b << 6 && (b << 6) << 1 == b << 7
  {
  }

  lemma {:induction false} MovedLast(b: byte, m: nat)
    ensures MovedUp(b, m + 1) == MovedUp(b, m) << 1
    decreases m
  {
    if m > 0 {
      MovedLast(b << 1, m - 1);
    }
  }

  lemma {:induction false} MovedIsShift(b: byte)
    ensures MovedUp(b, 1) == b << 1 && MovedUp(b, 2) == b << 2 && MovedUp(b, 3) == b << 3 && MovedUp(b, 4) == b << 4
    ensures MovedUp(b, 5) == b << 5 && MovedUp(b, 6) == b << 6 && MovedUp(b, 7) == b << 7
  {
    ShiftsUp(b);
    MoreShiftsUp(b);
    MovedLast(b, 0);
    MovedLast(b, 1);
    MovedLast(b, 2);
    MovedLast(b, 3);
    MovedLast(b, 4);
    MovedLast(b, 5);
    MovedLast(b, 6);
  }

  lemma {:induction false} ShiftIsMoved(b: byte, r: nat)
    requires 1 <= r <= 7
    ensures ShiftLeft(b, r) == MovedUp(b, 8 - r)
  {
    MovedIsShift(b);
    assert r == 1 || r == 2 || r == 3 || r == 4 || r == 5 || r == 6 || r == 7;
  }

  /** The bits of the low r bits of a byte, moved to its top. */
  lemma {:induction false} PartialBit(n: nat, std: nat, q: nat, r: nat, k: nat)
    requires q < std && k < r <= 7
    ensures Bit(ShiftLeft(LittleEndian(n, std)[q], r), k) <==> n / Pow2(8 * q + (r - 1 - k)) % 2 == 1
  {
    var b := LittleEndian(n, std)[q];
    ShiftIsMoved(b, r);
    MovedBit(b, 8 - r, k);
    NumberBit(n, std, q, k + 8 - r);
  }

  /** Bit j of a number. */
  predicate HasBit(n: int, j: nat)
    decreases j
  {
    if j == 0 then n % 2 == 1 else HasBit(n / 2, j - 1)
  }

  lemma {:induction false} HasBitIs(n: nat, j: nat)
    ensures HasBit(n, j) <==> n / Pow2(j) % 2 == 1
    decreases j
  {
    if j > 0 {
      HasBitIs(n / 2, j - 1);
      DivBy(n, 2, Pow2(j - 1), Pow2(j));
    }
  }

  /** Where bit i of the wire comes from: byte q is complete, or has the bits that are left. */
  function BitNumber(bitLength: nat, i: nat): nat
    requires i < bitLength
  {
    var q := i / 8;
    if 8 * q + 8 <= bitLength then 8 * q + 7 - i % 8 else bitLength - 1 - i % 8
  }

  lemma {:induction false} StoredAt(bitLength: nat, value: int, q: nat)
    requires 1 <= bitLength <= 64 && 8 * q < bitLength
    ensures q < StdBytes(bitLength)
    ensures Stored(bitLength, value)[q] == LittleEndian(Pattern(bitLength, value), StdBytes(bitLength))[q]
  {
  }

  lemma {:induction false} WireAt(bitLength: nat, value: int, q: nat)
    requires 1 <= bitLength <= 64 && 8 * q < bitLength
    ensures var b := Stored(bitLength, value)[q];
            Wire(bitLength, value)[q] == if 8 * q + 8 <= bitLength then b else ShiftLeft(b, bitLength % 8)
  {
  }

  lemma {:induction false} BitNumberIs(bitLength: nat, i: nat, q: nat, k: nat)
    requires i < bitLength && i == 8 * q + k && k < 8
    ensures 8 * q < bitLength
    ensures 8 * q + 8 <= bitLength ==> BitNumber(bitLength, i) == 8 * q + (7 - k)
    ensures 8 * q + 8 > bitLength ==> k < bitLength % 8 && BitNumber(bitLength, i) == 8 * q + (bitLength % 8 - 1 - k)
  {
  }

  lemma {:induction false} FullPattern(bitLength: nat, value: int, q: nat, k: nat)
    requires 1 <= bitLength <= 64 && 8 * q + 8 <= bitLength && k < 8
    ensures Bit(Wire(bitLength, value)[q], k) <==> HasBit(Pattern(bitLength, value), 8 * q + (7 - k))
  {
    StoredAt(bitLength, value, q);
    WireAt(bitLength, value, q);
    NumberBit(Pattern(bitLength, value), StdBytes(bitLength), q, k);
    HasBitIs(Pattern(bitLength, value), 8 * q + (7 - k));
  }

  lemma {:induction false} LastPattern(bitLength: nat, value: int, q: nat, r: nat, k: nat)
    requires 1 <= bitLength <= 64 && 8 * q < bitLength < 8 * q + 8 && r == bitLength % 8 && k < r
    ensures Bit(Wire(bitLength, value)[q], k) <==> HasBit(Pattern(bitLength, value), 8 * q + (r - 1 - k))
  {
    StoredAt(bitLength, value, q);
    WireAt(bitLength, value, q);
    PartialBit(Pattern(bitLength, value), StdBytes(bitLength), q, r, k);
    HasBitIs(Pattern(bitLength, value), 8 * q + (r - 1 - k));
  }

  lemma {:induction false} BitOfByte(w: seq<byte>, i: nat, q: nat, k: nat)
    requires i < 8 * |w| && i == 8 * q + k && k < 8
    ensures BitOf(w, i) == Bit(w[q], k)
  {
  }

  /** The bit of a byte, at its place in the number. */
  lemma {:induction false} Placed(w: seq<byte>, n: int, bitLength: nat, i: nat, q: nat, k: nat)
    requires i < bitLength && i == 8 * q + k && k < 8 && q < |w|
    requires 8 * q + 8 <= bitLength ==> (Bit(w[q], k) <==> HasBit(n, 8 * q + (7 - k)))
    requires 8 * q + 8 > bitLength ==> k < bitLength % 8 && (Bit(w[q], k) <==> HasBit(n, 8 * q + (bitLength % 8 - 1 - k)))
    ensures BitOf(w, i) <==> HasBit(n, BitNumber(bitLength, i))
  {
    BitNumberIs(bitLength, i, q, k);
    BitOfByte(w, i, q, k);
  }

  lemma {:induction false} WirePattern(bitLength: nat, value: int, i: nat)
    requires 1 <= bitLength <= 64 && i < bitLength
    ensures BitOf(Wire(bitLength, value), i) <==> HasBit(Pattern(bitLength, value), BitNumber(bitLength, i))
  {
    var q, k := i / 8, i % 8;
    BitNumberIs(bitLength, i, q, k);
    if 8 * q + 8 <= bitLength {
      FullPattern(bitLength, value, q, k);
    } else {
      LastPattern(bitLength, value, q, bitLength % 8, k);
    }
    Placed(Wire(bitLength, value), Pattern(bitLength, value), bitLength, i, q, k);
  }

  /** Every bit of an encoded number is a bit of its two's complement: bit i of the wire is bit BitNumber(i) of the value. */
  lemma {:induction false} WireBit(bitLength: nat, value: int, i: nat)
    requires 2 <= bitLength <= 64 && i < bitLength
    ensures BitOf(Wire(bitLength, value), i) <==> value / Pow2(BitNumber(bitLength, i)) % 2 == 1
  {
    var n, j := Pattern(bitLength, value), BitNumber(bitLength, i);
    WirePattern(bitLength, value, i);
    HasBitIs(n, j);
    PatternLowBits(bitLength, value);
    LowBit(n, bitLength, j);
    LowBit(value, bitLength, j);
  }

  /** A single bit says whether the value is not zero. */
  lemma {:induction false} WireOfBool(value: int)
    ensures BitOf(Wire(1, value), 0) <==> value != 0
  {
    WirePattern(1, value, 0);
  }
}
