/** The one-block example of FIPS 180-4, the message "abc": its padding, the first words of its schedule and its first rounds. */
module Sha256Example {
  import opened Arith
  import opened Bits
  import opened BlockHash
  import opened Sha256Words
  import opened Sha256

  function Abc(): seq<byte> { [0x61, 0x62, 0x63] }

  lemma {:induction false} NoLength(k: nat)
    ensures BigEndian(0, k) == Zeros(k)
    decreases k
  {
    if k > 0 {
      NoLength(k - 1);
      assert BigEndian(0, k) == BigEndian(0, k - 1) + [0];
    }
  }

  lemma {:induction false} LengthOfAbc(n: nat, k: nat)
    requires n == 24 && k > 0
    ensures BigEndian(n, k) == Zeros(k - 1) + [0x18]
  {
    NoLength(k - 1);
    assert n / 256 == 0;
    assert BigEndian(n, k) == BigEndian(0, k - 1) + [0x18];
  }

  lemma {:induction false} FieldOf(length: nat, n: nat)
    requires n == 8 * length < 0x1_0000_0000_0000_0000
    ensures LengthField(length) == BigEndian(n, 8)
  {
    SmallModulo(n, 0x1_0000_0000_0000_0000);
  }

  lemma {:induction false} FieldOfAbc(k: nat)
    requires k == 8
    ensures LengthField(3) == Zeros(k - 1) + [0x18]
  {
    FieldOf(3, 24);
    LengthOfAbc(24, k);
  }

  lemma ZerosOfAbc()
    ensures PadZeros(3) == 52
  {
  }

  lemma {:induction false} PadWith(front: seq<byte>, a: nat, b: nat, last: seq<byte>)
    ensures front + Zeros(a) + (Zeros(b) + last) == front + Zeros(a + b) + last
  {
  }

  lemma {:induction false} PadOf(m: seq<byte>, zeros: nat, field: seq<byte>)
    requires zeros == PadZeros(|m|) && field == LengthField(|m|)
    ensures Pad(m) == m + [0x80] + Zeros(zeros) + field
  {
  }

  /** The message, a one bit, zeros, and 24 for its bits. */
  lemma PaddedAbc()
    ensures Pad(Abc()) == Abc() + [0x80] + Zeros(59) + [0x18]
  {
    ZerosOfAbc();
    FieldOfAbc(8);
    PadOf(Abc(), 52, Zeros(7) + [0x18]);
    PadWith(Abc() + [0x80], 52, 7, [0x18]);
  }

  lemma {:induction false} WordOf(m: Block, t: nat, w: bv32)
    requires t < 16 && w == Word(m[4 * t], m[4 * t + 1], m[4 * t + 2], m[4 * t + 3])
    ensures Schedule(m, t) == w
  {
  }

  lemma WordValues()
    ensures Word(0, 0, 0, 0) == 0 && Word(0x61, 0x62, 0x63, 0x80) == 0x6162_6380 && Word(0, 0, 0, 0x18) == 0x18
  {
  }

  /** The first sixteen words are the block. */
  lemma {:induction false} BlockOfAbc(m: Block)
    requires m == Abc() + [0x80] + Zeros(59) + [0x18]
    ensures Schedule(m, 0) == 0x6162_6380 && Schedule(m, 15) == 0x18
    ensures forall t: nat | 1 <= t < 15 :: Schedule(m, t) == 0
  {
    WordValues();
    WordOf(m, 0, 0x6162_6380);
    forall t: nat | 1 <= t < 15 ensures Schedule(m, t) == 0 {
      WordOf(m, t, 0);
    }
    WordOf(m, 15, 0x18);
  }

  lemma {:induction false} NextWord(m: Block, t: nat, a: bv32, b: bv32, c: bv32, d: bv32, w: bv32)
    requires t >= 16 && Schedule(m, t - 2) == a && Schedule(m, t - 7) == b && Schedule(m, t - 15) == c
    requires Schedule(m, t - 16) == d && w == Plus(Plus(Plus(SmallSigma1(a), b), SmallSigma0(c)), d)
    ensures Schedule(m, t) == w
  {
  }

  /** The next words of its schedule. */
  lemma {:induction false} ScheduleOfAbc(m: Block)
    requires m == Abc() + [0x80] + Zeros(59) + [0x18]
    ensures Schedule(m, 16) == 0x6162_6380 && Schedule(m, 17) == 0x000F_0000 && Schedule(m, 18) == 0x7DA8_6405
    ensures Schedule(m, 19) == 0x6000_03C6
  {
    BlockOfAbc(m);
    NextWord(m, 16, 0, 0, 0, 0x6162_6380, 0x6162_6380);
    NextWord(m, 17, 0x18, 0, 0, 0, 0x000F_0000);
    NextWord(m, 18, 0x6162_6380, 0, 0, 0, 0x7DA8_6405);
    NextWord(m, 19, 0x000F_0000, 0, 0, 0, 0x6000_03C6);
  }

  lemma {:induction false} NextRound(h: Words, m: Block, n: nat, v: Words, k: bv32, w: bv32, u: Words)
    requires n < 64 && Rounds(h, m, n) == v && K(n) == k && Schedule(m, n) == w && Round(v, k, w) == u
    ensures Rounds(h, m, n + 1) == u
  {
  }

  /** Its working variables after two rounds. */
  lemma {:induction false} RoundsOfAbc(m: Block)
    requires m == Abc() + [0x80] + Zeros(59) + [0x18]
    ensures Rounds(Initial(), m, 2) == Words(0x5A6A_D9AD, 0x5D6A_EBCD, 0x6A09_E667, 0xBB67_AE85,
                                             0x78CE_7989, 0xFA2A_4622, 0x510E_527F, 0x9B05_688C)
  {
    BlockOfAbc(m);
    var h, v, u := Initial(),
                   Words(0x5D6A_EBCD, 0x6A09_E667, 0xBB67_AE85, 0x3C6E_F372, 0xFA2A_4622, 0x510E_527F, 0x9B05_688C, 0x1F83_D9AB),
                   Words(0x5A6A_D9AD, 0x5D6A_EBCD, 0x6A09_E667, 0xBB67_AE85, 0x78CE_7989, 0xFA2A_4622, 0x510E_527F, 0x9B05_688C);
    NextRound(h, m, 0, h, 0x428A_2F98, 0x6162_6380, v);
    NextRound(h, m, 1, v, 0x7137_4491, 0, u);
  }

  /** Blocks are taken in their order. */
  lemma {:induction false} TwoBlocks(h: Words, a: Block, b: Block)
    ensures HashBlocks(Compress, h, a + b) == Compress(Compress(h, a), b)
  {
    assert (a + b)[..64] == a && (a + b)[64..] == b;
    OneBlock(h, a);
  }

  lemma {:induction false} OneBlock(h: Words, m: Block)
    ensures HashBlocks(Compress, h, m) == Compress(h, m)
  {
    assert m[..0] == [] && m[0..] == m;
    assert HashBlocks(Compress, h, m[..0]) == h;
  }

  lemma PlusIs(x: bv32, y: bv32)
    ensures Plus(x, y) == x + y
  {
  }

  /** A block goes through 64 rounds, and every working variable is added to the word it came from. */
  lemma {:induction false} CompressIs(h: Words, m: Block, n: nat)
    requires n == 64
    ensures var v, r := Rounds(h, m, n), Compress(h, m);
            && r.a == Plus(h.a, v.a) && r.b == Plus(h.b, v.b) && r.c == Plus(h.c, v.c) && r.d == Plus(h.d, v.d)
            && r.e == Plus(h.e, v.e) && r.f == Plus(h.f, v.f) && r.g == Plus(h.g, v.g) && r.h == Plus(h.h, v.h)
  {
  }

  /** The words of the digest are in order, with the highest byte first. */
  lemma {:induction false} FirstHalf(h: Words, i: nat)
    requires i < 4
    ensures var d := Digest(h);
            d[i] == ByteOf(h.a, i) && d[4 + i] == ByteOf(h.b, i) && d[8 + i] == ByteOf(h.c, i) && d[12 + i] == ByteOf(h.d, i)
  {
  }

  lemma {:induction false} SecondHalf(h: Words, i: nat)
    requires i < 4
    ensures var d := Digest(h);
            d[16 + i] == ByteOf(h.e, i) && d[20 + i] == ByteOf(h.f, i) && d[24 + i] == ByteOf(h.g, i) && d[28 + i] == ByteOf(h.h, i)
  {
  }
}
