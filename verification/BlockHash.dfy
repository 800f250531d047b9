/** How a message is padded to whole blocks (section 5.1.1 of FIPS 180-4), and how a block function is folded over it
    while the message arrives in pieces. */
module BlockHash {
  import opened Arith
  import opened Bits
  import Convert

  type Block = b: seq<byte> | |b| == 64 witness Zeros(64)

  function BigEndian(n: nat, k: nat): (s: seq<byte>)
    ensures |s| == k
    decreases k, n
  {
    if k == 0 then [] else BigEndian(n / 256, k - 1) + [(n % 256) as byte]
  }

  function Value(s: seq<byte>): nat {
    if s == [] then 0 else 256 * Value(s[..|s| - 1]) + s[|s| - 1] as nat
  }

  function Pow256(k: nat): (p: nat)
    ensures p > 0
  {
    if k == 0 then 1 else 256 * Pow256(k - 1)
  }

  lemma {:induction false} ValueOfBigEndian(n: nat, k: nat)
    ensures Value(BigEndian(n, k)) == n % Pow256(k)
    decreases k
  {
    if k > 0 {
      ValueOfBigEndian(n / 256, k - 1);
      SplitModulo(n, Pow256(k - 1));
      Convert.ByteOfNat(n % 256);
      assert BigEndian(n, k)[..k - 1] == BigEndian(n / 256, k - 1);
    }
  }

  /** (uint8_t)(n >> 8 * i) */
  function Shifted(n: nat, i: nat): byte {
    (n / Pow256(i) % 256) as byte
  }

  lemma {:induction false} BigEndianAt(n: nat, k: nat, i: nat)
    requires i < k
    ensures BigEndian(n, k)[k - 1 - i] == Shifted(n, i)
    decreases k
  {
    if i > 0 {
      BigEndianAt(n / 256, k - 1, i - 1);
      SplitModulo(n, Pow256(i - 1));
    }
  }

  /** The length in bits, as 64 bits. */
  function LengthField(length: nat): (s: seq<byte>)
    ensures |s| == 8
  {
    BigEndian(8 * length % 0x1_0000_0000_0000_0000, 8)
  }

  /** The length of the whole blocks and then of the rest, counted in bits. */
  lemma BitLength(whole: nat, rest: nat)
    ensures (8 * whole % 0x1_0000_0000_0000_0000 + rest * 8) % 0x1_0000_0000_0000_0000
            == 8 * (whole + rest) % 0x1_0000_0000_0000_0000
  {
  }

  lemma NextBlockBits(m: seq<byte>, b: byte)
    requires |m| % 64 == 63
    ensures (8 * |Whole(m)| % 0x1_0000_0000_0000_0000 + 512) % 0x1_0000_0000_0000_0000
            == 8 * |Whole(m + [b])| % 0x1_0000_0000_0000_0000
  {
    assert |m + [b]| == |m| + 1;
    assert |Whole(m + [b])| == |Whole(m)| + 64;
    BitLength(|Whole(m)|, 64);
  }

  function PadZeros(length: nat): (z: nat)
    ensures (length + 1 + z + 8) % 64 == 0
  {
    (119 - length % 64) % 64
  }

  /** The message, a one bit, zeros, and the length. */
  function Pad(m: seq<byte>): (p: seq<byte>)
    ensures |p| % 64 == 0
  {
    m + [0x80] + Zeros(PadZeros(|m|)) + LengthField(|m|)
  }

  /** The number of zero bits is the least that leaves room for exactly the length. */
  lemma LeastZeros(length: nat, k: nat)
    ensures (8 * length + 1 + (7 + 8 * PadZeros(length))) % 512 == 448
    ensures (8 * length + 1 + k) % 512 == 448 ==> k >= 7 + 8 * PadZeros(length)
  {
    var q, r := length / 64, length % 64;
    assert 8 * length == 512 * q + 8 * r;
  }

  /** The length can be read back. */
  lemma LengthValue(length: nat)
    requires 8 * length < 0x1_0000_0000_0000_0000
    ensures Value(LengthField(length)) == 8 * length
  {
    var n, k := 8 * length, 8;
    SmallModulo(n, 0x1_0000_0000_0000_0000);
    EightBytes(k);
    FieldValue(n, k);
  }

  lemma EightBytes(k: nat)
    requires k == 8
    ensures Pow256(k) == 0x1_0000_0000_0000_0000
  {
    assert Pow256(8) == 0x1_0000_0000_0000_0000;
  }

  lemma {:induction false} FieldValue(n: nat, k: nat)
    requires n < Pow256(k)
    ensures Value(BigEndian(n, k)) == n
  {
    ValueOfBigEndian(n, k);
    SmallModulo(n, Pow256(k));
  }

  lemma SmallModulo(n: nat, p: nat)
    requires n < p
    ensures n % p == n
  {
    DivModUnique(n, p, 0, n);
  }

  /** Different messages of the lengths that the standard allows are padded differently. */
  lemma PadInjective(a: seq<byte>, b: seq<byte>)
    requires 8 * |a| < 0x1_0000_0000_0000_0000 && 8 * |b| < 0x1_0000_0000_0000_0000 && Pad(a) == Pad(b)
    ensures a == b
  {
    LengthValue(|a|);
    LengthValue(|b|);
    assert Pad(a)[|Pad(a)| - 8..] == LengthField(|a|) && Pad(b)[|Pad(b)| - 8..] == LengthField(|b|);
    assert a == Pad(a)[..|a|] && b == Pad(b)[..|b|];
  }

  /** The blocks of a padded message in turn. */
  function HashBlocks<H>(f: (H, Block) -> H, h: H, m: seq<byte>): H
    requires |m| % 64 == 0
    decreases |m|
  {
    if |m| == 0 then h else f(HashBlocks(f, h, m[..|m| - 64]), m[|m| - 64..])
  }

  lemma {:induction false} SameBlocks<H>(f: (H, Block) -> H, g: (H, Block) -> H, h: H, m: seq<byte>)
    requires |m| % 64 == 0 && forall x: H, b: Block :: f(x, b) == g(x, b)
    ensures HashBlocks(f, h, m) == HashBlocks(g, h, m)
    decreases |m|
  {
    if m != [] {
      SameBlocks(f, g, h, m[..|m| - 64]);
    }
  }

  function Hash<H>(f: (H, Block) -> H, h: H, m: seq<byte>): H {
    HashBlocks(f, h, Pad(m))
  }

  /** The whole blocks of what has arrived, and what is left of it. */
  function Whole(m: seq<byte>): (w: seq<byte>)
    ensures |w| == |m| - |m| % 64 && |w| % 64 == 0
  {
    m[..|m| - |m| % 64]
  }

  function Rest(m: seq<byte>): (r: seq<byte>)
    ensures |r| == |m| % 64
  {
    m[|m| - |m| % 64..]
  }

  lemma NoMessage<H>(f: (H, Block) -> H, h: H, m: seq<byte>)
    requires |m| == 0
    ensures HashBlocks(f, h, Whole(m)) == h
  {
  }

  lemma OneMoreByte(m: seq<byte>, b: byte)
    ensures |m| % 64 < 63 ==> Whole(m + [b]) == Whole(m) && Rest(m + [b]) == Rest(m) + [b]
    ensures |m| % 64 == 63 ==> Whole(m + [b]) == Whole(m) + (Rest(m) + [b]) && Rest(m + [b]) == []
  {
    assert m == Whole(m) + Rest(m);
  }

  lemma {:induction false} OneMoreBlock<H>(f: (H, Block) -> H, h: H, m: seq<byte>, b: Block)
    requires |m| % 64 == 0
    ensures HashBlocks(f, h, m + b) == f(HashBlocks(f, h, m), b)
  {
    assert (m + b)[..|m + b| - 64] == m && (m + b)[|m + b| - 64..] == b;
  }

  lemma Regroup<T>(a: seq<T>, b: seq<T>, c: seq<T>, d: seq<T>, e: seq<T>, f: seq<T>)
    ensures a + b + c + (d + e) + f == a + (b + c + d) + (e + f)
  {
  }

  lemma JoinZeros(a: nat, b: nat)
    ensures Zeros(a + b) == Zeros(a) + Zeros(b)
  {
  }

  /** Behind the whole blocks: the rest and the padding, in one block or two. */
  lemma PadParts(m: seq<byte>, zeros: nat, more: nat)
    requires zeros + more == PadZeros(|m|)
    ensures Pad(m) == Whole(m) + (Rest(m) + [0x80] + Zeros(zeros)) + (Zeros(more) + LengthField(|m|))
  {
    assert m == Whole(m) + Rest(m);
    JoinZeros(zeros, more);
    Regroup(Whole(m), Rest(m), [0x80], Zeros(zeros), Zeros(more), LengthField(|m|));
  }

  /** The padding fits behind the rest. */
  lemma ShortPadding<H>(f: (H, Block) -> H, h: H, m: seq<byte>, last: Block)
    requires |m| % 64 < 56 && last == Rest(m) + [0x80] + Zeros(55 - |m| % 64) + LengthField(|m|)
    ensures Hash(f, h, m) == f(HashBlocks(f, h, Whole(m)), last)
  {
    PadParts(m, 55 - |m| % 64, 0);
    assert Pad(m) == Whole(m) + last;
    OneMoreBlock(f, h, Whole(m), last);
  }

  /** The padding takes another block. */
  lemma LongPadding<H>(f: (H, Block) -> H, h: H, m: seq<byte>, last: Block, extra: Block)
    requires |m| % 64 >= 56 && last == Rest(m) + [0x80] + Zeros(63 - |m| % 64)
    requires extra == Zeros(56) + LengthField(|m|)
    ensures Hash(f, h, m) == f(f(HashBlocks(f, h, Whole(m)), last), extra)
  {
    PadParts(m, 63 - |m| % 64, 56);
    TwoMoreBlocks(f, h, Whole(m), last, extra);
  }

  lemma {:induction false} TwoMoreBlocks<H>(f: (H, Block) -> H, h: H, m: seq<byte>, a: Block, b: Block)
    requires |m| % 64 == 0
    ensures HashBlocks(f, h, m + a + b) == f(f(HashBlocks(f, h, m), a), b)
  {
    OneMoreBlock(f, h, m, a);
    OneMoreBlock(f, h, m + a, b);
  }
}
