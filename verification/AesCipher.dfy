/** The rounds and the key schedule of AES-128 (sections 5.1 to 5.3 of FIPS 197) and cipher block chaining, for any
    substitution with an inverse. */
module AesCipher {
  import opened Aes
  import opened Bits
  import opened Gf256
  import opened KeyAlternation

  // ---- The key schedule ----

  /** The constant of round r + 1: a power of x. */
  function Rcon(r: nat): byte
    requires r < 10
  {
    [0x01, 0x02, 0x04, 0x08, 0x10, 0x20, 0x40, 0x80, 0x1B, 0x36][r]
  }

  lemma RconIsPower(r: nat)
    requires 0 < r < 10
    ensures Rcon(0) == 1 && Rcon(r) == Mul2(Rcon(r - 1))
  {
  }

  /** The first word of the next key. */
  function FirstWord(sub: byte -> byte, k: Block, rc: byte): (w: seq<byte>)
    ensures |w| == 4
  {
    [Xor(Xor(sub(k[13]), k[0]), rc), Xor(sub(k[14]), k[1]), Xor(sub(k[15]), k[2]), Xor(sub(k[12]), k[3])]
  }

  lemma FirstWordPlaced(sub: byte -> byte, k: Block, rc: byte, r: Block)
    requires r[0] == Xor(Xor(sub(k[13]), k[0]), rc) && r[1] == Xor(sub(k[14]), k[1])
    requires r[2] == Xor(sub(k[15]), k[2]) && r[3] == Xor(sub(k[12]), k[3])
    requires forall j | 4 <= j < 16 :: r[j] == k[j]
    ensures r == FirstWord(sub, k, rc) + k[4..]
  {
  }

  /** Every other word is the sum of the word before it and the word in its place. */
  function Chained(first: seq<byte>, k: Block, i: nat): byte
    requires |first| == 4 && i < 16
    decreases i, k
  {
    if i < 4 then first[i] else Xor(k[i], Chained(first, k, i - 4))
  }

  function NextKey(sub: byte -> byte, k: Block, rc: byte): (r: Block)
    ensures forall i | 0 <= i < 4 :: r[i] == FirstWord(sub, k, rc)[i]
    ensures forall i | 4 <= i < 16 :: r[i] == Xor(k[i], r[i - 4])
  {
    seq(16, i requires 0 <= i < 16 => Chained(FirstWord(sub, k, rc), k, i))
  }

  /** The words that the other direction begins with: the sums of neighbours. */
  function Unchained(k: Block): (r: Block)
    ensures forall i | 0 <= i < 4 :: r[i] == k[i]
    ensures forall i | 4 <= i < 16 :: r[i] == Xor(k[i], k[i - 4])
  {
    seq(16, i requires 0 <= i < 16 => if i < 4 then k[i] else Xor(k[i], k[i - 4]))
  }

  function PreviousKey(sub: byte -> byte, k: Block, rc: byte): Block {
    FirstWord(sub, Unchained(k), rc) + Unchained(k)[4..]
  }

  lemma XorThrice(s: byte, a: byte, rc: byte)
    ensures Xor(Xor(s, Xor(Xor(s, a), rc)), rc) == a && Xor(s, Xor(s, a)) == a
  {
  }

  /** The inverse key schedule restores the key. */
  lemma PreviousOfNext(sub: byte -> byte, k: Block, rc: byte)
    ensures PreviousKey(sub, NextKey(sub, k, rc), rc) == k
  {
    var n := NextKey(sub, k, rc);
    var u := Unchained(n);
    forall i | 4 <= i < 16 ensures u[i] == k[i] {
      XorTwice(k[i], n[i - 4]);
    }
    XorThrice(sub(k[13]), k[0], rc);
    XorThrice(sub(k[14]), k[1], rc);
    XorThrice(sub(k[15]), k[2], rc);
    XorThrice(sub(k[12]), k[3], rc);
    assert FirstWord(sub, u, rc) == k[..4];
    assert u[4..] == k[4..];
  }

  /** What the two ways of writing a key schedule agree on. */
  lemma {:induction false} ChainedIs(first: seq<byte>, k: Block, r: Block, i: nat)
    requires |first| == 4 && i < 16 && r[..4] == first && forall j | 4 <= j < 16 :: r[j] == Xor(k[j], r[j - 4])
    ensures r[i] == Chained(first, k, i)
    decreases i
  {
    if i >= 4 {
      ChainedIs(first, k, r, i - 4);
    }
  }

  lemma NextKeyIs(sub: byte -> byte, k: Block, rc: byte, r: Block)
    requires r[..4] == FirstWord(sub, k, rc) && forall j | 4 <= j < 16 :: r[j] == Xor(k[j], r[j - 4])
    ensures r == NextKey(sub, k, rc)
  {
    forall i | 0 <= i < 16 ensures r[i] == NextKey(sub, k, rc)[i] {
      ChainedIs(FirstWord(sub, k, rc), k, r, i);
    }
  }

  /** The key of round r. */
  function RoundKey(sub: byte -> byte, key: Block, r: nat): Block
    requires r <= 10
    decreases r, key
  {
    if r == 0 then key else NextKey(sub, RoundKey(sub, key, r - 1), Rcon(r - 1))
  }

  function RoundKeys(sub: byte -> byte, key: Block): nat -> Block {
    r => if r <= 10 then RoundKey(sub, key, r) else key
  }

  // ---- The rounds ----

  function Layer(sub: byte -> byte, s: Block): Block { ShiftRows(Substitute(sub, s)) }

  function Unlayer(inv: byte -> byte, s: Block): Block { Substitute(inv, InvShiftRows(s)) }

  function MixColumns(s: Block): Block { MapColumns(Mix, s) }

  function InvMixColumns(s: Block): Block { MapColumns(InvMix, s) }

  function AesSteps(sub: byte -> byte, inv: byte -> byte, key: Block): Steps<Block> {
    Steps((s: Block, k: Block) => Add(s, k), (s: Block) => Layer(sub, s), (s: Block) => Unlayer(inv, s),
          (s: Block) => MixColumns(s), (s: Block) => InvMixColumns(s), RoundKeys(sub, key))
  }

  /** Section 5.1. */
  function Cipher(sub: byte -> byte, inv: byte -> byte, key: Block, x: Block): Block {
    Encrypting(AesSteps(sub, inv, key), 10, x, 10)
  }

  /** Section 5.3. */
  function InvCipher(sub: byte -> byte, inv: byte -> byte, key: Block, y: Block): Block {
    Decrypting(AesSteps(sub, inv, key), 10, y, 10)
  }

  /** The inverse cipher, begun and continued. */
  lemma {:induction false} DecryptingFirst(sub: byte -> byte, inv: byte -> byte, key: Block, y: Block)
    ensures Decrypting(AesSteps(sub, inv, key), 10, y, 0) == Add(y, RoundKey(sub, key, 10))
  {
  }

  lemma DecryptingNext(sub: byte -> byte, inv: byte -> byte, key: Block, y: Block, n: nat)
    requires n < 10
    ensures var s := Decrypting(AesSteps(sub, inv, key), 10, y, n);
            Decrypting(AesSteps(sub, inv, key), 10, y, n + 1)
            == Add(Unlayer(inv, if n > 0 then InvMixColumns(s) else s), RoundKey(sub, key, 9 - n))
  {
    DecryptingMore(AesSteps(sub, inv, key), 10, y, n);
  }

  lemma LayerInverts(f: byte -> byte, g: byte -> byte, s: Block)
    requires forall b: byte :: g(f(b)) == b
    ensures Unlayer(g, Layer(f, s)) == s && Layer(g, Unlayer(f, s)) == s
  {
    ShiftRowsInverts(Substitute(f, s));
    SubstituteInverts(f, g, s);
    ShiftRowsInverts(s);
    SubstituteInverts(f, g, InvShiftRows(s));
  }

  lemma MixColumnsInverts(s: Block)
    ensures InvMixColumns(MixColumns(s)) == s && MixColumns(InvMixColumns(s)) == s
  {
    forall x: Column ensures InvMix(Mix(x)) == x && Mix(InvMix(x)) == x {
      MixInverts(x);
    }
    MapColumnsInverts(Mix, InvMix, s);
    MapColumnsInverts(InvMix, Mix, s);
  }

  lemma StepsInvertible(sub: byte -> byte, inv: byte -> byte, key: Block)
    requires forall b: byte :: inv(sub(b)) == b && sub(inv(b)) == b
    ensures Invertible(AesSteps(sub, inv, key))
  {
    forall s: Block
      ensures InvMixColumns(MixColumns(s)) == s && MixColumns(InvMixColumns(s)) == s
      ensures Unlayer(inv, Layer(sub, s)) == s && Layer(sub, Unlayer(inv, s)) == s
    {
      MixColumnsInverts(s);
      LayerInverts(sub, inv, s);
      LayerInverts(inv, sub, s);
    }
    forall s: Block, k: Block ensures Add(Add(s, k), k) == s {
      AddTwice(s, k);
    }
  }

  /** The two ciphers are inverse to each other. */
  lemma CipherInverts(sub: byte -> byte, inv: byte -> byte, key: Block, x: Block)
    requires forall b: byte :: inv(sub(b)) == b && sub(inv(b)) == b
    ensures InvCipher(sub, inv, key, Cipher(sub, inv, key, x)) == x
    ensures Cipher(sub, inv, key, InvCipher(sub, inv, key, x)) == x
  {
    StepsInvertible(sub, inv, key);
    Inverts(AesSteps(sub, inv, key), 10, x);
  }

  function Deciphering(sub: byte -> byte, inv: byte -> byte, key: Block): Block -> Block {
    y => InvCipher(sub, inv, key, y)
  }

  function Enciphering(sub: byte -> byte, inv: byte -> byte, key: Block): Block -> Block {
    x => Cipher(sub, inv, key, x)
  }

  // ---- Cipher block chaining ----

  function CbcEncrypt(e: Block -> Block, previous: Block, plain: seq<Block>): (r: seq<Block>)
    ensures |r| == |plain|
    decreases |plain|
  {
    if plain == [] then []
    else
      var c := e(Add(plain[0], previous));
      [c] + CbcEncrypt(e, c, plain[1..])
  }

  function CbcDecrypt(d: Block -> Block, previous: Block, cipher: seq<Block>): (r: seq<Block>)
    ensures |r| == |cipher|
    decreases |cipher|
  {
    if cipher == [] then [] else [Add(d(cipher[0]), previous)] + CbcDecrypt(d, cipher[0], cipher[1..])
  }

  lemma {:induction false} CbcInverts(e: Block -> Block, d: Block -> Block, previous: Block, plain: seq<Block>)
    requires forall x: Block :: d(e(x)) == x
    ensures CbcDecrypt(d, previous, CbcEncrypt(e, previous, plain)) == plain
    decreases |plain|
  {
    if plain != [] {
      var c := e(Add(plain[0], previous));
      CbcInverts(e, d, c, plain[1..]);
      AddTwice(plain[0], previous);
      assert CbcEncrypt(e, previous, plain)[1..] == CbcEncrypt(e, c, plain[1..]);
    }
  }

  /** Every plain block is its cipher block deciphered plus the cipher block before it. */
  lemma {:induction false} CbcDecryptAt(d: Block -> Block, previous: Block, cipher: seq<Block>, i: nat)
    requires i < |cipher|
    ensures CbcDecrypt(d, previous, cipher)[i] == Add(d(cipher[i]), if i == 0 then previous else cipher[i - 1])
    decreases i
  {
    if i > 0 {
      CbcDecryptAt(d, cipher[0], cipher[1..], i - 1);
    }
  }

  lemma {:induction false} CbcDecryptLast(d: Block -> Block, previous: Block, cipher: seq<Block>, c: Block)
    ensures CbcDecrypt(d, previous, cipher + [c])
            == CbcDecrypt(d, previous, cipher) + [Add(d(c), if cipher == [] then previous else cipher[|cipher| - 1])]
    decreases |cipher|
  {
    if cipher == [] {
      assert cipher + [c] == [c];
    } else {
      assert (cipher + [c])[1..] == cipher[1..] + [c];
      CbcDecryptLast(d, cipher[0], cipher[1..], c);
    }
  }

  lemma {:induction false} CbcDecryptNext(d: Block -> Block, previous: Block, cipher: seq<Block>, i: nat)
    requires i < |cipher|
    ensures CbcDecrypt(d, previous, cipher[..i + 1])
            == CbcDecrypt(d, previous, cipher[..i]) + [Add(d(cipher[i]), if i == 0 then previous else cipher[i - 1])]
  {
    assert cipher[..i + 1] == cipher[..i] + [cipher[i]];
    CbcDecryptLast(d, previous, cipher[..i], cipher[i]);
  }
}
