/** The cipher round by round, and the beginning of the example of FIPS 197, appendices A.1 and B. */
module AesExample {
  import opened Bits
  import opened Gf256
  import opened Aes
  import opened AesCipher
  import opened KeyAlternation
  import opened SBoxTable

  ghost predicate IsSBox(sub: byte -> byte) { forall b: byte :: sub(b) == SBox(b) }

  lemma SubIs(sub: byte -> byte, b: byte, s: byte)
    requires IsSBox(sub) && Table(b) == s
    ensures sub(b) == s
  {
    SBoxIsTable(b);
  }

  /** Chaining starts from a block of zeros. */
  lemma ZeroBlock(i: nat)
    requires i < 16
    ensures Zero()[i] == 0
  {
  }

  // ---- The rounds ----

  /** Section 5.1: nine rounds that mix, and a last one that does not. */
  lemma {:induction false} CipherRounds(sub: byte -> byte, inv: byte -> byte, key: Block, x: Block, r: nat)
    requires r <= 10
    ensures var o := AesSteps(sub, inv, key);
            Encrypting(o, 10, x, r) ==
            if r == 0 then Add(x, key)
            else
              var s := ShiftRows(Substitute(sub, Encrypting(o, 10, x, r - 1)));
              Add(if r < 10 then MapColumns(Mix, s) else s, RoundKey(sub, key, r))
  {
  }

  lemma {:induction false} CipherEnds(sub: byte -> byte, inv: byte -> byte, key: Block, x: Block, n: nat)
    requires n == 10
    ensures Cipher(sub, inv, key, x) == Encrypting(AesSteps(sub, inv, key), n, x, n)
  {
  }

  // ---- The example ----

  function Key(): (k: Block)
    ensures k[0] == 0x2B && k[1] == 0x7E && k[2] == 0x15 && k[3] == 0x16
    ensures k[4] == 0x28 && k[5] == 0xAE && k[6] == 0xD2 && k[7] == 0xA6
    ensures k[8] == 0xAB && k[9] == 0xF7 && k[10] == 0x15 && k[11] == 0x88
    ensures k[12] == 0x09 && k[13] == 0xCF && k[14] == 0x4F && k[15] == 0x3C
  {
    [0x2B, 0x7E, 0x15, 0x16, 0x28, 0xAE, 0xD2, 0xA6, 0xAB, 0xF7, 0x15, 0x88, 0x09, 0xCF, 0x4F, 0x3C]
  }

  lemma {:induction false} WordFrom(sub: byte -> byte, k: Block, a: byte, b: byte, c: byte, d: byte)
    requires sub(k[13]) == a && sub(k[14]) == b && sub(k[15]) == c && sub(k[12]) == d
    ensures FirstWord(sub, k, 1) == [Xor(Xor(a, k[0]), 1), Xor(b, k[1]), Xor(c, k[2]), Xor(d, k[3])]
  {
  }

  lemma WordBytes()
    ensures Xor(Xor(0x8A, 0x2B), 1) == 0xA0 && Xor(0x84, 0x7E) == 0xFA && Xor(0xEB, 0x15) == 0xFE && Xor(0x01, 0x16) == 0x17
  {
  }

  lemma NextBytes()
    ensures Xor(0x28, 0xA0) == 0x88 && Xor(0xAE, 0xFA) == 0x54 && Xor(0xD2, 0xFE) == 0x2C && Xor(0xA6, 0x17) == 0xB1
    ensures Xor(0xAB, 0x88) == 0x23 && Xor(0xF7, 0x54) == 0xA3 && Xor(0x15, 0x2C) == 0x39 && Xor(0x88, 0xB1) == 0x39
    ensures Xor(0x09, 0x23) == 0x2A && Xor(0xCF, 0xA3) == 0x6C && Xor(0x4F, 0x39) == 0x76 && Xor(0x3C, 0x39) == 0x05
  {
  }

  lemma {:induction false} FirstWordOfKey(sub: byte -> byte, k: Block)
    requires IsSBox(sub) && k == Key()
    ensures FirstWord(sub, k, 1) == [0xA0, 0xFA, 0xFE, 0x17]
  {
    SubIs(sub, 0xCF, 0x8A);
    SubIs(sub, 0x4F, 0x84);
    SubIs(sub, 0x3C, 0xEB);
    SubIs(sub, 0x09, 0x01);
    WordFrom(sub, k, 0x8A, 0x84, 0xEB, 0x01);
    WordBytes();
  }

  lemma {:induction false} OtherWords(k: Block, r: Block)
    requires k == Key() && r[0] == 0xA0 && r[1] == 0xFA && r[2] == 0xFE && r[3] == 0x17
    requires forall i | 4 <= i < 16 :: r[i] == Xor(k[i], r[i - 4])
    ensures r[4] == 0x88 && r[5] == 0x54 && r[6] == 0x2C && r[7] == 0xB1
    ensures r[8] == 0x23 && r[9] == 0xA3 && r[10] == 0x39 && r[11] == 0x39
    ensures r[12] == 0x2A && r[13] == 0x6C && r[14] == 0x76 && r[15] == 0x05
  {
    NextBytes();
  }

  /** The first round key. */
  lemma {:induction false} FirstRoundKey(sub: byte -> byte, k: Block)
    requires IsSBox(sub) && k == Key()
    ensures NextKey(sub, k, 1) ==
            [0xA0, 0xFA, 0xFE, 0x17, 0x88, 0x54, 0x2C, 0xB1, 0x23, 0xA3, 0x39, 0x39, 0x2A, 0x6C, 0x76, 0x05]
  {
    FirstWordOfKey(sub, k);
    OtherWords(k, NextKey(sub, k, 1));
  }

  lemma {:induction false} LayerColumn(sub: byte -> byte, s: Block)
    ensures ColumnOf(Layer(sub, s), 0) == Column(sub(s[0]), sub(s[5]), sub(s[10]), sub(s[15]))
  {
  }

  lemma {:induction false} MixColumn(t: Block)
    ensures var m, x := MixColumns(t), Mix(ColumnOf(t, 0)); m[0] == x.a && m[1] == x.b && m[2] == x.c && m[3] == x.d
  {
  }

  /** The first column of the first round: the four bytes that meet in it, substituted and mixed. */
  lemma {:induction false} FirstColumn(sub: byte -> byte, s: Block)
    requires IsSBox(sub) && s[0] == 0x19 && s[5] == 0xF4 && s[10] == 0x8D && s[15] == 0x08
    ensures var m := MixColumns(Layer(sub, s)); m[0] == 0x04 && m[1] == 0x66 && m[2] == 0x81 && m[3] == 0xE5
  {
    SubIs(sub, 0x19, 0xD4);
    SubIs(sub, 0xF4, 0xBF);
    SubIs(sub, 0x8D, 0x5D);
    SubIs(sub, 0x08, 0x30);
    LayerColumn(sub, s);
    MixColumn(Layer(sub, s));
    MixedColumn();
  }

  lemma {:induction false} MixedColumn()
    ensures Mix(Column(0xD4, 0xBF, 0x5D, 0x30)) == Column(0x04, 0x66, 0x81, 0xE5)
  {
    DoubleAndTriple(0xD4);
    DoubleAndTriple(0xBF);
    DoubleAndTriple(0x5D);
    DoubleAndTriple(0x30);
    MixedBytes();
  }

  lemma MixedBytes()
    ensures Mul2(0xD4) == 0xB3 && Mul2(0xBF) == 0x65 && Mul2(0x5D) == 0xBA && Mul2(0x30) == 0x60
    ensures Xor(Xor(0xB3, Xor(0xBF, 0x65)), Xor(0x5D, 0x30)) == 0x04
    ensures Xor(Xor(0x65, Xor(0x5D, 0xBA)), Xor(0x30, 0xD4)) == 0x66
    ensures Xor(Xor(0xBA, Xor(0x30, 0x60)), Xor(0xD4, 0xBF)) == 0x81
    ensures Xor(Xor(0x60, Xor(0xD4, 0xB3)), Xor(0xBF, 0x5D)) == 0xE5
  {
  }
}
