/** The decryptor for firmware images: AES-128 with cipher block chaining, in place, with a key schedule that runs
    forward and back in the key array. */
module AesDecryptor {
  import opened Aes
  import opened AesCipher
  import opened Bits
  import opened Gf256
  import opened KeyAlternation
  import Convert

  function Entry(t: seq<byte>, b: byte): byte
    requires |t| == 256
  {
    Convert.NatOfByte(b);
    t[b as nat]
  }

  /** A table of 256 bytes holds a function. */
  ghost predicate InTable(t: seq<byte>, f: byte -> byte) {
    |t| == 256 && forall b: byte {:trigger f(b)} {:trigger Entry(t, b)} :: Entry(t, b) == f(b)
  }

  method Lookup(t: array<byte>, ghost f: byte -> byte, b: byte) returns (r: byte)
    requires InTable(t[..], f)
    ensures r == f(b)
  {
    Convert.NatOfByte(b);
    r := t[b as nat];
  }

  /** Multiplication by x with the sign bit spread over the reduction. */
  function GaloisMul2(value: byte): (r: byte)
    ensures r == Mul2(value)
  {
    var sign: byte := if value >= 0x80 then 0xFF else 0;
    (value << 1) ^ (sign & 0x1B)
  }

  // ---- The tables ----

  lemma StoredEntries(before: seq<byte>, after: seq<byte>, b: byte, value: byte)
    requires |before| == 256 && 0 <= b as nat < 256 && after == before[b as nat := value]
    ensures forall c: byte :: Entry(after, c) == if c == b then value else Entry(before, c)
  {
    forall c: byte ensures Entry(after, c) == if c == b then value else Entry(before, c) {
      if c != b {
        OtherEntry(before, b, value, c);
      }
    }
  }

  lemma OtherEntry(before: seq<byte>, b: byte, value: byte, c: byte)
    requires |before| == 256 && 0 <= b as nat < 256 && c != b
    ensures Entry(before[b as nat := value], c) == Entry(before, c)
  {
    Convert.NatOfByte(c);
    if c as nat == b as nat {
      Convert.ByteInjective(c, b);
    }
  }

  method Store(t: array<byte>, b: byte, value: byte)
    requires t.Length == 256
    modifies t
    ensures forall c: byte :: Entry(t[..], c) == if c == b then value else Entry(old(t[..]), c)
  {
    Convert.NatOfByte(b);
    t[b as nat] := value;
    StoredEntries(old(t[..]), t[..], b, value);
  }

  /** The affine map with left rotations by shifts. */
  function AffineFast(q: byte): (r: byte)
    ensures r == Affine(q)
  {
    0x63 ^ q ^ ((q << 1) | (q >> 7)) ^ ((q << 2) | (q >> 6)) ^ ((q << 3) | (q >> 5)) ^ ((q << 4) | (q >> 4))
  }

  lemma AtPower(n: nat)
    requires n <= 255
    ensures SBox(Power(n)) == Affine(Power(255 - n))
  {
    InverseOfPower(n);
  }

  ghost predicate Filled(t: seq<byte>, n: nat)
    requires |t| == 256
  {
    forall i: nat | 1 <= i <= n :: Entry(t, Power(i)) == SBox(Power(i))
  }

  /** One turn of the loop. */
  method InitNext(sbox: array<byte>, p0: byte, q0: byte, ghost n: nat) returns (p: byte, q: byte)
    requires sbox.Length == 256 && n < 255 && p0 == Power(n) && q0 == Power(255 - n) && Filled(sbox[..], n)
    modifies sbox
    ensures p == Power(n + 1) && q == Power(255 - (n + 1)) && Filled(sbox[..], n + 1)
  {
    PowerNext(n);
    PowerNext(254 - n);
    ThirdInverts(Power(254 - n));
    p := Times3(p0);
    q := Third(q0);
    AtPower(n + 1);
    Store(sbox, p, AffineFast(q));
  }

  /** The substitution of section 5.1.1, by a walk through the powers of x + 1 and their inverses. */
  method InitSBox(sbox: array<byte>)
    requires sbox.Length == 256
    modifies sbox
    ensures InTable(sbox[..], SBox)
  {
    var p, q: byte := 1, 1;
    ghost var n := 0;
    var again := true;
    Orders();
    assert Power(0) == 1;
    while again
      invariant 0 <= n <= 255 && p == Power(n) && q == Power(255 - n) && again == (n < 255)
      invariant Filled(sbox[..], n)
      decreases 255 - n
    {
      p, q := InitNext(sbox, p, q, n);
      n := n + 1;
      again := p != 1;
      if n < 255 {
        NoShorterPeriod(n);
      }
    }
    Store(sbox, 0, 0x63);
    forall b: byte ensures Entry(sbox[..], b) == SBox(b) {
      if b != 0 {
        assert Power(if Log(b) == 0 then 255 else Log(b)) == b;
      }
    }
  }

  /** The inverse of any permutation. */
  method InitInvSBox(sboxInv: array<byte>, sbox: array<byte>, ghost f: byte -> byte, ghost g: byte -> byte)
    requires sboxInv.Length == 256 && sboxInv != sbox && InTable(sbox[..], f)
    requires forall b: byte :: g(f(b)) == b && f(g(b)) == b
    modifies sboxInv
    ensures InTable(sboxInv[..], g)
  {
    var i := 0;
    while i < 256
      invariant 0 <= i <= 256 && InTable(sbox[..], f)
      invariant forall b: byte | b as nat < i :: Entry(sboxInv[..], f(b)) == b
    {
      Convert.ByteOfNat(i);
      var s := Lookup(sbox, f, i as byte);
      Store(sboxInv, s, i as byte);
      forall b: byte | b as nat < i + 1 ensures Entry(sboxInv[..], f(b)) == b {
        assert g(f(b)) == b;
        if b as nat == i {
          Convert.ByteInjective(b, i as byte);
        }
      }
      i := i + 1;
    }
    forall y: byte ensures Entry(sboxInv[..], y) == g(y) {
      Convert.NatOfByte(g(y));
      assert f(g(y)) == y;
    }
  }

  method InitTables(sbox: array<byte>, sboxInv: array<byte>)
    requires sbox.Length == 256 && sboxInv.Length == 256 && sbox != sboxInv
    modifies sbox, sboxInv
    ensures InTable(sbox[..], SBox) && InTable(sboxInv[..], UnSBox)
  {
    forall b: byte ensures UnSBox(SBox(b)) == b && SBox(UnSBox(b)) == b {
      SBoxInverts(b);
    }
    InitSBox(sbox);
    InitInvSBox(sboxInv, sbox, SBox, UnSBox);
  }

  // ---- The key ----

  function HexToBin(c: char): byte {
    if 'A' <= c <= 'F' then (c as int - 'A' as int + 10) as byte else ((c as int - '0' as int) % 256) as byte
  }

  function FromDigits(high: byte, low: byte): byte { (high << 4) | low }

  /** The key of 32 hexadecimal digits. */
  function KeyOf(hex: string): Block
    requires |hex| == 32
  {
    seq(16, i requires 0 <= i < 16 => FromDigits(HexToBin(hex[2 * i]), HexToBin(hex[2 * i + 1])))
  }

  function Digit(n: byte): char {
    match n
    case 0 => '0' case 1 => '1' case 2 => '2' case 3 => '3' case 4 => '4' case 5 => '5' case 6 => '6' case 7 => '7'
    case 8 => '8' case 9 => '9' case 10 => 'A' case 11 => 'B' case 12 => 'C' case 13 => 'D' case 14 => 'E' case _ => 'F'
  }

  function Hex(key: seq<byte>): (h: string)
    ensures |h| == 2 * |key|
  {
    if key == [] then "" else [Digit(key[0] >> 4), Digit(key[0] & 0xF)] + Hex(key[1..])
  }

  lemma LowDigitValue(n: byte)
    requires n < 10
    ensures HexToBin(Digit(n)) == n
  {
  }

  lemma DigitValue(n: byte)
    requires n < 16
    ensures HexToBin(Digit(n)) == n
  {
    if n < 10 {
      LowDigitValue(n);
    }
  }

  lemma Nibbles(b: byte)
    ensures (b >> 4) < 16 && (b & 0xF) < 16 && FromDigits(b >> 4, b & 0xF) == b
  {
  }

  lemma {:induction false} HexAt(key: seq<byte>, i: nat)
    requires i < |key|
    ensures Hex(key)[2 * i] == Digit(key[i] >> 4) && Hex(key)[2 * i + 1] == Digit(key[i] & 0xF)
  {
    if i > 0 {
      HexAt(key[1..], i - 1);
    }
  }

  lemma TwoDigits(b: byte)
    ensures FromDigits(HexToBin(Digit(b >> 4)), HexToBin(Digit(b & 0xF))) == b
  {
    Nibbles(b);
    DigitValue(b >> 4);
    DigitValue(b & 0xF);
  }

  /** A key written in upper-case hexadecimal digits is read back. */
  lemma {:induction false} KeyRoundTrip(key: Block)
    ensures KeyOf(Hex(key)) == key
  {
    forall i: nat | i < 16 ensures KeyOf(Hex(key))[i] == key[i] {
      KeyByte(key, i);
    }
  }

  lemma {:induction false} KeyByte(key: Block, i: nat)
    requires i < 16
    ensures KeyOf(Hex(key))[i] == key[i]
  {
    HexAt(key, i);
    TwoDigits(key[i]);
  }

  /** A message that was chained with the cipher of FIPS 197 under a key is what the decryptor's function gives back. */
  lemma {:induction false} MessageRoundTrip(key: Block, plain: seq<Block>)
    ensures CbcDecrypt(Deciphering(SBox, UnSBox, key), Zero(), CbcEncrypt(Enciphering(SBox, UnSBox, key), Zero(), plain)) == plain
  {
    forall b: byte ensures UnSBox(SBox(b)) == b && SBox(UnSBox(b)) == b {
      SBoxInverts(b);
    }
    forall x: Block ensures Deciphering(SBox, UnSBox, key)(Enciphering(SBox, UnSBox, key)(x)) == x {
      CipherInverts(SBox, UnSBox, key, x);
    }
    CbcInverts(Enciphering(SBox, UnSBox, key), Deciphering(SBox, UnSBox, key), Zero(), plain);
  }

  class Decryptor {
    const cachedKey: array<byte>
    const currentKey: array<byte>
    const sbox: array<byte>
    const sboxInv: array<byte>
    const prevBlock: array<byte>
    const tempBlock: array<byte>
    var prevBlockPtr: array<byte>
    var tempBlockPtr: array<byte>
    ghost const sub: byte -> byte
    ghost const inv: byte -> byte

    ghost predicate Tables()
      reads sbox, sboxInv
    {
      InTable(sbox[..], sub) && InTable(sboxInv[..], inv)
    }

    /** The new first word, in place. */
    method FirstWordInPlace(key: array<byte>, rc: byte)
      requires Tables() && key.Length == 16 && key != sbox && key != sboxInv
      modifies key
      ensures key[..] == FirstWord(sub, old(key[..]), rc) + old(key[4..])
    {
      var s := Lookup(sbox, sub, key[13]);
      key[0] := Xor(Xor(s, key[0]), rc);
      s := Lookup(sbox, sub, key[14]);
      key[1] := Xor(s, key[1]);
      s := Lookup(sbox, sub, key[15]);
      key[2] := Xor(s, key[2]);
      s := Lookup(sbox, sub, key[12]);
      key[3] := Xor(s, key[3]);
      FirstWordPlaced(sub, old(key[..]), rc, key[..]);
    }

    /** Key schedule. */
    method NextKeyInPlace(key: array<byte>, round: nat)
      requires Tables() && key.Length == 16 && key != sbox && key != sboxInv && round < 10
      modifies key
      ensures key[..] == NextKey(sub, old(key[..]), Rcon(round))
    {
      ghost var k := key[..];
      FirstWordInPlace(key, Rcon(round));
      ghost var first := FirstWord(sub, k, Rcon(round));
      var i := 4;
      while i < 16
        invariant 4 <= i <= 16 && key[..4] == first
        invariant forall j | 4 <= j < i :: key[j] == Xor(k[j], key[j - 4])
        invariant forall j | i <= j < 16 :: key[j] == k[j]
      {
        key[i] := Xor(key[i], key[i - 4]);
        i := i + 1;
      }
      NextKeyIs(sub, k, Rcon(round), key[..]);
    }

    /** Inverse key schedule. */
    method PreviousKeyInPlace(key: array<byte>, round: nat)
      requires Tables() && key.Length == 16 && key != sbox && key != sboxInv && round < 10
      modifies key
      ensures key[..] == PreviousKey(sub, old(key[..]), Rcon(round))
    {
      ghost var k := key[..];
      var i := 15;
      while i > 3
        invariant 3 <= i <= 15
        invariant forall j | i < j < 16 :: key[j] == Xor(k[j], k[j - 4])
        invariant forall j | 0 <= j <= i :: key[j] == k[j]
      {
        key[i] := Xor(key[i], key[i - 4]);
        i := i - 1;
      }
      assert key[..] == Unchained(k);
      FirstWordInPlace(key, Rcon(round));
    }

    /** All keys of the schedule up to the last one. */
    method LastKeyInPlace(key: array<byte>)
      requires Tables() && key.Length == 16 && key != sbox && key != sboxInv
      modifies key
      ensures key[..] == RoundKey(sub, old(key[..]), 10)
    {
      var round := 0;
      while round < 10
        invariant 0 <= round <= 10 && key[..] == RoundKey(sub, old(key[..]), round)
      {
        NextKeyInPlace(key, round);
        round := round + 1;
      }
    }

    static method AddInPlace(block: array<byte>, key: array<byte>)
      requires block.Length == 16 && key.Length == 16 && block != key
      modifies block
      ensures block[..] == Add(old(block[..]), key[..])
    {
      var i := 0;
      while i < 16
        invariant 0 <= i <= 16
        invariant forall j | 0 <= j < i :: block[j] == Xor(old(block[j]), key[j])
        invariant forall j | i <= j < 16 :: block[j] == old(block[j])
      {
        block[i] := Xor(block[i], key[i]);
        i := i + 1;
      }
    }

    /** The first part of the inverse for a column. */
    static method BeforeInPlace(block: array<byte>, c: nat)
      requires block.Length == 16 && c < 4
      modifies block
      ensures ColumnOf(block[..], c) == Before(ColumnOf(old(block[..]), c))
      ensures forall j | 0 <= j < 16 && j / 4 != c :: block[j] == old(block[j])
    {
      var b := 4 * c;
      var u := GaloisMul2(GaloisMul2(Xor(block[b], block[b + 2])));
      var v := GaloisMul2(GaloisMul2(Xor(block[b + 1], block[b + 3])));
      block[b] := Xor(block[b], u);
      block[b + 1] := Xor(block[b + 1], v);
      block[b + 2] := Xor(block[b + 2], u);
      block[b + 3] := Xor(block[b + 3], v);
    }

    /** The mixing of a column. */
    static method MixInPlace(block: array<byte>, c: nat)
      requires block.Length == 16 && c < 4
      modifies block
      ensures ColumnOf(block[..], c) == FastMix(ColumnOf(old(block[..]), c))
      ensures forall j | 0 <= j < 16 && j / 4 != c :: block[j] == old(block[j])
    {
      var b := 4 * c;
      var sum := Xor(Xor(Xor(block[b], block[b + 1]), block[b + 2]), block[b + 3]);
      var a := block[b];
      MixByteInPlace(block, b, block[b + 1], sum);
      MixByteInPlace(block, b + 1, block[b + 2], sum);
      MixByteInPlace(block, b + 2, block[b + 3], sum);
      MixByteInPlace(block, b + 3, a, sum);
    }

    static method MixByteInPlace(block: array<byte>, i: nat, next: byte, sum: byte)
      requires i < block.Length
      modifies block
      ensures block[..] == old(block[..])[i := FastByte(old(block[i]), next, sum)]
    {
      var twice := GaloisMul2(Xor(block[i], next));
      block[i] := Xor(Xor(block[i], twice), sum);
    }

    static method InvMixInPlace(block: array<byte>)
      requires block.Length == 16
      modifies block
      ensures block[..] == InvMixColumns(old(block[..]))
    {
      ghost var s := block[..];
      var c := 0;
      while c < 4
        invariant 0 <= c <= 4 && MappedTo(InvMix, s, block[..], c)
      {
        ghost var before := block[..];
        InvMixColumn(block, c);
        MappedNext(InvMix, s, before, block[..], c);
        c := c + 1;
      }
      MappedAll(InvMix, s, block[..]);
    }

    /** One turn of the loop. */
    static method InvMixColumn(block: array<byte>, c: nat)
      requires block.Length == 16 && c < 4
      modifies block
      ensures ColumnOf(block[..], c) == InvMix(ColumnOf(old(block[..]), c))
      ensures forall j | 0 <= j < 16 && j / 4 != c :: block[j] == old(block[j])
    {
      BeforeInPlace(block, c);
      MixInPlace(block, c);
    }

    static method InvShiftInPlace(block: array<byte>)
      requires block.Length == 16
      modifies block
      ensures block[..] == InvShiftRows(old(block[..]))
    {
      RotateRow1(block);
      RotateRow2(block);
      RotateRow3(block);
      InvShiftRowsIs(old(block[..]), block[..]);
    }

    static method RotateRow1(block: array<byte>)
      requires block.Length == 16
      modifies block
      ensures block[1] == old(block[13]) && block[5] == old(block[1]) && block[9] == old(block[5])
      ensures block[13] == old(block[9])
      ensures forall j | 0 <= j < 16 && j != 1 && j != 5 && j != 9 && j != 13 :: block[j] == old(block[j])
    {
      var b1 := block[13];
      block[13] := block[9];
      block[9] := block[5];
      block[5] := block[1];
      block[1] := b1;
    }

    static method RotateRow2(block: array<byte>)
      requires block.Length == 16
      modifies block
      ensures block[2] == old(block[10]) && block[6] == old(block[14]) && block[10] == old(block[2])
      ensures block[14] == old(block[6])
      ensures forall j | 0 <= j < 16 && j != 2 && j != 6 && j != 10 && j != 14 :: block[j] == old(block[j])
    {
      var b1 := block[10];
      var b2 := block[14];
      block[10] := block[2];
      block[14] := block[6];
      block[2] := b1;
      block[6] := b2;
    }

    static method RotateRow3(block: array<byte>)
      requires block.Length == 16
      modifies block
      ensures block[3] == old(block[7]) && block[7] == old(block[11]) && block[11] == old(block[15])
      ensures block[15] == old(block[3])
      ensures forall j | 0 <= j < 16 && j != 3 && j != 7 && j != 11 && j != 15 :: block[j] == old(block[j])
    {
      var b1 := block[3];
      block[3] := block[7];
      block[7] := block[11];
      block[11] := block[15];
      block[15] := b1;
    }

    /** The substitution and the addition of the key. */
    method SubstituteAndAdd(block: array<byte>, key: array<byte>)
      requires Tables() && block.Length == 16 && key.Length == 16
      requires block != key && block != sbox && block != sboxInv
      modifies block
      ensures block[..] == Add(Substitute(inv, old(block[..])), key[..])
    {
      var i := 0;
      while i < 16
        invariant 0 <= i <= 16 && Tables()
        invariant forall j | 0 <= j < i :: block[j] == Xor(inv(old(block[j])), key[j])
        invariant forall j | i <= j < 16 :: block[j] == old(block[j])
      {
        var s := Lookup(sboxInv, inv, block[i]);
        block[i] := Xor(s, key[i]);
        i := i + 1;
      }
    }

    /** One turn of the main loop. */
    method DecryptRound(block: array<byte>, key: array<byte>, round: nat)
      requires Tables() && block.Length == 16 && key.Length == 16 && round < 10
      requires block != key && block != sbox && block != sboxInv && key != sbox && key != sboxInv
      modifies block, key
      ensures key[..] == PreviousKey(sub, old(key[..]), Rcon(9 - round))
      ensures block[..] == Add(Unlayer(inv, if round > 0 then InvMixColumns(old(block[..])) else old(block[..])), key[..])
    {
      PreviousKeyInPlace(key, 9 - round);
      if round > 0 {
        InvMixInPlace(block);
      }
      UnlayerAndAdd(block, key);
    }

    method UnlayerAndAdd(block: array<byte>, key: array<byte>)
      requires Tables() && block.Length == 16 && key.Length == 16
      requires block != key && block != sbox && block != sboxInv
      modifies block
      ensures block[..] == Add(Unlayer(inv, old(block[..])), key[..])
    {
      InvShiftInPlace(block);
      SubstituteAndAdd(block, key);
    }

    /** The inverse cipher, in place; the key array is as before. */
    method DecryptBlock(block: array<byte>, key: array<byte>)
      requires Tables() && block.Length == 16 && key.Length == 16
      requires block != key && block != sbox && block != sboxInv && key != sbox && key != sboxInv
      modifies block, key
      ensures block[..] == InvCipher(sub, inv, old(key[..]), old(block[..])) && key[..] == old(key[..])
    {
      ghost var k, y := key[..], block[..];
      ghost var steps := AesSteps(sub, inv, k);
      LastKeyInPlace(key);
      AddInPlace(block, key);
      DecryptingFirst(sub, inv, k, y);
      var round := 0;
      while round < 10
        invariant 0 <= round <= 10 && key[..] == RoundKey(sub, k, 10 - round)
        invariant block[..] == Decrypting(steps, 10, y, round)
      {
        DecryptingNext(sub, inv, k, y, round);
        PreviousOfNext(sub, RoundKey(sub, k, 9 - round), Rcon(9 - round));
        DecryptRound(block, key, round);
        round := round + 1;
      }
    }

    // ---- Cipher block chaining ----

    constructor (hex: string)
      requires |hex| == 32
      ensures Valid() && cachedKey[..] == KeyOf(hex) && sub == SBox && inv == UnSBox && prevBlockPtr[..] == Zero()
      ensures fresh({cachedKey, currentKey, sbox, sboxInv, prevBlock, tempBlock})
    {
      cachedKey, currentKey := new byte[16], new byte[16];
      sbox, sboxInv := new byte[256], new byte[256];
      prevBlock, tempBlock := new byte[16], new byte[16];
      sub, inv := SBox, UnSBox;
      new;
      InitTables(sbox, sboxInv);
      LoadKey(cachedKey, hex);
      CopyBlock(currentKey, cachedKey);
      prevBlockPtr, tempBlockPtr := prevBlock, tempBlock;
      Reset();
    }

    static method LoadKey(key: array<byte>, hex: string)
      requires key.Length == 16 && |hex| == 32
      modifies key
      ensures key[..] == KeyOf(hex)
    {
      var i := 0;
      while i < 16
        invariant 0 <= i <= 16 && forall j: nat | j < i :: key[j] == KeyOf(hex)[j]
      {
        key[i] := FromDigits(HexToBin(hex[i * 2]), HexToBin(hex[i * 2 + 1]));
        i := i + 1;
      }
    }

    /** The tables are in place, the key is untouched, and the two blocks are told apart. */
    ghost predicate Valid()
      reads this, sbox, sboxInv, cachedKey, currentKey, prevBlock, tempBlock
    {
      && Tables() && cachedKey.Length == currentKey.Length == prevBlock.Length == tempBlock.Length == 16
      && {prevBlockPtr, tempBlockPtr} == {prevBlock, tempBlock} && prevBlock != tempBlock
      && currentKey[..] == cachedKey[..]
      && currentKey !in {cachedKey, prevBlock, tempBlock, sbox, sboxInv}
      && cachedKey !in {prevBlock, tempBlock} && prevBlock !in {sbox, sboxInv} && tempBlock !in {sbox, sboxInv}
    }

    method Reset()
      requires Valid()
      modifies this, currentKey, prevBlock, tempBlock
      ensures Valid() && prevBlockPtr[..] == Zero()
    {
      CopyBlock(currentKey, cachedKey);
      ClearBlock(prevBlock);
      ClearBlock(tempBlock);
      prevBlockPtr := prevBlock;
      tempBlockPtr := tempBlock;
    }

    static method CopyBlock(to: array<byte>, from: array<byte>)
      requires to.Length == 16 && from.Length == 16 && to != from
      modifies to
      ensures to[..] == from[..]
    {
      var i := 0;
      while i < 16
        invariant 0 <= i <= 16 && to[..i] == from[..i]
      {
        to[i] := from[i];
        i := i + 1;
      }
    }

    static method NewBlock(b: Block) returns (block: array<byte>)
      ensures fresh(block) && block[..] == b
    {
      block := new byte[16];
      var i := 0;
      while i < 16
        invariant 0 <= i <= 16 && block[..i] == b[..i]
      {
        block[i] := b[i];
        i := i + 1;
      }
    }

    static method ClearBlock(block: array<byte>)
      requires block.Length == 16
      modifies block
      ensures block[..] == Zero()
    {
      var i := 0;
      while i < 16
        invariant 0 <= i <= 16 && forall j | 0 <= j < i :: block[j] == 0
      {
        block[i] := 0;
        i := i + 1;
      }
    }

    /** The block is deciphered and the cipher block before it is added; then it is the one before. */
    method Decrypt(block: array<byte>)
      requires Valid() && block.Length == 16
      requires block !in {sbox, sboxInv, cachedKey, currentKey, prevBlock, tempBlock}
      modifies this, block, currentKey, prevBlock, tempBlock
      ensures Valid()
      ensures block[..] == Add(InvCipher(sub, inv, cachedKey[..], old(block[..])), old(prevBlockPtr[..]))
      ensures prevBlockPtr[..] == old(block[..])
    {
      CopyBlock(tempBlockPtr, block);
      DecryptBlock(block, currentKey);
      AddInPlace(block, prevBlockPtr);
      tempBlockPtr, prevBlockPtr := prevBlockPtr, tempBlockPtr;
    }

    /** A message after a reset. */
    method DecryptMessage(cipher: seq<Block>) returns (plain: seq<Block>)
      requires Valid()
      modifies this, currentKey, prevBlock, tempBlock
      ensures Valid()
      ensures plain == CbcDecrypt(Deciphering(sub, inv, cachedKey[..]), Zero(), cipher)
    {
      Reset();
      ghost var d := Deciphering(sub, inv, cachedKey[..]);
      plain := [];
      var i := 0;
      while i < |cipher|
        invariant 0 <= i <= |cipher| && Valid() && plain == CbcDecrypt(d, Zero(), cipher[..i])
        invariant prevBlockPtr[..] == if i == 0 then Zero() else cipher[i - 1]
      {
        var block := NewBlock(cipher[i]);
        Decrypt(block);
        CbcDecryptNext(d, Zero(), cipher, i);
        plain := plain + [block[..]];
        i := i + 1;
      }
      assert cipher[..i] == cipher;
    }
  }
}
