/** The transfer CRC of the CAN transport: CRC-16-CCITT, bit by bit. */
module TransferCrc {
  import opened Bits
  import opened Folds

  /** One round of the bit loop. */
  function ShiftOnce(crc: bv16): bv16 {
    if crc & 0x8000 != 0 then (crc << 1) ^ 0x1021 else crc << 1
  }

  /** The register with the data byte on its upper half. */
  function WithByte(crc: bv16, b: byte): bv16 { crc ^ ((b as bv16) << 8) }

  function AddByte(crc: bv16, b: byte): bv16 {
    Iter(ShiftOnce, WithByte(crc, b), 8)
  }

  function Add(crc: bv16, bytes: seq<byte>): bv16
    decreases |bytes|
  {
    if bytes == [] then crc else Add(AddByte(crc, bytes[0]), bytes[1..])
  }

  /** The signature without its i lowest bytes. */
  function DropBytes(signature: bv64, i: nat): bv64
    decreases i
  {
    if i == 0 then signature else DropBytes(signature >> 8, i - 1)
  }

  function SignatureByte(signature: bv64, i: nat): byte {
    (DropBytes(signature, i) & 0xFF) as bv8
  }

  function SignatureBytes(signature: bv64): seq<byte> {
    seq(8, i requires i >= 0 => SignatureByte(signature, i))
  }

  function AddSignature(crc: bv16, signature: bv64): bv16 {
    Add(crc, SignatureBytes(signature))
  }

  /** A number put together from its bytes, the lowest first. */
  function Joined(bytes: seq<byte>): bv64 {
    if bytes == [] then 0 else (bytes[0] as bv64) | (Joined(bytes[1..]) << 8)
  }

  lemma Rejoined(v: bv64)
    ensures (((v & 0xFF) as bv8) as bv64) | ((v >> 8) << 8) == v
  {
  }

  function Dropped(v: bv64): bv64 { v >> 8 }

  lemma NothingLeft(v: bv64)
    ensures Dropped(Dropped(Dropped(Dropped(Dropped(Dropped(Dropped(Dropped(v)))))))) == 0
  {
  }

  lemma {:induction false} DropsEight(v: bv64)
    ensures DropBytes(v, 8) == 0
  {
    var v1 := Dropped(v); var v2 := Dropped(v1); var v3 := Dropped(v2); var v4 := Dropped(v3);
    var v5 := Dropped(v4); var v6 := Dropped(v5); var v7 := Dropped(v6); var v8 := Dropped(v7);
    NothingLeft(v);
    assert DropBytes(v8, 0) == v8;
    assert DropBytes(v7, 1) == v8;
    assert DropBytes(v6, 2) == v8;
    assert DropBytes(v5, 3) == v8;
    assert DropBytes(v4, 4) == v8;
    assert DropBytes(v3, 5) == v8;
    assert DropBytes(v2, 6) == v8;
    assert DropBytes(v1, 7) == v8;
  }

  lemma {:induction false} JoinedAgain(v: bv64, n: nat)
    requires DropBytes(v, n) == 0
    ensures Joined(seq(n, i requires i >= 0 => SignatureByte(v, i))) == v
    decreases n
  {
    if n > 0 {
      var w := Dropped(v);
      JoinedAgain(w, n - 1);
      var all, rest := seq(n, i requires i >= 0 => SignatureByte(v, i)), seq(n - 1, i requires i >= 0 => SignatureByte(w, i));
      assert all[1..] == rest;
      Rejoined(v);
    }
  }

  /** The bytes that enter the checksum are those of the signature, the lowest first. */
  lemma SignatureInOrder(signature: bv64)
    ensures |SignatureBytes(signature)| == 8 && Joined(SignatureBytes(signature)) == signature
  {
    DropsEight(signature);
    JoinedAgain(signature, 8);
  }

  lemma {:induction false} AddIsFold(crc: bv16, bytes: seq<byte>)
    ensures Add(crc, bytes) == Fold(AddByte, crc, bytes)
    decreases |bytes|
  {
    if bytes != [] {
      AddIsFold(AddByte(crc, bytes[0]), bytes[1..]);
    }
  }

  /** Checksums can be continued: adding two pieces in turn is adding their concatenation. */
  lemma {:induction false} AddConcat(crc: bv16, a: seq<byte>, b: seq<byte>)
    ensures Add(crc, a + b) == Add(Add(crc, a), b)
  {
    AddIsFold(crc, a + b);
    AddIsFold(crc, a);
    AddIsFold(Add(crc, a), b);
    FoldConcat(AddByte, crc, a, b);
  }

  lemma {:induction false} AddLast(crc: bv16, bytes: seq<byte>, n: nat)
    requires n < |bytes|
    ensures Add(crc, bytes[..n + 1]) == AddByte(Add(crc, bytes[..n]), bytes[n])
  {
    AddIsFold(crc, bytes[..n + 1]);
    AddIsFold(crc, bytes[..n]);
    FoldLast(AddByte, crc, bytes, n);
  }

  /** crcAddByte. */
  method CrcAddByte(crc: bv16, b: byte) returns (r: bv16)
    ensures r == AddByte(crc, b)
  {
    r := WithByte(crc, b);
    ghost var start := r;
    for j := 0 to 8
      invariant r == Iter(ShiftOnce, start, j)
    {
      IterLast(ShiftOnce, start, j);
      r := ShiftOnce(r);
    }
  }

  /** crcAddSignature. */
  method CrcAddSignature(crc: bv16, signature: bv64) returns (r: bv16)
    ensures r == AddSignature(crc, signature)
  {
    r := crc;
    var shift := 0;
    ghost var all := SignatureBytes(signature);
    while shift < 64
      invariant 0 <= shift <= 64 && shift % 8 == 0
      invariant r == Add(crc, all[..shift / 8])
    {
      AddLast(crc, all, shift / 8);
      r := CrcAddByte(r, SignatureByte(signature, shift / 8));
      shift := shift + 8;
    }
    assert all[..8] == all;
  }

  /** crcAdd. */
  method CrcAdd(crc: bv16, bytes: seq<byte>) returns (r: bv16)
    ensures r == Add(crc, bytes)
  {
    r := crc;
    var i := 0;
    while i < |bytes|
      invariant i <= |bytes| && r == Add(crc, bytes[..i])
    {
      AddLast(crc, bytes, i);
      r := CrcAddByte(r, bytes[i]);
      i := i + 1;
    }
    assert bytes[..i] == bytes;
  }

  // ---- What the checksum detects ----

  /** Undoing a round. */
  function Unshift(c: bv16): bv16 {
    if c & 1 != 0 then ((c ^ 0x1021) >> 1) | 0x8000 else c >> 1
  }

  lemma LowBit(c: bv16)
    ensures ((c << 1) ^ 0x1021) & 1 != 0 && (c << 1) & 1 == 0
  {
  }

  lemma XorTwice(c: bv16)
    ensures (c ^ 0x1021) ^ 0x1021 == c
  {
  }

  lemma UpAndDown(c: bv16)
    ensures if c & 0x8000 != 0 then ((c << 1) >> 1) | 0x8000 == c else (c << 1) >> 1 == c
  {
  }

  lemma DownAndUp(c: bv16)
    ensures if c & 1 != 0 then (((c ^ 0x1021) >> 1) | 0x8000) << 1 == c ^ 0x1021 else (c >> 1) << 1 == c
  {
  }

  lemma TopBit(c: bv16)
    ensures (c | 0x8000) & 0x8000 != 0 && (c >> 1) & 0x8000 == 0
  {
  }

  lemma ShiftUndone(c: bv16)
    ensures Unshift(ShiftOnce(c)) == c
  {
    LowBit(c);
    XorTwice(c << 1);
    UpAndDown(c);
  }

  lemma UnshiftUndone(c: bv16)
    ensures ShiftOnce(Unshift(c)) == c
  {
    DownAndUp(c);
    TopBit((c ^ 0x1021) >> 1);
    TopBit(c);
    XorTwice(c);
  }

  lemma RegisterCancels(c: bv16, d: bv16, a: byte)
    ensures WithByte(c, a) == WithByte(d, a) ==> c == d
  {
  }

  lemma ByteCancels(c: bv16, a: byte, b: byte)
    ensures WithByte(c, a) == WithByte(c, b) ==> a == b
  {
  }

  lemma {:induction false} EightShifts(x: bv16, y: bv16)
    requires Iter(ShiftOnce, x, 8) == Iter(ShiftOnce, y, 8)
    ensures x == y
  {
    forall z: bv16 ensures Unshift(ShiftOnce(z)) == z {
      ShiftUndone(z);
    }
    IterInjective(ShiftOnce, Unshift, x, y, 8);
  }

  /** A step is injective in the register and in the byte. */
  lemma StepInjective()
    ensures Injective(AddByte)
  {
    forall r: bv16, s: bv16, b: byte {:trigger AddByte(r, b), AddByte(s, b)} | AddByte(r, b) == AddByte(s, b) ensures r == s {
      EightShifts(WithByte(r, b), WithByte(s, b));
      RegisterCancels(r, s, b);
    }
    forall r: bv16, a: byte, b: byte {:trigger AddByte(r, a), AddByte(r, b)} | AddByte(r, a) == AddByte(r, b) ensures a == b {
      EightShifts(WithByte(r, a), WithByte(r, b));
      ByteCancels(r, a, b);
    }
  }

  /** Changing one byte always changes the checksum. */
  lemma {:induction false} OneByteIsDetected(crc: bv16, bytes: seq<byte>, i: nat, b: byte)
    requires i < |bytes| && b != bytes[i]
    ensures Add(crc, bytes[i := b]) != Add(crc, bytes)
  {
    StepInjective();
    OneChange(AddByte, crc, bytes, i, b);
    AddIsFold(crc, bytes);
    AddIsFold(crc, bytes[i := b]);
  }

  /** Two registers agree after the same bytes exactly if they agreed before. */
  lemma {:induction false} RegistersAgree(c: bv16, d: bv16, bytes: seq<byte>)
    ensures Add(c, bytes) == Add(d, bytes) <==> c == d
  {
    StepInjective();
    AddIsFold(c, bytes);
    AddIsFold(d, bytes);
    if c != d {
      FoldApart(AddByte, c, d, bytes);
    }
  }
}
