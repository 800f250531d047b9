/** The CRC-8 of serial packets: bit by bit, and by table. */
module Crc8 {
  import opened Bits
  import opened Folds

  /** One round for the register alone. */
  function Round(c: byte): byte {
    if c & 1 != 0 then ((c ^ 0x18) >> 1) | 0x80 else c >> 1
  }

  function Eight(c: byte): byte {
    Round(Round(Round(Round(Round(Round(Round(Round(c))))))))
  }

  /** One round of the bitwise loop: the register, and what is left of the data byte. */
  function RoundPair(s: (byte, byte)): (byte, byte) {
    (if (s.0 ^ s.1) & 1 != 0 then ((s.0 ^ 0x18) >> 1) | 0x80 else s.0 >> 1, s.1 >> 1)
  }

  function AddByte(c: byte, b: byte): byte {
    Iter(RoundPair, (c, b), 8).0
  }

  function Add(c: byte, bytes: seq<byte>): byte {
    Fold(AddByte, c, bytes)
  }

  /** A checksum can be continued: two pieces in turn give what their concatenation gives. */
  lemma AddConcat(c: byte, a: seq<byte>, b: seq<byte>)
    ensures Add(c, a + b) == Add(Add(c, a), b)
  {
    FoldConcat(AddByte, c, a, b);
  }

  /** Crc8::update. */
  method Update(checksum: byte, buffer: seq<byte>) returns (c: byte)
    ensures c == Add(checksum, buffer)
  {
    c := checksum;
    var i := 0;
    while i < |buffer|
      invariant i <= |buffer| && c == Add(checksum, buffer[..i])
    {
      FoldLast(AddByte, checksum, buffer, i);
      c := AddOneByte(c, buffer[i]);
      i := i + 1;
    }
    assert buffer[..i] == buffer;
  }

  /** The inner loop. */
  method AddOneByte(start: byte, b: byte) returns (c: byte)
    ensures c == AddByte(start, b)
  {
    c := start;
    var value := b;
    for bit := 0 to 8
      invariant (c, value) == Iter(RoundPair, (start, b), bit)
    {
      IterLast(RoundPair, (start, b), bit);
      if (c ^ value) & 1 != 0 {
        c := ((c ^ 0x18) >> 1) | 0x80;
      } else {
        c := c >> 1;
      }
      value := value >> 1;
    }
  }

  // ---- By table ----

  function Half(v: byte): byte { v >> 1 }

  lemma RoundMerged(a: byte, b: byte)
    ensures Xor(RoundPair((a, b)).0, RoundPair((a, b)).1) == Round(Xor(a, b))
  {
  }

  lemma RoundMerges()
    ensures Merges(RoundPair, Half, Xor, Round)
  {
    forall a: byte, b: byte {:trigger RoundPair((a, b))}
      ensures Xor(RoundPair((a, b)).0, RoundPair((a, b)).1) == Round(Xor(a, b))
    {
      RoundMerged(a, b);
    }
  }

  lemma EightHalves(b: byte)
    ensures Half(Half(Half(Half(Half(Half(Half(Half(b)))))))) == 0
  {
  }

  lemma AddByteMerged(c: byte, b: byte)
    ensures AddByte(c, b) == Eight(Xor(c, b))
  {
    RoundMerges();
    IterMerges(RoundPair, Half, Xor, Round, c, b, 8);
    IterEight(Half, b);
    EightHalves(b);
    IterEight(Round, Xor(c, b));
  }

  function Row0(i: byte): bv8 {
    match i
    case 0 => 0x00 case 1 => 0x5E case 2 => 0xBC case 3 => 0xE2
    case 4 => 0x61 case 5 => 0x3F case 6 => 0xDD case 7 => 0x83
    case 8 => 0xC2 case 9 => 0x9C case 10 => 0x7E case 11 => 0x20
    case 12 => 0xA3 case 13 => 0xFD case 14 => 0x1F case 15 => 0x41
    case _ => 0
  }

  function Row1(i: byte): bv8 {
    match i
    case 0 => 0x9D case 1 => 0xC3 case 2 => 0x21 case 3 => 0x7F
    case 4 => 0xFC case 5 => 0xA2 case 6 => 0x40 case 7 => 0x1E
    case 8 => 0x5F case 9 => 0x01 case 10 => 0xE3 case 11 => 0xBD
    case 12 => 0x3E case 13 => 0x60 case 14 => 0x82 case 15 => 0xDC
    case _ => 0
  }

  function Row2(i: byte): bv8 {
    match i
    case 0 => 0x23 case 1 => 0x7D case 2 => 0x9F case 3 => 0xC1
    case 4 => 0x42 case 5 => 0x1C case 6 => 0xFE case 7 => 0xA0
    case 8 => 0xE1 case 9 => 0xBF case 10 => 0x5D case 11 => 0x03
    case 12 => 0x80 case 13 => 0xDE case 14 => 0x3C case 15 => 0x62
    case _ => 0
  }

  function Row3(i: byte): bv8 {
    match i
    case 0 => 0xBE case 1 => 0xE0 case 2 => 0x02 case 3 => 0x5C
    case 4 => 0xDF case 5 => 0x81 case 6 => 0x63 case 7 => 0x3D
    case 8 => 0x7C case 9 => 0x22 case 10 => 0xC0 case 11 => 0x9E
    case 12 => 0x1D case 13 => 0x43 case 14 => 0xA1 case 15 => 0xFF
    case _ => 0
  }

  function Row4(i: byte): bv8 {
    match i
    case 0 => 0x46 case 1 => 0x18 case 2 => 0xFA case 3 => 0xA4
    case 4 => 0x27 case 5 => 0x79 case 6 => 0x9B case 7 => 0xC5
    case 8 => 0x84 case 9 => 0xDA case 10 => 0x38 case 11 => 0x66
    case 12 => 0xE5 case 13 => 0xBB case 14 => 0x59 case 15 => 0x07
    case _ => 0
  }

  function Row5(i: byte): bv8 {
    match i
    case 0 => 0xDB case 1 => 0x85 case 2 => 0x67 case 3 => 0x39
    case 4 => 0xBA case 5 => 0xE4 case 6 => 0x06 case 7 => 0x58
    case 8 => 0x19 case 9 => 0x47 case 10 => 0xA5 case 11 => 0xFB
    case 12 => 0x78 case 13 => 0x26 case 14 => 0xC4 case 15 => 0x9A
    case _ => 0
  }

  function Row6(i: byte): bv8 {
    match i
    case 0 => 0x65 case 1 => 0x3B case 2 => 0xD9 case 3 => 0x87
    case 4 => 0x04 case 5 => 0x5A case 6 => 0xB8 case 7 => 0xE6
    case 8 => 0xA7 case 9 => 0xF9 case 10 => 0x1B case 11 => 0x45
    case 12 => 0xC6 case 13 => 0x98 case 14 => 0x7A case 15 => 0x24
    case _ => 0
  }

  function Row7(i: byte): bv8 {
    match i
    case 0 => 0xF8 case 1 => 0xA6 case 2 => 0x44 case 3 => 0x1A
    case 4 => 0x99 case 5 => 0xC7 case 6 => 0x25 case 7 => 0x7B
    case 8 => 0x3A case 9 => 0x64 case 10 => 0x86 case 11 => 0xD8
    case 12 => 0x5B case 13 => 0x05 case 14 => 0xE7 case 15 => 0xB9
    case _ => 0
  }

  function Row8(i: byte): bv8 {
    match i
    case 0 => 0x8C case 1 => 0xD2 case 2 => 0x30 case 3 => 0x6E
    case 4 => 0xED case 5 => 0xB3 case 6 => 0x51 case 7 => 0x0F
    case 8 => 0x4E case 9 => 0x10 case 10 => 0xF2 case 11 => 0xAC
    case 12 => 0x2F case 13 => 0x71 case 14 => 0x93 case 15 => 0xCD
    case _ => 0
  }

  function Row9(i: byte): bv8 {
    match i
    case 0 => 0x11 case 1 => 0x4F case 2 => 0xAD case 3 => 0xF3
    case 4 => 0x70 case 5 => 0x2E case 6 => 0xCC case 7 => 0x92
    case 8 => 0xD3 case 9 => 0x8D case 10 => 0x6F case 11 => 0x31
    case 12 => 0xB2 case 13 => 0xEC case 14 => 0x0E case 15 => 0x50
    case _ => 0
  }

  function RowA(i: byte): bv8 {
    match i
    case 0 => 0xAF case 1 => 0xF1 case 2 => 0x13 case 3 => 0x4D
    case 4 => 0xCE case 5 => 0x90 case 6 => 0x72 case 7 => 0x2C
    case 8 => 0x6D case 9 => 0x33 case 10 => 0xD1 case 11 => 0x8F
    case 12 => 0x0C case 13 => 0x52 case 14 => 0xB0 case 15 => 0xEE
    case _ => 0
  }

  function RowB(i: byte): bv8 {
    match i
    case 0 => 0x32 case 1 => 0x6C case 2 => 0x8E case 3 => 0xD0
    case 4 => 0x53 case 5 => 0x0D case 6 => 0xEF case 7 => 0xB1
    case 8 => 0xF0 case 9 => 0xAE case 10 => 0x4C case 11 => 0x12
    case 12 => 0x91 case 13 => 0xCF case 14 => 0x2D case 15 => 0x73
    case _ => 0
  }

  function RowC(i: byte): bv8 {
    match i
    case 0 => 0xCA case 1 => 0x94 case 2 => 0x76 case 3 => 0x28
    case 4 => 0xAB case 5 => 0xF5 case 6 => 0x17 case 7 => 0x49
    case 8 => 0x08 case 9 => 0x56 case 10 => 0xB4 case 11 => 0xEA
    case 12 => 0x69 case 13 => 0x37 case 14 => 0xD5 case 15 => 0x8B
    case _ => 0
  }

  function RowD(i: byte): bv8 {
    match i
    case 0 => 0x57 case 1 => 0x09 case 2 => 0xEB case 3 => 0xB5
    case 4 => 0x36 case 5 => 0x68 case 6 => 0x8A case 7 => 0xD4
    case 8 => 0x95 case 9 => 0xCB case 10 => 0x29 case 11 => 0x77
    case 12 => 0xF4 case 13 => 0xAA case 14 => 0x48 case 15 => 0x16
    case _ => 0
  }

  function RowE(i: byte): bv8 {
    match i
    case 0 => 0xE9 case 1 => 0xB7 case 2 => 0x55 case 3 => 0x0B
    case 4 => 0x88 case 5 => 0xD6 case 6 => 0x34 case 7 => 0x6A
    case 8 => 0x2B case 9 => 0x75 case 10 => 0x97 case 11 => 0xC9
    case 12 => 0x4A case 13 => 0x14 case 14 => 0xF6 case 15 => 0xA8
    case _ => 0
  }

  function RowF(i: byte): bv8 {
    match i
    case 0 => 0x74 case 1 => 0x2A case 2 => 0xC8 case 3 => 0x96
    case 4 => 0x15 case 5 => 0x4B case 6 => 0xA9 case 7 => 0xF7
    case 8 => 0xB6 case 9 => 0xE8 case 10 => 0x0A case 11 => 0x54
    case 12 => 0xD7 case 13 => 0x89 case 14 => 0x6B case 15 => 0x35
    case _ => 0
  }

  /** The lookup table, row by row. */
  function Table(i: byte): bv8 {
    var row, column := i >> 4, i & 0xF;
    match row
    case 0 => Row0(column)
    case 1 => Row1(column)
    case 2 => Row2(column)
    case 3 => Row3(column)
    case 4 => Row4(column)
    case 5 => Row5(column)
    case 6 => Row6(column)
    case 7 => Row7(column)
    case 8 => Row8(column)
    case 9 => Row9(column)
    case 10 => RowA(column)
    case 11 => RowB(column)
    case 12 => RowC(column)
    case 13 => RowD(column)
    case 14 => RowE(column)
    case _ => RowF(column)
  }

  lemma Row0Is(i: byte)
    requires i < 16
    ensures Row0(i) == Eight(0x00 | i)
  {
  }

  lemma Row1Is(i: byte)
    requires i < 16
    ensures Row1(i) == Eight(0x10 | i)
  {
  }

  lemma Row2Is(i: byte)
    requires i < 16
    ensures Row2(i) == Eight(0x20 | i)
  {
  }

  lemma Row3Is(i: byte)
    requires i < 16
    ensures Row3(i) == Eight(0x30 | i)
  {
  }

  lemma Row4Is(i: byte)
    requires i < 16
    ensures Row4(i) == Eight(0x40 | i)
  {
  }

  lemma Row5Is(i: byte)
    requires i < 16
    ensures Row5(i) == Eight(0x50 | i)
  {
  }

  lemma Row6Is(i: byte)
    requires i < 16
    ensures Row6(i) == Eight(0x60 | i)
  {
  }

  lemma Row7Is(i: byte)
    requires i < 16
    ensures Row7(i) == Eight(0x70 | i)
  {
  }

  lemma Row8Is(i: byte)
    requires i < 16
    ensures Row8(i) == Eight(0x80 | i)
  {
  }

  lemma Row9Is(i: byte)
    requires i < 16
    ensures Row9(i) == Eight(0x90 | i)
  {
  }

  lemma RowAIs(i: byte)
    requires i < 16
    ensures RowA(i) == Eight(0xA0 | i)
  {
  }

  lemma RowBIs(i: byte)
    requires i < 16
    ensures RowB(i) == Eight(0xB0 | i)
  {
  }

  lemma RowCIs(i: byte)
    requires i < 16
    ensures RowC(i) == Eight(0xC0 | i)
  {
  }

  lemma RowDIs(i: byte)
    requires i < 16
    ensures RowD(i) == Eight(0xD0 | i)
  {
  }

  lemma RowEIs(i: byte)
    requires i < 16
    ensures RowE(i) == Eight(0xE0 | i)
  {
  }

  lemma RowFIs(i: byte)
    requires i < 16
    ensures RowF(i) == Eight(0xF0 | i)
  {
  }

  /** The table holds what eight rounds make of each byte. */
  lemma TableIs(i: byte)
    ensures Table(i) == Eight(i)
  {
    var row, column := i >> 4, i & 0xF;
    assert i == (row << 4) | column;
    if row == 0 {
      Row0Is(column);
    } else if row == 1 {
      Row1Is(column);
    } else if row == 2 {
      Row2Is(column);
    } else if row == 3 {
      Row3Is(column);
    } else if row == 4 {
      Row4Is(column);
    } else if row == 5 {
      Row5Is(column);
    } else if row == 6 {
      Row6Is(column);
    } else if row == 7 {
      Row7Is(column);
    } else if row == 8 {
      Row8Is(column);
    } else if row == 9 {
      Row9Is(column);
    } else if row == 10 {
      RowAIs(column);
    } else if row == 11 {
      RowBIs(column);
    } else if row == 12 {
      RowCIs(column);
    } else if row == 13 {
      RowDIs(column);
    } else if row == 14 {
      RowEIs(column);
    } else {
      RowFIs(column);
    }
  }

  function FastStep(c: byte, b: byte): byte { Table(c ^ b) }

  lemma AddByteByTable(c: byte, b: byte)
    ensures AddByte(c, b) == FastStep(c, b)
  {
    AddByteMerged(c, b);
    TableIs(c ^ b);
  }

  /** FastCrc8::update equals Crc8::update for every seed and buffer. */
  method FastUpdate(checksum: byte, buffer: seq<byte>) returns (c: byte)
    ensures c == Add(checksum, buffer)
  {
    c := checksum;
    var i := 0;
    while i < |buffer|
      invariant i <= |buffer| && c == Add(checksum, buffer[..i])
    {
      FoldLast(AddByte, checksum, buffer, i);
      AddByteByTable(c, buffer[i]);
      c := FastStep(c, buffer[i]);
      i := i + 1;
    }
    assert buffer[..i] == buffer;
  }

  // ---- What the checksum detects ----

  /** Undoing a round. */
  function Unround(c: byte): byte {
    if c & 0x80 != 0 then ((c << 1) ^ 0x18) | 1 else c << 1
  }

  lemma RoundUndone(c: byte)
    ensures Unround(Round(c)) == c
  {
  }

  lemma {:induction false} EightOfByte(x: byte, y: byte)
    requires Eight(x) == Eight(y)
    ensures x == y
  {
    IterEight(Round, x);
    IterEight(Round, y);
    forall z: byte ensures Unround(Round(z)) == z {
      RoundUndone(z);
    }
    IterInjective(Round, Unround, x, y, 8);
  }

  lemma XorCancels(a: byte, b: byte, c: byte)
    ensures Xor(a, c) == Xor(b, c) ==> a == b
    ensures Xor(c, a) == Xor(c, b) ==> a == b
  {
  }

  /** A step is injective in the register and in the byte. */
  lemma StepInjective()
    ensures Injective(AddByte)
  {
    forall r: byte, s: byte, b: byte {:trigger AddByte(r, b), AddByte(s, b)} | AddByte(r, b) == AddByte(s, b) ensures r == s {
      AddByteMerged(r, b);
      AddByteMerged(s, b);
      EightOfByte(Xor(r, b), Xor(s, b));
      XorCancels(r, s, b);
    }
    forall r: byte, a: byte, b: byte {:trigger AddByte(r, a), AddByte(r, b)} | AddByte(r, a) == AddByte(r, b) ensures a == b {
      AddByteMerged(r, a);
      AddByteMerged(r, b);
      EightOfByte(Xor(r, a), Xor(r, b));
      XorCancels(a, b, r);
    }
  }

  /** Changing one byte always changes the checksum. */
  lemma OneByteIsDetected(checksum: byte, bytes: seq<byte>, i: nat, b: byte)
    requires i < |bytes| && b != bytes[i]
    ensures Add(checksum, bytes[i := b]) != Add(checksum, bytes)
  {
    StepInjective();
    OneChange(AddByte, checksum, bytes, i, b);
  }
}
