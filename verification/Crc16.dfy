/** The CRC-16 of the platform library: the bitwise loop and the table-driven one compute the transfer CRC of the bus. */
module Crc16 {
  import opened Bits
  import opened Folds
  import opened TransferCrc

  /** Crc16::update: the same polynomial and the same loop as the transfer CRC. */
  method Update(checksum: bv16, buffer: seq<byte>) returns (c: bv16)
    ensures c == Add(checksum, buffer)
  {
    c := checksum;
    var i := 0;
    while i < |buffer|
      invariant i <= |buffer| && c == Add(checksum, buffer[..i])
    {
      AddLast(checksum, buffer, i);
      c := EightRounds(WithByte(c, buffer[i]));
      i := i + 1;
    }
    assert buffer[..i] == buffer;
  }

  /** The inner loop. */
  method EightRounds(start: bv16) returns (c: bv16)
    ensures c == Iter(ShiftOnce, start, 8)
  {
    c := start;
    for bit := 0 to 8
      invariant c == Iter(ShiftOnce, start, bit)
    {
      IterLast(ShiftOnce, start, bit);
      c := ShiftOnce(c);
    }
  }

  // ---- By table ----

  function Xor(x: bv16, y: bv16): bv16 { x ^ y }

  lemma DoubleXor(x: bv16, y: bv16)
    ensures (x ^ y) << 1 == (x << 1) ^ (y << 1)
    ensures ((x << 1) ^ 0x1021) ^ (y << 1) == ((x ^ y) << 1) ^ 0x1021
    ensures (x << 1) ^ ((y << 1) ^ 0x1021) == ((x ^ y) << 1) ^ 0x1021
    ensures ((x << 1) ^ 0x1021) ^ ((y << 1) ^ 0x1021) == (x ^ y) << 1
  {
  }

  lemma TopBits(x: bv16, y: bv16)
    ensures (x ^ y) & 0x8000 == (x & 0x8000) ^ (y & 0x8000)
    ensures (x & 0x8000 == 0 || x & 0x8000 == 0x8000) && (y & 0x8000 == 0 || y & 0x8000 == 0x8000)
  {
  }

  lemma OneBit()
    ensures (0x8000 as bv16) ^ 0x8000 == 0 && (0x8000 as bv16) ^ 0 == 0x8000 && (0 as bv16) ^ 0x8000 == 0x8000
    ensures (0 as bv16) ^ 0 == 0
  {
  }

  lemma ShiftIsLinear(x: bv16, y: bv16)
    ensures ShiftOnce(x ^ y) == ShiftOnce(x) ^ ShiftOnce(y)
  {
    DoubleXor(x, y);
    TopBits(x, y);
    OneBit();
  }

  lemma ShiftLinear()
    ensures Linear(ShiftOnce, Xor)
  {
    forall x: bv16, y: bv16 {:trigger Xor(x, y)} ensures ShiftOnce(Xor(x, y)) == Xor(ShiftOnce(x), ShiftOnce(y)) {
      ShiftIsLinear(x, y);
    }
  }

  function Eight(c: bv16): bv16 {
    ShiftOnce(ShiftOnce(ShiftOnce(ShiftOnce(ShiftOnce(ShiftOnce(ShiftOnce(ShiftOnce(c))))))))
  }

  lemma {:induction false} IterIsEight(c: bv16)
    ensures Iter(ShiftOnce, c, 8) == Eight(c)
  {
    IterEight(ShiftOnce, c);
  }

  /** A low byte is only moved up. */
  lemma EightOfLow(c: bv16)
    requires c & 0xFF00 == 0
    ensures Eight(c) == c << 8
  {
  }

  lemma LowPart(c: bv16)
    ensures (c & 0xFF) & 0xFF00 == 0 && (c & 0xFF) << 8 == c << 8
  {
  }

  lemma LowIter(c: bv16)
    ensures Iter(ShiftOnce, c & 0xFF, 8) == c << 8
  {
    LowPart(c);
    EightOfLow(c & 0xFF);
    IterIsEight(c & 0xFF);
  }

  lemma SplitByte(c: bv16, b: byte)
    ensures WithByte(c, b) == Xor((((((c >> 8) & 0xFF) as bv8) ^ b) as bv16) << 8, c & 0xFF)
  {
  }

  /** The lookup table, in rows of sixteen. */
  function Row(row: byte): (r: seq<bv16>)
    ensures |r| == 16
  {
    match row
    case 0 => [0x0000, 0x1021, 0x2042, 0x3063, 0x4084, 0x50A5, 0x60C6, 0x70E7,
               0x8108, 0x9129, 0xA14A, 0xB16B, 0xC18C, 0xD1AD, 0xE1CE, 0xF1EF]
    case 1 => [0x1231, 0x0210, 0x3273, 0x2252, 0x52B5, 0x4294, 0x72F7, 0x62D6,
               0x9339, 0x8318, 0xB37B, 0xA35A, 0xD3BD, 0xC39C, 0xF3FF, 0xE3DE]
    case 2 => [0x2462, 0x3443, 0x0420, 0x1401, 0x64E6, 0x74C7, 0x44A4, 0x5485,
               0xA56A, 0xB54B, 0x8528, 0x9509, 0xE5EE, 0xF5CF, 0xC5AC, 0xD58D]
    case 3 => [0x3653, 0x2672, 0x1611, 0x0630, 0x76D7, 0x66F6, 0x5695, 0x46B4,
               0xB75B, 0xA77A, 0x9719, 0x8738, 0xF7DF, 0xE7FE, 0xD79D, 0xC7BC]
    case 4 => [0x48C4, 0x58E5, 0x6886, 0x78A7, 0x0840, 0x1861, 0x2802, 0x3823,
               0xC9CC, 0xD9ED, 0xE98E, 0xF9AF, 0x8948, 0x9969, 0xA90A, 0xB92B]
    case 5 => [0x5AF5, 0x4AD4, 0x7AB7, 0x6A96, 0x1A71, 0x0A50, 0x3A33, 0x2A12,
               0xDBFD, 0xCBDC, 0xFBBF, 0xEB9E, 0x9B79, 0x8B58, 0xBB3B, 0xAB1A]
    case 6 => [0x6CA6, 0x7C87, 0x4CE4, 0x5CC5, 0x2C22, 0x3C03, 0x0C60, 0x1C41,
               0xEDAE, 0xFD8F, 0xCDEC, 0xDDCD, 0xAD2A, 0xBD0B, 0x8D68, 0x9D49]
    case 7 => [0x7E97, 0x6EB6, 0x5ED5, 0x4EF4, 0x3E13, 0x2E32, 0x1E51, 0x0E70,
               0xFF9F, 0xEFBE, 0xDFDD, 0xCFFC, 0xBF1B, 0xAF3A, 0x9F59, 0x8F78]
    case 8 => [0x9188, 0x81A9, 0xB1CA, 0xA1EB, 0xD10C, 0xC12D, 0xF14E, 0xE16F,
               0x1080, 0x00A1, 0x30C2, 0x20E3, 0x5004, 0x4025, 0x7046, 0x6067]
    case 9 => [0x83B9, 0x9398, 0xA3FB, 0xB3DA, 0xC33D, 0xD31C, 0xE37F, 0xF35E,
               0x02B1, 0x1290, 0x22F3, 0x32D2, 0x4235, 0x5214, 0x6277, 0x7256]
    case 10 => [0xB5EA, 0xA5CB, 0x95A8, 0x8589, 0xF56E, 0xE54F, 0xD52C, 0xC50D,
               0x34E2, 0x24C3, 0x14A0, 0x0481, 0x7466, 0x6447, 0x5424, 0x4405]
    case 11 => [0xA7DB, 0xB7FA, 0x8799, 0x97B8, 0xE75F, 0xF77E, 0xC71D, 0xD73C,
               0x26D3, 0x36F2, 0x0691, 0x16B0, 0x6657, 0x7676, 0x4615, 0x5634]
    case 12 => [0xD94C, 0xC96D, 0xF90E, 0xE92F, 0x99C8, 0x89E9, 0xB98A, 0xA9AB,
               0x5844, 0x4865, 0x7806, 0x6827, 0x18C0, 0x08E1, 0x3882, 0x28A3]
    case 13 => [0xCB7D, 0xDB5C, 0xEB3F, 0xFB1E, 0x8BF9, 0x9BD8, 0xABBB, 0xBB9A,
               0x4A75, 0x5A54, 0x6A37, 0x7A16, 0x0AF1, 0x1AD0, 0x2AB3, 0x3A92]
    case 14 => [0xFD2E, 0xED0F, 0xDD6C, 0xCD4D, 0xBDAA, 0xAD8B, 0x9DE8, 0x8DC9,
               0x7C26, 0x6C07, 0x5C64, 0x4C45, 0x3CA2, 0x2C83, 0x1CE0, 0x0CC1]
    case _ => [0xEF1F, 0xFF3E, 0xCF5D, 0xDF7C, 0xAF9B, 0xBFBA, 0x8FD9, 0x9FF8,
               0x6E17, 0x7E36, 0x4E55, 0x5E74, 0x2E93, 0x3EB2, 0x0ED1, 0x1EF0]
  }

  function Table(i: byte): bv16 { Row(i >> 4)[(i & 0xF) as nat] }

  lemma Columns(i: byte)
    ensures var c := i & 0xF;
            c == 0 || c == 1 || c == 2 || c == 3 || c == 4 || c == 5 || c == 6 || c == 7
            || c == 8 || c == 9 || c == 10 || c == 11 || c == 12 || c == 13 || c == 14 || c == 15
  {
  }

  lemma Row0Is(i: byte)
    requires i >> 4 == 0
    ensures Table(i) == Eight((i as bv16) << 8)
  {
    Columns(i);
  }

  lemma Row1Is(i: byte)
    requires i >> 4 == 1
    ensures Table(i) == Eight((i as bv16) << 8)
  {
    Columns(i);
  }

  lemma Row2Is(i: byte)
    requires i >> 4 == 2
    ensures Table(i) == Eight((i as bv16) << 8)
  {
    Columns(i);
  }

  lemma Row3Is(i: byte)
    requires i >> 4 == 3
    ensures Table(i) == Eight((i as bv16) << 8)
  {
    Columns(i);
  }

  lemma Row4Is(i: byte)
    requires i >> 4 == 4
    ensures Table(i) == Eight((i as bv16) << 8)
  {
    Columns(i);
  }

  lemma Row5Is(i: byte)
    requires i >> 4 == 5
    ensures Table(i) == Eight((i as bv16) << 8)
  {
    Columns(i);
  }

  lemma Row6Is(i: byte)
    requires i >> 4 == 6
    ensures Table(i) == Eight((i as bv16) << 8)
  {
    Columns(i);
  }

  lemma Row7Is(i: byte)
    requires i >> 4 == 7
    ensures Table(i) == Eight((i as bv16) << 8)
  {
    Columns(i);
  }

  lemma Row8Is(i: byte)
    requires i >> 4 == 8
    ensures Table(i) == Eight((i as bv16) << 8)
  {
    Columns(i);
  }

  lemma Row9Is(i: byte)
    requires i >> 4 == 9
    ensures Table(i) == Eight((i as bv16) << 8)
  {
    Columns(i);
  }

  lemma RowAIs(i: byte)
    requires i >> 4 == 10
    ensures Table(i) == Eight((i as bv16) << 8)
  {
    Columns(i);
  }

  lemma RowBIs(i: byte)
    requires i >> 4 == 11
    ensures Table(i) == Eight((i as bv16) << 8)
  {
    Columns(i);
  }

  lemma RowCIs(i: byte)
    requires i >> 4 == 12
    ensures Table(i) == Eight((i as bv16) << 8)
  {
    Columns(i);
  }

  lemma RowDIs(i: byte)
    requires i >> 4 == 13
    ensures Table(i) == Eight((i as bv16) << 8)
  {
    Columns(i);
  }

  lemma RowEIs(i: byte)
    requires i >> 4 == 14
    ensures Table(i) == Eight((i as bv16) << 8)
  {
    Columns(i);
  }

  lemma RowFIs(i: byte)
    requires i >> 4 == 15
    ensures Table(i) == Eight((i as bv16) << 8)
  {
    Columns(i);
  }

  /** The table holds what eight rounds make of each byte. */
  lemma TableIs(i: byte)
    ensures Table(i) == Eight((i as bv16) << 8)
  {
    var row := i >> 4;
    if row == 0 {
      Row0Is(i);
    } else if row == 1 {
      Row1Is(i);
    } else if row == 2 {
      Row2Is(i);
    } else if row == 3 {
      Row3Is(i);
    } else if row == 4 {
      Row4Is(i);
    } else if row == 5 {
      Row5Is(i);
    } else if row == 6 {
      Row6Is(i);
    } else if row == 7 {
      Row7Is(i);
    } else if row == 8 {
      Row8Is(i);
    } else if row == 9 {
      Row9Is(i);
    } else if row == 10 {
      RowAIs(i);
    } else if row == 11 {
      RowBIs(i);
    } else if row == 12 {
      RowCIs(i);
    } else if row == 13 {
      RowDIs(i);
    } else if row == 14 {
      RowEIs(i);
    } else {
      assert row == 15;
      RowFIs(i);
    }
  }

  lemma {:induction false} IterOfByte(i: byte)
    ensures Iter(ShiftOnce, (i as bv16) << 8, 8) == Table(i)
  {
    TableIs(i);
    IterIsEight((i as bv16) << 8);
  }

  lemma {:induction false} ShiftParts(whole: bv16, x: bv16, y: bv16, fx: bv16, fy: bv16)
    requires whole == Xor(x, y) && Iter(ShiftOnce, x, 8) == fx && Iter(ShiftOnce, y, 8) == fy
    ensures Iter(ShiftOnce, whole, 8) == Xor(fx, fy)
  {
    ShiftLinear();
    IterParts(ShiftOnce, Xor, 8, whole, x, y, fx, fy);
  }

  function FastStep(c: bv16, b: byte): bv16 { (c << 8) ^ Table((((c >> 8) & 0xFF) as bv8) ^ b) }

  lemma FastStepIs(c: bv16, b: byte)
    ensures Xor(Table((((c >> 8) & 0xFF) as bv8) ^ b), c << 8) == FastStep(c, b)
  {
  }

  lemma IterByTable(c: bv16, b: byte)
    ensures Iter(ShiftOnce, WithByte(c, b), 8) == Xor(Table((((c >> 8) & 0xFF) as bv8) ^ b), c << 8)
  {
    var index := (((c >> 8) & 0xFF) as bv8) ^ b;
    SplitByte(c, b);
    LowIter(c);
    IterOfByte(index);
    ShiftParts(WithByte(c, b), (index as bv16) << 8, c & 0xFF, Table(index), c << 8);
  }

  lemma AddByteByTable(c: bv16, b: byte)
    ensures AddByte(c, b) == FastStep(c, b)
  {
    IterByTable(c, b);
    FastStepIs(c, b);
  }

  /** FastCrc16::update equals Crc16::update for every seed and buffer. */
  method FastUpdate(checksum: bv16, buffer: seq<byte>) returns (c: bv16)
    ensures c == Add(checksum, buffer)
  {
    c := checksum;
    var i := 0;
    while i < |buffer|
      invariant i <= |buffer| && c == Add(checksum, buffer[..i])
    {
      AddLast(checksum, buffer, i);
      AddByteByTable(c, buffer[i]);
      c := FastStep(c, buffer[i]);
      i := i + 1;
    }
    assert buffer[..i] == buffer;
  }

  // ---- What the checksum does not detect: two bytes reach every value ----

  lemma {:induction false} ShiftsUndone(c: bv16, n: nat)
    ensures Iter(ShiftOnce, Iter(Unshift, c, n), n) == c
    decreases n
  {
    if n > 0 {
      ShiftsUndone(Unshift(c), n - 1);
      IterLast(ShiftOnce, Iter(Unshift, Unshift(c), n - 1), n - 1);
      UnshiftUndone(c);
    }
  }

  function Low(c: bv16): bv16 { c & 0xFF }
  function High(c: bv16): byte { (c >> 8) as bv8 }
  function LowByte(c: bv16): byte { (c & 0xFF) as bv8 }

  /** The two bytes that take one register to the other. */
  function Between(from: bv16, to: bv16): seq<byte> {
    var m := Xor(from, Iter(Unshift, Iter(Unshift, to, 8), 8));
    [High(m), LowByte(m)]
  }

  lemma SplitWord(from: bv16, m: bv16)
    ensures m == Xor(WithByte(from, High(Xor(from, m))), Low(Xor(from, m)))
  {
  }

  lemma LowMovedUp(d: bv16)
    ensures (LowByte(d) as bv16) << 8 == d << 8
  {
  }

  lemma MovedUp(c: bv16, d: bv16)
    ensures Xor(c, d << 8) == WithByte(c, LowByte(d))
  {
    LowMovedUp(d);
  }

  /** The low byte of the register meets the next byte eight rounds later. */
  lemma {:induction false} LowByteIsNext(whole: bv16, x: bv16, d: bv16)
    requires whole == Xor(x, Low(d))
    ensures Iter(ShiftOnce, whole, 8) == WithByte(Iter(ShiftOnce, x, 8), LowByte(d))
  {
    LowIter(d);
    ShiftParts(whole, x, Low(d), Iter(ShiftOnce, x, 8), d << 8);
    MovedUp(Iter(ShiftOnce, x, 8), d);
  }

  lemma AddTwo(crc: bv16, a: byte, b: byte)
    ensures Add(crc, [a, b]) == AddByte(AddByte(crc, a), b)
  {
    assert [a, b][1..] == [b];
    assert Add(AddByte(AddByte(crc, a), b), []) == AddByte(AddByte(crc, a), b);
    assert [b][1..] == [];
  }

  /** From every register two bytes lead to every other. */
  lemma {:induction false} TwoBytesReach(from: bv16, to: bv16)
    ensures |Between(from, to)| == 2 && Add(from, Between(from, to)) == to
  {
    var half := Iter(Unshift, to, 8);
    var m := Iter(Unshift, half, 8);
    var d := Xor(from, m);
    SplitWord(from, m);
    LowByteIsNext(m, WithByte(from, High(d)), d);
    ShiftsUndone(half, 8);
    ShiftsUndone(to, 8);
    AddTwo(from, High(d), LowByte(d));
  }
}
