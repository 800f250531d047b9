/** The S-box of FIPS 197, figure 7: for the byte xy, row x and column y. */
module SBoxTable {
  import opened Bits
  import opened Gf256

  /** Multiplication without a loop. */
  function Product(a: byte, b: byte): byte {
    var a1 := Mul2(a);
    var a2 := Mul2(a1);
    var a3 := Mul2(a2);
    var a4 := Mul2(a3);
    var a5 := Mul2(a4);
    var a6 := Mul2(a5);
    var a7 := Mul2(a6);
    Xor(Choose(b, a), Xor(Choose(b >> 1, a1), Xor(Choose((b >> 1) >> 1, a2), Xor(Choose(((b >> 1) >> 1) >> 1, a3),
      Xor(Choose((((b >> 1) >> 1) >> 1) >> 1, a4), Xor(Choose(((((b >> 1) >> 1) >> 1) >> 1) >> 1, a5),
        Xor(Choose((((((b >> 1) >> 1) >> 1) >> 1) >> 1) >> 1, a6),
          Xor(Choose(((((((b >> 1) >> 1) >> 1) >> 1) >> 1) >> 1) >> 1, a7), 0))))))))
  }

  function Row0(i: byte): byte {
    match i
    case 0 => 0x63 case 1 => 0x7C case 2 => 0x77 case 3 => 0x7B
    case 4 => 0xF2 case 5 => 0x6B case 6 => 0x6F case 7 => 0xC5
    case 8 => 0x30 case 9 => 0x01 case 10 => 0x67 case 11 => 0x2B
    case 12 => 0xFE case 13 => 0xD7 case 14 => 0xAB case 15 => 0x76
    case _ => 0
  }

  function Row1(i: byte): byte {
    match i
    case 0 => 0xCA case 1 => 0x82 case 2 => 0xC9 case 3 => 0x7D
    case 4 => 0xFA case 5 => 0x59 case 6 => 0x47 case 7 => 0xF0
    case 8 => 0xAD case 9 => 0xD4 case 10 => 0xA2 case 11 => 0xAF
    case 12 => 0x9C case 13 => 0xA4 case 14 => 0x72 case 15 => 0xC0
    case _ => 0
  }

  function Row2(i: byte): byte {
    match i
    case 0 => 0xB7 case 1 => 0xFD case 2 => 0x93 case 3 => 0x26
    case 4 => 0x36 case 5 => 0x3F case 6 => 0xF7 case 7 => 0xCC
    case 8 => 0x34 case 9 => 0xA5 case 10 => 0xE5 case 11 => 0xF1
    case 12 => 0x71 case 13 => 0xD8 case 14 => 0x31 case 15 => 0x15
    case _ => 0
  }

  function Row3(i: byte): byte {
    match i
    case 0 => 0x04 case 1 => 0xC7 case 2 => 0x23 case 3 => 0xC3
    case 4 => 0x18 case 5 => 0x96 case 6 => 0x05 case 7 => 0x9A
    case 8 => 0x07 case 9 => 0x12 case 10 => 0x80 case 11 => 0xE2
    case 12 => 0xEB case 13 => 0x27 case 14 => 0xB2 case 15 => 0x75
    case _ => 0
  }

  function Row4(i: byte): byte {
    match i
    case 0 => 0x09 case 1 => 0x83 case 2 => 0x2C case 3 => 0x1A
    case 4 => 0x1B case 5 => 0x6E case 6 => 0x5A case 7 => 0xA0
    case 8 => 0x52 case 9 => 0x3B case 10 => 0xD6 case 11 => 0xB3
    case 12 => 0x29 case 13 => 0xE3 case 14 => 0x2F case 15 => 0x84
    case _ => 0
  }

  function Row5(i: byte): byte {
    match i
    case 0 => 0x53 case 1 => 0xD1 case 2 => 0x00 case 3 => 0xED
    case 4 => 0x20 case 5 => 0xFC case 6 => 0xB1 case 7 => 0x5B
    case 8 => 0x6A case 9 => 0xCB case 10 => 0xBE case 11 => 0x39
    case 12 => 0x4A case 13 => 0x4C case 14 => 0x58 case 15 => 0xCF
    case _ => 0
  }

  function Row6(i: byte): byte {
    match i
    case 0 => 0xD0 case 1 => 0xEF case 2 => 0xAA case 3 => 0xFB
    case 4 => 0x43 case 5 => 0x4D case 6 => 0x33 case 7 => 0x85
    case 8 => 0x45 case 9 => 0xF9 case 10 => 0x02 case 11 => 0x7F
    case 12 => 0x50 case 13 => 0x3C case 14 => 0x9F case 15 => 0xA8
    case _ => 0
  }

  function Row7(i: byte): byte {
    match i
    case 0 => 0x51 case 1 => 0xA3 case 2 => 0x40 case 3 => 0x8F
    case 4 => 0x92 case 5 => 0x9D case 6 => 0x38 case 7 => 0xF5
    case 8 => 0xBC case 9 => 0xB6 case 10 => 0xDA case 11 => 0x21
    case 12 => 0x10 case 13 => 0xFF case 14 => 0xF3 case 15 => 0xD2
    case _ => 0
  }

  function Row8(i: byte): byte {
    match i
    case 0 => 0xCD case 1 => 0x0C case 2 => 0x13 case 3 => 0xEC
    case 4 => 0x5F case 5 => 0x97 case 6 => 0x44 case 7 => 0x17
    case 8 => 0xC4 case 9 => 0xA7 case 10 => 0x7E case 11 => 0x3D
    case 12 => 0x64 case 13 => 0x5D case 14 => 0x19 case 15 => 0x73
    case _ => 0
  }

  function Row9(i: byte): byte {
    match i
    case 0 => 0x60 case 1 => 0x81 case 2 => 0x4F case 3 => 0xDC
    case 4 => 0x22 case 5 => 0x2A case 6 => 0x90 case 7 => 0x88
    case 8 => 0x46 case 9 => 0xEE case 10 => 0xB8 case 11 => 0x14
    case 12 => 0xDE case 13 => 0x5E case 14 => 0x0B case 15 => 0xDB
    case _ => 0
  }

  function RowA(i: byte): byte {
    match i
    case 0 => 0xE0 case 1 => 0x32 case 2 => 0x3A case 3 => 0x0A
    case 4 => 0x49 case 5 => 0x06 case 6 => 0x24 case 7 => 0x5C
    case 8 => 0xC2 case 9 => 0xD3 case 10 => 0xAC case 11 => 0x62
    case 12 => 0x91 case 13 => 0x95 case 14 => 0xE4 case 15 => 0x79
    case _ => 0
  }

  function RowB(i: byte): byte {
    match i
    case 0 => 0xE7 case 1 => 0xC8 case 2 => 0x37 case 3 => 0x6D
    case 4 => 0x8D case 5 => 0xD5 case 6 => 0x4E case 7 => 0xA9
    case 8 => 0x6C case 9 => 0x56 case 10 => 0xF4 case 11 => 0xEA
    case 12 => 0x65 case 13 => 0x7A case 14 => 0xAE case 15 => 0x08
    case _ => 0
  }

  function RowC(i: byte): byte {
    match i
    case 0 => 0xBA case 1 => 0x78 case 2 => 0x25 case 3 => 0x2E
    case 4 => 0x1C case 5 => 0xA6 case 6 => 0xB4 case 7 => 0xC6
    case 8 => 0xE8 case 9 => 0xDD case 10 => 0x74 case 11 => 0x1F
    case 12 => 0x4B case 13 => 0xBD case 14 => 0x8B case 15 => 0x8A
    case _ => 0
  }

  function RowD(i: byte): byte {
    match i
    case 0 => 0x70 case 1 => 0x3E case 2 => 0xB5 case 3 => 0x66
    case 4 => 0x48 case 5 => 0x03 case 6 => 0xF6 case 7 => 0x0E
    case 8 => 0x61 case 9 => 0x35 case 10 => 0x57 case 11 => 0xB9
    case 12 => 0x86 case 13 => 0xC1 case 14 => 0x1D case 15 => 0x9E
    case _ => 0
  }

  function RowE(i: byte): byte {
    match i
    case 0 => 0xE1 case 1 => 0xF8 case 2 => 0x98 case 3 => 0x11
    case 4 => 0x69 case 5 => 0xD9 case 6 => 0x8E case 7 => 0x94
    case 8 => 0x9B case 9 => 0x1E case 10 => 0x87 case 11 => 0xE9
    case 12 => 0xCE case 13 => 0x55 case 14 => 0x28 case 15 => 0xDF
    case _ => 0
  }

  function RowF(i: byte): byte {
    match i
    case 0 => 0x8C case 1 => 0xA1 case 2 => 0x89 case 3 => 0x0D
    case 4 => 0xBF case 5 => 0xE6 case 6 => 0x42 case 7 => 0x68
    case 8 => 0x41 case 9 => 0x99 case 10 => 0x2D case 11 => 0x0F
    case 12 => 0xB0 case 13 => 0x54 case 14 => 0xBB case 15 => 0x16
    case _ => 0
  }

  function Table(b: byte): byte {
    var row, column := b >> 4, b & 0xF;
    match row
    case 0 => Row0(column)
    case 1 => Row1(column)
    case 2 => Row2(column)
    case 3 => Row3(column)
    case 4 => Row4(column)
    case 5 => Row5(column)
    case 6 => Row6(column)
    case 7 => Row7(column)
    case 8 => Row8(column)
    case 9 => Row9(column)
    case 10 => RowA(column)
    case 11 => RowB(column)
    case 12 => RowC(column)
    case 13 => RowD(column)
    case 14 => RowE(column)
    case _ => RowF(column)
  }

  lemma Row0Is(i: byte)
    requires 0 < i < 16
    ensures Product(0x00 | i, UnAffine(Row0(i))) == 1
  {
  }

  lemma Row1Is(i: byte)
    requires i < 16
    ensures Product(0x10 | i, UnAffine(Row1(i))) == 1
  {
  }

  lemma Row2Is(i: byte)
    requires i < 16
    ensures Product(0x20 | i, UnAffine(Row2(i))) == 1
  {
  }

  lemma Row3Is(i: byte)
    requires i < 16
    ensures Product(0x30 | i, UnAffine(Row3(i))) == 1
  {
  }

  lemma Row4Is(i: byte)
    requires i < 16
    ensures Product(0x40 | i, UnAffine(Row4(i))) == 1
  {
  }

  lemma Row5Is(i: byte)
    requires i < 16
    ensures Product(0x50 | i, UnAffine(Row5(i))) == 1
  {
  }

  lemma Row6Is(i: byte)
    requires i < 16
    ensures Product(0x60 | i, UnAffine(Row6(i))) == 1
  {
  }

  lemma Row7Is(i: byte)
    requires i < 16
    ensures Product(0x70 | i, UnAffine(Row7(i))) == 1
  {
  }

  lemma Row8Is(i: byte)
    requires i < 16
    ensures Product(0x80 | i, UnAffine(Row8(i))) == 1
  {
  }

  lemma Row9Is(i: byte)
    requires i < 16
    ensures Product(0x90 | i, UnAffine(Row9(i))) == 1
  {
  }

  lemma RowAIs(i: byte)
    requires i < 16
    ensures Product(0xA0 | i, UnAffine(RowA(i))) == 1
  {
  }

  lemma RowBIs(i: byte)
    requires i < 16
    ensures Product(0xB0 | i, UnAffine(RowB(i))) == 1
  {
  }

  lemma RowCIs(i: byte)
    requires i < 16
    ensures Product(0xC0 | i, UnAffine(RowC(i))) == 1
  {
  }

  lemma RowDIs(i: byte)
    requires i < 16
    ensures Product(0xD0 | i, UnAffine(RowD(i))) == 1
  {
  }

  lemma RowEIs(i: byte)
    requires i < 16
    ensures Product(0xE0 | i, UnAffine(RowE(i))) == 1
  {
  }

  lemma RowFIs(i: byte)
    requires i < 16
    ensures Product(0xF0 | i, UnAffine(RowF(i))) == 1
  {
  }

  lemma Halves(b: byte)
    ensures (((((((b >> 1) >> 1) >> 1) >> 1) >> 1) >> 1) >> 1) >> 1 == 0
  {
  }

  lemma {:induction false} MulTo(a: byte, b: byte, next: byte, rest: byte, r: byte)
    requires next == Mul2(a) && Mul(next, b >> 1) == rest && r == Xor(Choose(b, a), rest)
    ensures Mul(a, b) == r
  {
    MulStep(a, b);
  }

  lemma {:induction false} ProductIsMul(a: byte, b: byte)
    ensures Mul(a, b) == Product(a, b)
  {
    var a1 := Mul2(a); var a2 := Mul2(a1); var a3 := Mul2(a2); var a4 := Mul2(a3);
    var a5 := Mul2(a4); var a6 := Mul2(a5); var a7 := Mul2(a6);
    var b1 := b >> 1; var b2 := b1 >> 1; var b3 := b2 >> 1; var b4 := b3 >> 1;
    var b5 := b4 >> 1; var b6 := b5 >> 1; var b7 := b6 >> 1;
    Halves(b);
    var r7 := Xor(Choose(b7, a7), 0);
    var r6 := Xor(Choose(b6, a6), r7);
    var r5 := Xor(Choose(b5, a5), r6);
    var r4 := Xor(Choose(b4, a4), r5);
    var r3 := Xor(Choose(b3, a3), r4);
    var r2 := Xor(Choose(b2, a2), r3);
    var r1 := Xor(Choose(b1, a1), r2);
    MulTo(a7, b7, Mul2(a7), 0, r7);
    MulTo(a6, b6, a7, r7, r6);
    MulTo(a5, b5, a6, r6, r5);
    MulTo(a4, b4, a5, r5, r4);
    MulTo(a3, b3, a4, r4, r3);
    MulTo(a2, b2, a3, r3, r2);
    MulTo(a1, b1, a2, r2, r1);
    MulTo(a, b, a1, r1, Xor(Choose(b, a), r1));
  }

  lemma Columns(b: byte)
    ensures b >> 4 < 16 && b & 0xF < 16 && b == ((b >> 4) << 4) | (b & 0xF)
  {
  }

  /** The multiplicative inverse, read off the table. */
  lemma {:induction false} TableInverts(b: byte)
    requires b != 0
    ensures Product(b, UnAffine(Table(b))) == 1
  {
    var row, column := b >> 4, b & 0xF;
    Columns(b);
    if row == 0 {
      Row0Is(column);
    } else if row == 1 {
      Row1Is(column);
    } else if row == 2 {
      Row2Is(column);
    } else if row == 3 {
      Row3Is(column);
    } else if row == 4 {
      Row4Is(column);
    } else if row == 5 {
      Row5Is(column);
    } else if row == 6 {
      Row6Is(column);
    } else if row == 7 {
      Row7Is(column);
    } else if row == 8 {
      Row8Is(column);
    } else if row == 9 {
      Row9Is(column);
    } else if row == 10 {
      RowAIs(column);
    } else if row == 11 {
      RowBIs(column);
    } else if row == 12 {
      RowCIs(column);
    } else if row == 13 {
      RowDIs(column);
    } else if row == 14 {
      RowEIs(column);
    } else {
      assert row == 15;
      RowFIs(column);
    }
  }

  /** The substitution of section 5.1.1 is the published table. */
  lemma {:induction false} SBoxIsTable(b: byte)
    ensures SBox(b) == Table(b)
  {
    if b == 0 {
      assert Affine(0) == 0x63 == Table(0);
    } else {
      TableInverts(b);
      ProductIsMul(b, UnAffine(Table(b)));
      InverseIsInverse(b, UnAffine(Table(b)));
      AffineInverts(Table(b));
    }
  }
}
