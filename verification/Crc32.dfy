/** The CRC-32 of files, configuration and type names: bit by bit, by table, and by recursion at compile time. */
module Crc32 {
  import opened Bits
  import opened Folds

  /** One round for the register alone. */
  function Round(c: bv32): bv32 {
    if c & 1 != 0 then (c >> 1) ^ 0xEDB88320 else c >> 1
  }

  function Eight(c: bv32): bv32 {
    Round(Round(Round(Round(Round(Round(Round(Round(c))))))))
  }

  /** One round of the bitwise loop: the register, and what is left of the data byte. */
  function RoundPair(s: (bv32, bv32)): (bv32, bv32) {
    (if (s.0 ^ s.1) & 1 != 0 then (s.0 >> 1) ^ 0xEDB88320 else s.0 >> 1, s.1 >> 1)
  }

  function AddByte(c: bv32, b: byte): bv32 {
    Iter(RoundPair, (c, b as bv32), 8).0
  }

  function Not(c: bv32): bv32 { !c }

  /** The checksum: the register is kept complemented between calls. */
  function Sum(checksum: bv32, bytes: seq<byte>): bv32 {
    Not(Fold(AddByte, Not(checksum), bytes))
  }

  /** A checksum can be continued: two pieces in turn give what their concatenation gives. */
  lemma SumConcat(checksum: bv32, a: seq<byte>, b: seq<byte>)
    ensures Sum(Sum(checksum, a), b) == Sum(checksum, a + b)
  {
    ComplementedConcat(AddByte, Not, checksum, a, b);
  }

  /** Crc32::update. */
  method Update(checksum: bv32, buffer: seq<byte>) returns (c: bv32)
    ensures c == Sum(checksum, buffer)
  {
    c := Not(checksum);
    ghost var start := c;
    var i := 0;
    while i < |buffer|
      invariant i <= |buffer| && c == Fold(AddByte, start, buffer[..i])
    {
      FoldLast(AddByte, start, buffer, i);
      c := AddOneByte(c, buffer[i]);
      i := i + 1;
    }
    assert buffer[..i] == buffer;
    c := Not(c);
  }

  lemma PairOdd(c: bv32, v: bv32)
    requires (c ^ v) & 1 != 0
    ensures RoundPair((c, v)) == ((c >> 1) ^ 0xEDB88320, v >> 1)
  {
  }

  lemma PairEven(c: bv32, v: bv32)
    requires (c ^ v) & 1 == 0
    ensures RoundPair((c, v)) == (c >> 1, v >> 1)
  {
  }

  /** The inner loop; the data byte is widened, as the comparison widens it. */
  method AddOneByte(start: bv32, b: byte) returns (c: bv32)
    ensures c == AddByte(start, b)
  {
    c := start;
    var value := b as bv32;
    for bit := 0 to 8
      invariant (c, value) == Iter(RoundPair, (start, b as bv32), bit)
    {
      IterLast(RoundPair, (start, b as bv32), bit);
      if (c ^ value) & 1 != 0 {
        PairOdd(c, value);
        c := (c >> 1) ^ 0xEDB88320;
      } else {
        PairEven(c, value);
        c := c >> 1;
      }
      value := value >> 1;
    }
  }

  // ---- The data byte joined to the register ----

  function Xor(x: bv32, y: bv32): bv32 { x ^ y }

  function Half(v: bv32): bv32 { v >> 1 }

  lemma HalfXor(a: bv32, b: bv32)
    ensures ((a >> 1) ^ 0xEDB88320) ^ (b >> 1) == ((a ^ b) >> 1) ^ 0xEDB88320
    ensures (a >> 1) ^ (b >> 1) == (a ^ b) >> 1
  {
  }

  lemma OddMerged(a: bv32, b: bv32)
    requires (a ^ b) & 1 != 0
    ensures Xor(RoundPair((a, b)).0, RoundPair((a, b)).1) == Round(Xor(a, b))
  {
    HalfXor(a, b);
  }

  lemma EvenMerged(a: bv32, b: bv32)
    requires (a ^ b) & 1 == 0
    ensures Xor(RoundPair((a, b)).0, RoundPair((a, b)).1) == Round(Xor(a, b))
  {
    HalfXor(a, b);
  }

  lemma RoundMerges()
    ensures Merges(RoundPair, Half, Xor, Round)
  {
    forall a: bv32, b: bv32 {:trigger RoundPair((a, b))}
      ensures Xor(RoundPair((a, b)).0, RoundPair((a, b)).1) == Round(Xor(a, b))
    {
      if (a ^ b) & 1 != 0 {
        OddMerged(a, b);
      } else {
        EvenMerged(a, b);
      }
    }
  }

  lemma EightHalves(b: byte)
    ensures Half(Half(Half(Half(Half(Half(Half(Half(b as bv32)))))))) == 0
  {
  }

  lemma NothingLeft(b: byte)
    ensures Iter(Half, b as bv32, 8) == 0
  {
    IterEight(Half, b as bv32);
    EightHalves(b);
  }

  lemma XorZero(x: bv32)
    ensures Xor(x, 0) == x
  {
  }

  lemma AddByteIsIter(c: bv32, b: byte)
    ensures AddByte(c, b) == Iter(Round, Xor(c, b as bv32), 8)
  {
    RoundMerges();
    IterMerges(RoundPair, Half, Xor, Round, c, b as bv32, 8);
    NothingLeft(b);
    XorZero(AddByte(c, b));
  }

  // ---- By table ----

  lemma LowBits(x: bv32, y: bv32)
    ensures (x ^ y) & 1 == (x & 1) ^ (y & 1)
    ensures (x & 1 == 0 || x & 1 == 1) && (y & 1 == 0 || y & 1 == 1)
  {
  }

  lemma OneBit()
    ensures (1 as bv32) ^ 1 == 0 && (1 as bv32) ^ 0 == 1 && (0 as bv32) ^ 1 == 1 && (0 as bv32) ^ 0 == 0
  {
  }

  lemma Shuffle(a: bv32, b: bv32, p: bv32)
    ensures (a ^ p) ^ b == (a ^ b) ^ p && a ^ (b ^ p) == (a ^ b) ^ p && (a ^ p) ^ (b ^ p) == a ^ b
  {
  }

  lemma BothOdd(x: bv32, y: bv32)
    requires x & 1 == 1 && y & 1 == 1
    ensures Round(x ^ y) == Round(x) ^ Round(y)
  {
    HalfXor(x, y);
    LowBits(x, y);
    OneBit();
    Shuffle(x >> 1, y >> 1, 0xEDB88320);
  }

  lemma FirstOdd(x: bv32, y: bv32)
    requires x & 1 == 1 && y & 1 == 0
    ensures Round(x ^ y) == Round(x) ^ Round(y)
  {
    HalfXor(x, y);
    LowBits(x, y);
    OneBit();
    Shuffle(x >> 1, y >> 1, 0xEDB88320);
  }

  lemma SecondOdd(x: bv32, y: bv32)
    requires x & 1 == 0 && y & 1 == 1
    ensures Round(x ^ y) == Round(x) ^ Round(y)
  {
    HalfXor(x, y);
    LowBits(x, y);
    OneBit();
    Shuffle(x >> 1, y >> 1, 0xEDB88320);
  }

  lemma BothEven(x: bv32, y: bv32)
    requires x & 1 == 0 && y & 1 == 0
    ensures Round(x ^ y) == Round(x) ^ Round(y)
  {
    HalfXor(x, y);
    LowBits(x, y);
    OneBit();
    Shuffle(x >> 1, y >> 1, 0xEDB88320);
  }

  lemma RoundIsLinear(x: bv32, y: bv32)
    ensures Round(x ^ y) == Round(x) ^ Round(y)
  {
    LowBits(x, y);
    if x & 1 == 1 {
      if y & 1 == 1 { BothOdd(x, y); } else { FirstOdd(x, y); }
    } else {
      if y & 1 == 1 { SecondOdd(x, y); } else { BothEven(x, y); }
    }
  }

  lemma RoundLinear()
    ensures Linear(Round, Xor)
  {
    forall x: bv32, y: bv32 {:trigger Xor(x, y)} ensures Round(Xor(x, y)) == Xor(Round(x), Round(y)) {
      RoundIsLinear(x, y);
    }
  }

  /** The upper bytes are only moved down. */
  lemma EightOfHigh(c: bv32)
    requires c & 0xFF == 0
    ensures Eight(c) == c >> 8
  {
  }

  lemma {:induction false} IterIsEight(c: bv32)
    ensures Iter(Round, c, 8) == Eight(c)
  {
    IterEight(Round, c);
  }

  lemma {:induction false} IterOfHigh(c: bv32)
    requires c & 0xFF == 0
    ensures Iter(Round, c, 8) == c >> 8
  {
    EightOfHigh(c);
    IterIsEight(c);
  }

  lemma {:induction false} IterOfByte(i: byte)
    ensures Iter(Round, i as bv32, 8) == Table(i)
  {
    TableIs(i);
    IterIsEight(i as bv32);
  }

  lemma SplitByte(c: bv32, b: byte)
    ensures Xor(c, b as bv32) == Xor((((c & 0xFF) as bv8) ^ b) as bv32, c & 0xFFFF_FF00)
  {
  }

  lemma HighPart(c: bv32)
    ensures (c & 0xFFFF_FF00) & 0xFF == 0 && (c & 0xFFFF_FF00) >> 8 == c >> 8
  {
  }

  /** The lookup table, in rows of sixteen. */
  function Row(row: byte): (r: seq<bv32>)
    ensures |r| == 16
  {
    match row
    case 0 => [0x00000000, 0x77073096, 0xEE0E612C, 0x990951BA,
               0x076DC419, 0x706AF48F, 0xE963A535, 0x9E6495A3,
               0x0EDB8832, 0x79DCB8A4, 0xE0D5E91E, 0x97D2D988,
               0x09B64C2B, 0x7EB17CBD, 0xE7B82D07, 0x90BF1D91]
    case 1 => [0x1DB71064, 0x6AB020F2, 0xF3B97148, 0x84BE41DE,
               0x1ADAD47D, 0x6DDDE4EB, 0xF4D4B551, 0x83D385C7,
               0x136C9856, 0x646BA8C0, 0xFD62F97A, 0x8A65C9EC,
               0x14015C4F, 0x63066CD9, 0xFA0F3D63, 0x8D080DF5]
    case 2 => [0x3B6E20C8, 0x4C69105E, 0xD56041E4, 0xA2677172,
               0x3C03E4D1, 0x4B04D447, 0xD20D85FD, 0xA50AB56B,
               0x35B5A8FA, 0x42B2986C, 0xDBBBC9D6, 0xACBCF940,
               0x32D86CE3, 0x45DF5C75, 0xDCD60DCF, 0xABD13D59]
    case 3 => [0x26D930AC, 0x51DE003A, 0xC8D75180, 0xBFD06116,
               0x21B4F4B5, 0x56B3C423, 0xCFBA9599, 0xB8BDA50F,
               0x2802B89E, 0x5F058808, 0xC60CD9B2, 0xB10BE924,
               0x2F6F7C87, 0x58684C11, 0xC1611DAB, 0xB6662D3D]
    case 4 => [0x76DC4190, 0x01DB7106, 0x98D220BC, 0xEFD5102A,
               0x71B18589, 0x06B6B51F, 0x9FBFE4A5, 0xE8B8D433,
               0x7807C9A2, 0x0F00F934, 0x9609A88E, 0xE10E9818,
               0x7F6A0DBB, 0x086D3D2D, 0x91646C97, 0xE6635C01]
    case 5 => [0x6B6B51F4, 0x1C6C6162, 0x856530D8, 0xF262004E,
               0x6C0695ED, 0x1B01A57B, 0x8208F4C1, 0xF50FC457,
               0x65B0D9C6, 0x12B7E950, 0x8BBEB8EA, 0xFCB9887C,
               0x62DD1DDF, 0x15DA2D49, 0x8CD37CF3, 0xFBD44C65]
    case 6 => [0x4DB26158, 0x3AB551CE, 0xA3BC0074, 0xD4BB30E2,
               0x4ADFA541, 0x3DD895D7, 0xA4D1C46D, 0xD3D6F4FB,
               0x4369E96A, 0x346ED9FC, 0xAD678846, 0xDA60B8D0,
               0x44042D73, 0x33031DE5, 0xAA0A4C5F, 0xDD0D7CC9]
    case 7 => [0x5005713C, 0x270241AA, 0xBE0B1010, 0xC90C2086,
               0x5768B525, 0x206F85B3, 0xB966D409, 0xCE61E49F,
               0x5EDEF90E, 0x29D9C998, 0xB0D09822, 0xC7D7A8B4,
               0x59B33D17, 0x2EB40D81, 0xB7BD5C3B, 0xC0BA6CAD]
    case 8 => [0xEDB88320, 0x9ABFB3B6, 0x03B6E20C, 0x74B1D29A,
               0xEAD54739, 0x9DD277AF, 0x04DB2615, 0x73DC1683,
               0xE3630B12, 0x94643B84, 0x0D6D6A3E, 0x7A6A5AA8,
               0xE40ECF0B, 0x9309FF9D, 0x0A00AE27, 0x7D079EB1]
    case 9 => [0xF00F9344, 0x8708A3D2, 0x1E01F268, 0x6906C2FE,
               0xF762575D, 0x806567CB, 0x196C3671, 0x6E6B06E7,
               0xFED41B76, 0x89D32BE0, 0x10DA7A5A, 0x67DD4ACC,
               0xF9B9DF6F, 0x8EBEEFF9, 0x17B7BE43, 0x60B08ED5]
    case 10 => [0xD6D6A3E8, 0xA1D1937E, 0x38D8C2C4, 0x4FDFF252,
               0xD1BB67F1, 0xA6BC5767, 0x3FB506DD, 0x48B2364B,
               0xD80D2BDA, 0xAF0A1B4C, 0x36034AF6, 0x41047A60,
               0xDF60EFC3, 0xA867DF55, 0x316E8EEF, 0x4669BE79]
    case 11 => [0xCB61B38C, 0xBC66831A, 0x256FD2A0, 0x5268E236,
               0xCC0C7795, 0xBB0B4703, 0x220216B9, 0x5505262F,
               0xC5BA3BBE, 0xB2BD0B28, 0x2BB45A92, 0x5CB36A04,
               0xC2D7FFA7, 0xB5D0CF31, 0x2CD99E8B, 0x5BDEAE1D]
    case 12 => [0x9B64C2B0, 0xEC63F226, 0x756AA39C, 0x026D930A,
               0x9C0906A9, 0xEB0E363F, 0x72076785, 0x05005713,
               0x95BF4A82, 0xE2B87A14, 0x7BB12BAE, 0x0CB61B38,
               0x92D28E9B, 0xE5D5BE0D, 0x7CDCEFB7, 0x0BDBDF21]
    case 13 => [0x86D3D2D4, 0xF1D4E242, 0x68DDB3F8, 0x1FDA836E,
               0x81BE16CD, 0xF6B9265B, 0x6FB077E1, 0x18B74777,
               0x88085AE6, 0xFF0F6A70, 0x66063BCA, 0x11010B5C,
               0x8F659EFF, 0xF862AE69, 0x616BFFD3, 0x166CCF45]
    case 14 => [0xA00AE278, 0xD70DD2EE, 0x4E048354, 0x3903B3C2,
               0xA7672661, 0xD06016F7, 0x4969474D, 0x3E6E77DB,
               0xAED16A4A, 0xD9D65ADC, 0x40DF0B66, 0x37D83BF0,
               0xA9BCAE53, 0xDEBB9EC5, 0x47B2CF7F, 0x30B5FFE9]
    case _ => [0xBDBDF21C, 0xCABAC28A, 0x53B39330, 0x24B4A3A6,
               0xBAD03605, 0xCDD70693, 0x54DE5729, 0x23D967BF,
               0xB3667A2E, 0xC4614AB8, 0x5D681B02, 0x2A6F2B94,
               0xB40BBE37, 0xC30C8EA1, 0x5A05DF1B, 0x2D02EF8D]
  }

  function Table(i: byte): bv32 { Row(i >> 4)[(i & 0xF) as nat] }

  lemma Columns(i: byte)
    ensures var c := i & 0xF;
            c == 0 || c == 1 || c == 2 || c == 3 || c == 4 || c == 5 || c == 6 || c == 7
            || c == 8 || c == 9 || c == 10 || c == 11 || c == 12 || c == 13 || c == 14 || c == 15
  {
  }

  lemma Row0Is(i: byte)
    requires i >> 4 == 0
    ensures Table(i) == Eight(i as bv32)
  {
    Columns(i);
  }

  lemma Row1Is(i: byte)
    requires i >> 4 == 1
    ensures Table(i) == Eight(i as bv32)
  {
    Columns(i);
  }

  lemma Row2Is(i: byte)
    requires i >> 4 == 2
    ensures Table(i) == Eight(i as bv32)
  {
    Columns(i);
  }

  lemma Row3Is(i: byte)
    requires i >> 4 == 3
    ensures Table(i) == Eight(i as bv32)
  {
    Columns(i);
  }

  lemma Row4Is(i: byte)
    requires i >> 4 == 4
    ensures Table(i) == Eight(i as bv32)
  {
    Columns(i);
  }

  lemma Row5Is(i: byte)
    requires i >> 4 == 5
    ensures Table(i) == Eight(i as bv32)
  {
    Columns(i);
  }

  lemma Row6Is(i: byte)
    requires i >> 4 == 6
    ensures Table(i) == Eight(i as bv32)
  {
    Columns(i);
  }

  lemma Row7Is(i: byte)
    requires i >> 4 == 7
    ensures Table(i) == Eight(i as bv32)
  {
    Columns(i);
  }

  lemma Row8Is(i: byte)
    requires i >> 4 == 8
    ensures Table(i) == Eight(i as bv32)
  {
    Columns(i);
  }

  lemma Row9Is(i: byte)
    requires i >> 4 == 9
    ensures Table(i) == Eight(i as bv32)
  {
    Columns(i);
  }

  lemma RowAIs(i: byte)
    requires i >> 4 == 10
    ensures Table(i) == Eight(i as bv32)
  {
    Columns(i);
  }

  lemma RowBIs(i: byte)
    requires i >> 4 == 11
    ensures Table(i) == Eight(i as bv32)
  {
    Columns(i);
  }

  lemma RowCIs(i: byte)
    requires i >> 4 == 12
    ensures Table(i) == Eight(i as bv32)
  {
    Columns(i);
  }

  lemma RowDIs(i: byte)
    requires i >> 4 == 13
    ensures Table(i) == Eight(i as bv32)
  {
    Columns(i);
  }

  lemma RowEIs(i: byte)
    requires i >> 4 == 14
    ensures Table(i) == Eight(i as bv32)
  {
    Columns(i);
  }

  lemma RowFIs(i: byte)
    requires i >> 4 == 15
    ensures Table(i) == Eight(i as bv32)
  {
    Columns(i);
  }

  /** The table holds what eight rounds make of each byte. */
  lemma TableIs(i: byte)
    ensures Table(i) == Eight(i as bv32)
  {
    var row := i >> 4;
    if row == 0 {
      Row0Is(i);
    } else if row == 1 {
      Row1Is(i);
    } else if row == 2 {
      Row2Is(i);
    } else if row == 3 {
      Row3Is(i);
    } else if row == 4 {
      Row4Is(i);
    } else if row == 5 {
      Row5Is(i);
    } else if row == 6 {
      Row6Is(i);
    } else if row == 7 {
      Row7Is(i);
    } else if row == 8 {
      Row8Is(i);
    } else if row == 9 {
      Row9Is(i);
    } else if row == 10 {
      RowAIs(i);
    } else if row == 11 {
      RowBIs(i);
    } else if row == 12 {
      RowCIs(i);
    } else if row == 13 {
      RowDIs(i);
    } else if row == 14 {
      RowEIs(i);
    } else {
      assert row == 15;
      RowFIs(i);
    }
  }

  function FastStep(c: bv32, b: byte): bv32 { (c >> 8) ^ Table(((c & 0xFF) as bv8) ^ b) }

  lemma FastStepIs(c: bv32, b: byte)
    ensures Xor(Table(((c & 0xFF) as bv8) ^ b), c >> 8) == FastStep(c, b)
  {
  }

  lemma {:induction false} RoundParts(whole: bv32, x: bv32, y: bv32, fx: bv32, fy: bv32)
    requires whole == Xor(x, y) && Iter(Round, x, 8) == fx && Iter(Round, y, 8) == fy
    ensures Iter(Round, whole, 8) == Xor(fx, fy)
  {
    RoundLinear();
    IterParts(Round, Xor, 8, whole, x, y, fx, fy);
  }

  lemma HighIter(c: bv32)
    ensures Iter(Round, c & 0xFFFF_FF00, 8) == c >> 8
  {
    HighPart(c);
    IterOfHigh(c & 0xFFFF_FF00);
  }

  lemma IterByTable(c: bv32, b: byte)
    ensures Iter(Round, Xor(c, b as bv32), 8) == Xor(Table(((c & 0xFF) as bv8) ^ b), c >> 8)
  {
    var index, high := ((c & 0xFF) as bv8) ^ b, c & 0xFFFF_FF00;
    SplitByte(c, b);
    HighIter(c);
    IterOfByte(index);
    RoundParts(Xor(c, b as bv32), index as bv32, high, Table(index), c >> 8);
  }

  lemma AddByteByTable(c: bv32, b: byte)
    ensures AddByte(c, b) == FastStep(c, b)
  {
    AddByteIsIter(c, b);
    IterByTable(c, b);
    FastStepIs(c, b);
  }

  /** FastCrc32::update equals Crc32::update for every seed and buffer. */
  method FastUpdate(checksum: bv32, buffer: seq<byte>) returns (c: bv32)
    ensures c == Sum(checksum, buffer)
  {
    c := Not(checksum);
    ghost var start := c;
    var i := 0;
    while i < |buffer|
      invariant i <= |buffer| && c == Fold(AddByte, start, buffer[..i])
    {
      FoldLast(AddByte, start, buffer, i);
      AddByteByTable(c, buffer[i]);
      c := FastStep(c, buffer[i]);
      i := i + 1;
    }
    assert buffer[..i] == buffer;
    c := Not(c);
  }

  // ---- Type names ----

  /** HashCalculator: the value at step i is made from the value at step i + 1, starting from all ones. */
  function TypeHash(s: seq<byte>): bv32 { Not(FromBack(FastStep, 0xFFFF_FFFF, s, 0)) }

  lemma AllOnes()
    ensures Not(0) == 0xFFFF_FFFF
  {
  }

  /** The recursion at compile time gives the CRC-32 of the name, from seed 0. */
  lemma TypeHashIsSum(s: seq<byte>)
    ensures TypeHash(s) == Sum(0, s)
  {
    forall c: bv32, b: byte ensures FastStep(c, b) == AddByte(c, b) {
      AddByteByTable(c, b);
    }
    FromBackIsFold(FastStep, AddByte, 0xFFFF_FFFF, s, 0);
    assert s[..|s|] == s;
    AllOnes();
  }

  // ---- What a checksum detects ----

  /** Undoing a round. */
  function Unround(c: bv32): bv32 {
    if c & 0x8000_0000 != 0 then ((c ^ 0xEDB88320) << 1) | 1 else c << 1
  }

  lemma RoundUndone(c: bv32)
    ensures Unround(Round(c)) == c
  {
  }

  lemma XorCancels(c: bv32, d: bv32, a: byte)
    ensures Xor(c, a as bv32) == Xor(d, a as bv32) ==> c == d
  {
  }

  lemma ByteCancels(c: bv32, a: byte, b: byte)
    ensures Xor(c, a as bv32) == Xor(c, b as bv32) ==> a == b
  {
  }

  lemma {:induction false} IterOfRound(x: bv32, y: bv32)
    requires Iter(Round, x, 8) == Iter(Round, y, 8)
    ensures x == y
  {
    forall z: bv32 ensures Unround(Round(z)) == z {
      RoundUndone(z);
    }
    IterInjective(Round, Unround, x, y, 8);
  }

  /** A step is injective in the register and in the byte. */
  lemma StepInjective()
    ensures Injective(AddByte)
  {
    forall r: bv32, s: bv32, b: byte {:trigger AddByte(r, b), AddByte(s, b)} | AddByte(r, b) == AddByte(s, b) ensures r == s {
      AddByteIsIter(r, b);
      AddByteIsIter(s, b);
      IterOfRound(Xor(r, b as bv32), Xor(s, b as bv32));
      XorCancels(r, s, b);
    }
    forall r: bv32, a: byte, b: byte {:trigger AddByte(r, a), AddByte(r, b)} | AddByte(r, a) == AddByte(r, b) ensures a == b {
      AddByteIsIter(r, a);
      AddByteIsIter(r, b);
      IterOfRound(Xor(r, a as bv32), Xor(r, b as bv32));
      ByteCancels(r, a, b);
    }
  }

  lemma NotInjective(c: bv32, d: bv32)
    ensures Not(c) == Not(d) ==> c == d
  {
  }

  /** Changing one byte always changes the checksum. */
  lemma OneByteIsDetected(checksum: bv32, bytes: seq<byte>, i: nat, b: byte)
    requires i < |bytes| && b != bytes[i]
    ensures Sum(checksum, bytes[i := b]) != Sum(checksum, bytes)
  {
    StepInjective();
    OneChange(AddByte, Not(checksum), bytes, i, b);
    NotInjective(Fold(AddByte, Not(checksum), bytes[i := b]), Fold(AddByte, Not(checksum), bytes));
  }

  /** The checksum of a zero byte, from which the register's start and its complement at the end can be told. */
  lemma {:induction false} SumOfZero(bytes: seq<byte>)
    requires |bytes| == 1 && bytes[0] == 0
    ensures Sum(0, bytes) == 0xD202_EF8D && Sum(0, []) == 0
  {
    AllOnes();
    AddByteByTable(Not(0), 0);
    FoldOne(AddByte, Not(0), bytes);
    assert Not(Not(0)) == 0;
    assert Table(0xFF) == 0x2D02_EF8D;
    assert FastStep(Not(0), 0) == 0x2DFD_1072;
  }

  // ---- Four bytes ----

  function LowByte(w: bv32): byte { (w & 0xFF) as bv8 }

  /** The n lowest bytes of a word, the lowest first, and the word without them. */
  function LowFirst(w: bv32, n: nat): seq<byte>
    decreases n
  {
    if n == 0 then [] else [LowByte(w)] + LowFirst(Half8(w), n - 1)
  }

  function Half8(w: bv32): bv32 { w >> 8 }

  function Rest(w: bv32, n: nat): bv32
    decreases n
  {
    if n == 0 then w else Rest(Half8(w), n - 1)
  }

  lemma SplitWord(x: bv32, w: bv32)
    ensures Xor(x, w) == Xor(Xor(x, LowByte(w) as bv32), w & 0xFFFF_FF00)
  {
  }

  lemma {:induction false} ByteOfWord(x: bv32, w: bv32)
    ensures Iter(Round, Xor(x, w), 8) == Xor(AddByte(x, LowByte(w)), Half8(w))
  {
    SplitWord(x, w);
    HighIter(w);
    AddByteIsIter(x, LowByte(w));
    RoundParts(Xor(x, w), Xor(x, LowByte(w) as bv32), w & 0xFFFF_FF00, AddByte(x, LowByte(w)), w >> 8);
  }

  /** Rounds over a word do what adding its bytes does. */
  lemma {:induction false} BytesOfWord(x: bv32, w: bv32, n: nat)
    ensures Iter(Round, Xor(x, w), 8 * n) == Xor(Fold(AddByte, x, LowFirst(w, n)), Rest(w, n))
    decreases n
  {
    if n > 0 {
      var r, bytes := AddByte(x, LowByte(w)), LowFirst(w, n);
      IterSplit(Round, Xor(x, w), 8, 8 * (n - 1));
      ByteOfWord(x, w);
      BytesOfWord(r, Half8(w), n - 1);
      assert bytes[0] == LowByte(w) && bytes[1..] == LowFirst(Half8(w), n - 1);
    }
  }

  lemma NothingButFour(w: bv32)
    ensures Half8(Half8(Half8(Half8(w)))) == 0
  {
  }

  lemma {:induction false} RestOfFour(w: bv32)
    ensures Rest(w, 4) == 0
  {
    var w1 := Half8(w); var w2 := Half8(w1); var w3 := Half8(w2);
    NothingButFour(w);
    assert Rest(Half8(w3), 0) == 0;
    assert Rest(w3, 1) == 0;
    assert Rest(w2, 2) == 0;
    assert Rest(w1, 3) == 0;
  }

  /** The same register after two different words was another one before. */
  lemma {:induction false} WordsApart(x: bv32, w: bv32, v: bv32)
    requires w != v
    ensures Fold(AddByte, x, LowFirst(w, 4)) != Fold(AddByte, x, LowFirst(v, 4))
  {
    BytesOfWord(x, w, 4);
    BytesOfWord(x, v, 4);
    RestOfFour(w);
    RestOfFour(v);
    XorZero(Fold(AddByte, x, LowFirst(w, 4)));
    XorZero(Fold(AddByte, x, LowFirst(v, 4)));
    if Fold(AddByte, x, LowFirst(w, 4)) == Fold(AddByte, x, LowFirst(v, 4)) {
      forall z: bv32 ensures Unround(Round(z)) == z {
        RoundUndone(z);
      }
      IterInjective(Round, Unround, Xor(x, w), Xor(x, v), 32);
      SameMask(x, w, v);
    }
  }

  lemma SameMask(x: bv32, w: bv32, v: bv32)
    ensures Xor(x, w) == Xor(x, v) ==> w == v
  {
  }
}
