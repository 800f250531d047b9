/** AES-128 as sections 5.1 and 5.3 of FIPS 197 define it, over any substitution and its inverse. */
module Aes {
  import opened Bits
  import opened Gf256

  type Block = b: seq<byte> | |b| == 16 witness Zero()

  function Zero(): (z: seq<byte>)
    ensures |z| == 16
  {
    seq(16, _ => 0)
  }

  /** AddRoundKey. */
  function Add(s: Block, k: Block): (r: Block)
    ensures forall i | 0 <= i < 16 :: r[i] == Xor(s[i], k[i])
  {
    seq(16, i requires 0 <= i < 16 => Xor(s[i], k[i]))
  }

  /** SubBytes and InvSubBytes. */
  function Substitute(f: byte -> byte, s: Block): (r: Block)
    ensures forall i | 0 <= i < 16 :: r[i] == f(s[i])
  {
    seq(16, i requires 0 <= i < 16 => f(s[i]))
  }

  // Byte i of a block is in row i % 4 and column i / 4. Row r is rotated by r columns.

  function ShiftSource(i: nat): (j: nat)
    requires i < 16
    ensures j < 16
  {
    (i + 4 * (i % 4)) % 16
  }

  function UnshiftSource(i: nat): (j: nat)
    requires i < 16
    ensures j < 16
  {
    (i + 16 - 4 * (i % 4)) % 16
  }

  lemma RowsRotate(r: nat, c: nat)
    requires r < 4 && c < 4
    ensures ShiftSource(r + 4 * c) == r + 4 * ((c + r) % 4)
  {
    assert (r + 4 * c) % 4 == r;
  }

  lemma RowsRotateBack(r: nat, c: nat)
    requires r < 4 && c < 4
    ensures UnshiftSource(r + 4 * c) == r + 4 * ((c + 4 - r) % 4)
  {
    assert (r + 4 * c) % 4 == r;
  }

  lemma Rotations(r: nat, c: nat)
    requires r < 4 && c < 4
    ensures ((c + r) % 4 + 4 - r) % 4 == c && ((c + 4 - r) % 4 + r) % 4 == c
  {
  }

  lemma ShiftInverts(r: nat, c: nat)
    requires r < 4 && c < 4
    ensures ShiftSource(UnshiftSource(r + 4 * c)) == r + 4 * c && UnshiftSource(ShiftSource(r + 4 * c)) == r + 4 * c
  {
    RowsRotate(r, c);
    RowsRotateBack(r, c);
    Rotations(r, c);
    RowsRotate(r, (c + 4 - r) % 4);
    RowsRotateBack(r, (c + r) % 4);
  }

  function ShiftRows(s: Block): (r: Block)
    ensures forall i | 0 <= i < 16 :: r[i] == s[ShiftSource(i)]
  {
    seq(16, i requires 0 <= i < 16 => s[ShiftSource(i)])
  }

  function InvShiftRows(s: Block): (r: Block)
    ensures forall i | 0 <= i < 16 :: r[i] == s[UnshiftSource(i)]
  {
    seq(16, i requires 0 <= i < 16 => s[UnshiftSource(i)])
  }

  lemma InvShiftRowsIs(s: Block, r: Block)
    requires r[0] == s[0] && r[1] == s[13] && r[2] == s[10] && r[3] == s[7]
    requires r[4] == s[4] && r[5] == s[1] && r[6] == s[14] && r[7] == s[11]
    requires r[8] == s[8] && r[9] == s[5] && r[10] == s[2] && r[11] == s[15]
    requires r[12] == s[12] && r[13] == s[9] && r[14] == s[6] && r[15] == s[3]
    ensures r == InvShiftRows(s)
  {
  }

  lemma ShiftRowsInverts(s: Block)
    ensures InvShiftRows(ShiftRows(s)) == s && ShiftRows(InvShiftRows(s)) == s
  {
    var t, u := ShiftRows(InvShiftRows(s)), InvShiftRows(ShiftRows(s));
    forall i | 0 <= i < 16 ensures t[i] == s[i] && u[i] == s[i] {
      assert i == i % 4 + 4 * (i / 4);
      ShiftInverts(i % 4, i / 4);
    }
    assert t == s && u == s;
  }

  lemma SubstituteInverts(f: byte -> byte, g: byte -> byte, s: Block)
    requires forall b: byte :: g(f(b)) == b
    ensures Substitute(g, Substitute(f, s)) == s
  {
    forall i | 0 <= i < 16 ensures Substitute(g, Substitute(f, s))[i] == s[i] {
      assert Substitute(f, s)[i] == f(s[i]);
    }
  }

  lemma XorTwice(a: byte, b: byte)
    ensures Xor(Xor(a, b), b) == a
  {
  }

  lemma AddTwice(s: Block, k: Block)
    ensures Add(Add(s, k), k) == s
  {
    forall i | 0 <= i < 16 ensures Xor(Xor(s[i], k[i]), k[i]) == s[i] {
      XorTwice(s[i], k[i]);
    }
  }

  // ---- The columns ----

  datatype Column = Column(a: byte, b: byte, c: byte, d: byte)

  function ColumnOf(s: Block, c: nat): Column
    requires c < 4
  {
    Column(s[4 * c], s[4 * c + 1], s[4 * c + 2], s[4 * c + 3])
  }

  function Row(x: Column, r: nat): byte {
    if r == 0 then x.a else if r == 1 then x.b else if r == 2 then x.c else x.d
  }

  function MapColumns(f: Column -> Column, s: Block): (r: Block)
    ensures forall i | 0 <= i < 16 :: r[i] == Row(f(ColumnOf(s, i / 4)), i % 4)
  {
    seq(16, i requires 0 <= i < 16 => Row(f(ColumnOf(s, i / 4)), i % 4))
  }

  lemma ColumnOfMapped(f: Column -> Column, s: Block, c: nat)
    requires c < 4
    ensures ColumnOf(MapColumns(f, s), c) == f(ColumnOf(s, c))
  {
  }

  lemma MapColumnsInverts(f: Column -> Column, g: Column -> Column, s: Block)
    requires forall x: Column :: g(f(x)) == x
    ensures MapColumns(g, MapColumns(f, s)) == s
  {
    forall i | 0 <= i < 16 ensures MapColumns(g, MapColumns(f, s))[i] == s[i] {
      ColumnOfMapped(f, s, i / 4);
      RowOfColumn(s, i);
    }
  }

  lemma RowOfColumn(s: Block, i: nat)
    requires i < 16
    ensures Row(ColumnOf(s, i / 4), i % 4) == s[i]
  {
  }

  lemma ColumnsDetermine(s: Block, t: Block)
    requires forall c: nat | c < 4 :: ColumnOf(s, c) == ColumnOf(t, c)
    ensures s == t
  {
    forall i | 0 <= i < 16 ensures s[i] == t[i] {
      RowOfColumn(s, i);
      RowOfColumn(t, i);
      assert ColumnOf(s, i / 4) == ColumnOf(t, i / 4);
    }
  }

  /** The columns before column c are mapped, the others are as they were. */
  ghost predicate MappedTo(f: Column -> Column, s: Block, now: Block, c: nat) {
    && (forall n: nat | n < c && n < 4 :: ColumnOf(now, n) == f(ColumnOf(s, n)))
    && (forall n: nat | c <= n < 4 :: ColumnOf(now, n) == ColumnOf(s, n))
  }

  lemma MappedNext(f: Column -> Column, s: Block, before: Block, now: Block, c: nat)
    requires c < 4 && MappedTo(f, s, before, c) && ColumnOf(now, c) == f(ColumnOf(before, c))
    requires forall j | 0 <= j < 16 && j / 4 != c :: now[j] == before[j]
    ensures MappedTo(f, s, now, c + 1)
  {
    forall n: nat | n < 4 && n != c ensures ColumnOf(now, n) == ColumnOf(before, n) {
      assert (4 * n) / 4 == n && (4 * n + 1) / 4 == n && (4 * n + 2) / 4 == n && (4 * n + 3) / 4 == n;
    }
  }

  lemma MappedAll(f: Column -> Column, s: Block, now: Block)
    requires MappedTo(f, s, now, 4)
    ensures now == MapColumns(f, s)
  {
    forall n: nat | n < 4 ensures ColumnOf(now, n) == ColumnOf(MapColumns(f, s), n) {
      ColumnOfMapped(f, s, n);
    }
    ColumnsDetermine(now, MapColumns(f, s));
  }

  /** Section 5.1.3: 2 and 3 times a byte and the next, and the other two. */
  function MixByte(a: byte, b: byte, c: byte, d: byte): byte {
    Xor(Xor(Mul(a, 0x02), Mul(b, 0x03)), Xor(c, d))
  }

  function Mix(x: Column): Column {
    Column(MixByte(x.a, x.b, x.c, x.d), MixByte(x.b, x.c, x.d, x.a), MixByte(x.c, x.d, x.a, x.b), MixByte(x.d, x.a, x.b, x.c))
  }

  // The source's forms: only doubling, and the inverse as a step before the mixing.

  function Sum(a: byte, b: byte, c: byte, d: byte): byte { Xor(Xor(Xor(a, b), c), d) }

  function FastByte(a: byte, b: byte, sum: byte): byte { Xor(Xor(a, Mul2(Xor(a, b))), sum) }

  function FastMix(x: Column): Column {
    var t := Sum(x.a, x.b, x.c, x.d);
    Column(FastByte(x.a, x.b, t), FastByte(x.b, x.c, t), FastByte(x.c, x.d, t), FastByte(x.d, x.a, t))
  }

  function Four(a: byte): byte { Mul2(Mul2(a)) }

  function Before(x: Column): Column {
    var u, v := Four(Xor(x.a, x.c)), Four(Xor(x.b, x.d));
    Column(Xor(x.a, u), Xor(x.b, v), Xor(x.c, u), Xor(x.d, v))
  }

  function InvMix(x: Column): Column { FastMix(Before(x)) }

  lemma {:induction false} DoubleAndTriple(a: byte)
    ensures Mul(a, 0x02) == Mul2(a) && Mul(a, 0x03) == Xor(a, Mul2(a))
  {
    MulZero(Mul2(a));
    MulEven(a, 2, 1, Mul2(a));
    MulOdd(a, 3, 1, Mul2(a));
  }

  lemma RegroupMix(a: byte, b: byte, a2: byte, b2: byte, c: byte, d: byte)
    ensures Xor(Xor(a2, Xor(b, b2)), Xor(c, d)) == Xor(Xor(a, Xor(a2, b2)), Sum(a, b, c, d))
  {
  }

  lemma RotateSum(a: byte, b: byte, c: byte, d: byte)
    ensures Sum(b, c, d, a) == Sum(a, b, c, d)
  {
    XorAssociate(a, Xor(b, c), d);
    XorAssociate(a, b, c);
    XorAssociate(Xor(Xor(b, c), d), a, 0);
    XorAssociate(0, Xor(Xor(b, c), d), a);
  }

  lemma MixByteIsFast(a: byte, b: byte, c: byte, d: byte)
    ensures MixByte(a, b, c, d) == FastByte(a, b, Sum(a, b, c, d))
  {
    DoubleAndTriple(a);
    DoubleAndTriple(b);
    Mul2Linear(a, b);
    RegroupMix(a, b, Mul2(a), Mul2(b), c, d);
  }

  lemma MixIsFast(x: Column)
    ensures Mix(x) == FastMix(x)
  {
    MixByteIsFast(x.a, x.b, x.c, x.d); MixByteIsFast(x.b, x.c, x.d, x.a);
    MixByteIsFast(x.c, x.d, x.a, x.b); MixByteIsFast(x.d, x.a, x.b, x.c);
    RotateSum(x.a, x.b, x.c, x.d);
    RotateSum(x.b, x.c, x.d, x.a);
    RotateSum(x.c, x.d, x.a, x.b);
  }

  // Mixing twice is the step before the inverse, and that step is its own inverse.

  lemma PairCancels(a: byte, a2: byte, b: byte, b2: byte, t: byte)
    ensures Xor(Xor(Xor(a, a2), t), Xor(Xor(b, b2), t)) == Xor(Xor(a, b), Xor(a2, b2))
  {
    XorFour(Xor(a, a2), t, Xor(b, b2), t);
    XorTwice(0, t);
    XorZero(t);
    XorZero(Xor(Xor(a, a2), Xor(b, b2)));
    XorFour(a, a2, b, b2);
  }

  lemma Telescope(a: byte, b: byte, c: byte)
    ensures Xor(Xor(a, b), Xor(b, c)) == Xor(a, c)
  {
  }

  /** The sum of two neighbours after mixing. */
  lemma MixedPair(a: byte, b: byte, c: byte, t: byte)
    ensures Xor(FastByte(a, b, t), FastByte(b, c, t)) == Xor(Xor(a, b), Mul2(Xor(a, c)))
  {
    PairCancels(a, Mul2(Xor(a, b)), b, Mul2(Xor(b, c)), t);
    Mul2Linear(Xor(a, b), Xor(b, c));
    Telescope(a, b, c);
  }

  lemma SumOfPairs(a: byte, b: byte, c: byte, d: byte, m: byte, n: byte, q: byte)
    requires m == Xor(Xor(a, b), q) && n == Xor(Xor(c, d), q)
    ensures Xor(m, n) == Sum(a, b, c, d)
  {
  }

  lemma MixedSum(x: Column)
    ensures var y := FastMix(x); Sum(y.a, y.b, y.c, y.d) == Sum(x.a, x.b, x.c, x.d)
  {
    var y, t := FastMix(x), Sum(x.a, x.b, x.c, x.d);
    MixedPair(x.a, x.b, x.c, t);
    MixedPair(x.c, x.d, x.a, t);
    XorAssociate(x.c, x.c, x.a);
    assert Xor(x.c, x.a) == Xor(x.a, x.c);
    SumOfPairs(x.a, x.b, x.c, x.d, Xor(y.a, y.b), Xor(y.c, y.d), Mul2(Xor(x.a, x.c)));
    XorAssociate(Xor(y.a, y.b), y.c, y.d);
  }

  lemma LastCancels(a: byte, e: byte, t: byte, q: byte)
    ensures Xor(Xor(Xor(Xor(a, e), t), Xor(e, q)), t) == Xor(a, q)
  {
  }

  lemma MixedTwice(a: byte, b: byte, c: byte, t: byte)
    ensures FastByte(FastByte(a, b, t), FastByte(b, c, t), t) == Xor(a, Four(Xor(a, c)))
  {
    MixedPair(a, b, c, t);
    Mul2Linear(Xor(a, b), Mul2(Xor(a, c)));
    LastCancels(a, Mul2(Xor(a, b)), t, Four(Xor(a, c)));
  }

  lemma MixTwice(x: Column)
    ensures FastMix(FastMix(x)) == Before(x)
  {
    var t := Sum(x.a, x.b, x.c, x.d);
    MixedSum(x);
    MixedTwice(x.a, x.b, x.c, t);
    MixedTwice(x.b, x.c, x.d, t);
    MixedTwice(x.c, x.d, x.a, t);
    MixedTwice(x.d, x.a, x.b, t);
    XorAssociate(x.a, x.c, x.a);
    XorAssociate(x.b, x.d, x.b);
  }

  lemma BeforeCancels(a: byte, c: byte, u: byte)
    ensures Xor(Xor(a, u), Xor(c, u)) == Xor(a, c) && Xor(Xor(a, u), u) == a
  {
  }

  lemma BeforeTwice(x: Column)
    ensures Before(Before(x)) == x
  {
    var u, v := Four(Xor(x.a, x.c)), Four(Xor(x.b, x.d));
    BeforeCancels(x.a, x.c, u);
    BeforeCancels(x.c, x.a, u);
    BeforeCancels(x.b, x.d, v);
    BeforeCancels(x.d, x.b, v);
  }

  /** The source's inverse undoes the mixing of section 5.1.3, and the mixing undoes it. */
  lemma MixInverts(x: Column)
    ensures InvMix(Mix(x)) == x && Mix(InvMix(x)) == x
  {
    MixIsFast(x);
    MixIsFast(InvMix(x));
    MixTwice(Before(x));
    MixTwice(FastMix(x));
    MixTwice(x);
    BeforeTwice(x);
  }

  // ---- The factors of section 5.3.3 ----

  /** Section 5.3.3: 0e, 0b, 0d and 09 times a byte and the next ones. */
  function InvMixByte(a: byte, b: byte, c: byte, d: byte): byte {
    Xor(Xor(Mul(a, 0x0E), Mul(b, 0x0B)), Xor(Mul(c, 0x0D), Mul(d, 0x09)))
  }

  lemma {:induction false} Factors(a: byte)
    ensures var a2, a4, a8 := Mul2(a), Four(a), Mul2(Four(a));
            && Mul(a, 0x09) == Xor(a, a8) && Mul(a, 0x0B) == Xor(a, Xor(a2, a8))
            && Mul(a, 0x0D) == Xor(a, Xor(a4, a8)) && Mul(a, 0x0E) == Xor(a2, Xor(a4, a8))
  {
    var a2, a4, a8 := Mul2(a), Four(a), Mul2(Four(a));
    MulZero(a8);
    MulEven(a4, 2, 1, a8);
    MulOdd(a4, 3, 1, a8);
    MulEven(a2, 4, 2, a8);
    MulOdd(a2, 5, 2, a8);
    MulEven(a2, 6, 3, Xor(a4, a8));
    MulOdd(a2, 7, 3, Xor(a4, a8));
    MulOdd(a, 9, 4, a8);
    MulOdd(a, 11, 5, Xor(a2, a8));
    MulOdd(a, 13, 6, Xor(a4, a8));
    MulEven(a, 14, 7, Xor(a2, Xor(a4, a8)));
  }

  /** A sum of four products, sorted by the power of x: eight times all, four times and twice two, and the rest. */
  lemma SortProducts(b: byte, c: byte, d: byte, a2: byte, b2: byte, a4: byte, c4: byte, a8: byte, b8: byte, c8: byte,
                     d8: byte)
    ensures Xor(Xor(Xor(a2, Xor(a4, a8)), Xor(b, Xor(b2, b8))), Xor(Xor(c, Xor(c4, c8)), Xor(d, d8)))
            == Xor(Xor(Sum(a8, b8, c8, d8), Xor(a4, c4)), Xor(Xor(a2, b2), Xor(b, Xor(c, d))))
  {
    var p, q := Xor(a4, a8), Xor(b2, Xor(b, b8));
    PullOut(b, b2, b8);
    PullOut(c, c4, c8);
    // (a2 + p) + (b2 + (b + b8)) and (c4 + (c + c8)) + (d + d8)
    XorFour(a2, p, b2, Xor(b, b8));
    XorFour(a4, a8, b, b8);
    XorAssociate(c4, Xor(c, c8), Xor(d, d8));
    XorFour(c, c8, d, d8);
    MoveFour(Xor(a2, b2), Xor(a4, b), Xor(a8, b8), c4, Xor(c, d), Xor(c8, d8), a4, b);
    XorAssociate(Xor(a8, b8), c8, d8);
  }

  lemma PullOut(b: byte, b2: byte, b8: byte)
    ensures Xor(b, Xor(b2, b8)) == Xor(b2, Xor(b, b8))
  {
    XorAssociate(b, b2, b8);
    XorAssociate(b2, b, b8);
    XorSwap(b, b2);
  }

  lemma MoveFour(t: byte, ab: byte, s: byte, c4: byte, cd: byte, u: byte, a4: byte, b: byte)
    requires ab == Xor(a4, b)
    ensures Xor(Xor(t, Xor(ab, s)), Xor(c4, Xor(cd, u))) == Xor(Xor(Xor(s, u), Xor(a4, c4)), Xor(t, Xor(b, cd)))
  {
  }

  lemma Gather(a: byte, b: byte, c: byte, d: byte, u: byte, p: byte, t8: byte)
    ensures Xor(Xor(Xor(a, u), Xor(p, t8)), Sum(a, b, c, d)) == Xor(Xor(t8, u), Xor(p, Xor(b, Xor(c, d))))
  {
    XorAssociate(b, c, d);
    XorAssociate(a, b, c);
    XorAssociate(a, Xor(b, c), d);
    XorFour(a, u, p, t8);
    DropTwice(a, u, p, t8, Xor(b, Xor(c, d)));
  }

  lemma DropTwice(a: byte, u: byte, p: byte, t8: byte, r: byte)
    ensures Xor(Xor(Xor(a, p), Xor(u, t8)), Xor(a, r)) == Xor(Xor(t8, u), Xor(p, r))
  {
  }

  lemma FourLinear(a: byte, b: byte)
    ensures Four(Xor(a, b)) == Xor(Four(a), Four(b))
  {
    Mul2Linear(a, b);
    Mul2Linear(Mul2(a), Mul2(b));
  }

  /** Eight times the sum. */
  lemma EightTimesSum(a: byte, b: byte, c: byte, d: byte)
    ensures Mul2(Xor(Four(Xor(a, c)), Four(Xor(b, d)))) == Sum(Mul2(Four(a)), Mul2(Four(b)), Mul2(Four(c)), Mul2(Four(d)))
  {
    FourLinear(a, c);
    FourLinear(b, d);
    XorFour(Four(a), Four(c), Four(b), Four(d));
    Mul2Linear(Xor(Four(a), Four(b)), Xor(Four(c), Four(d)));
    Mul2Linear(Four(a), Four(b));
    Mul2Linear(Four(c), Four(d));
    XorAssociate(Xor(Mul2(Four(a)), Mul2(Four(b))), Mul2(Four(c)), Mul2(Four(d)));
  }

  lemma InvByte(a: byte, b: byte, c: byte, d: byte, t: byte)
    requires t == Sum(a, b, c, d)
    ensures FastByte(Xor(a, Four(Xor(a, c))), Xor(b, Four(Xor(b, d))), t) == InvMixByte(a, b, c, d)
  {
    var u, v := Four(Xor(a, c)), Four(Xor(b, d));
    XorFour(a, u, b, v);
    Mul2Linear(Xor(a, b), Xor(u, v));
    Mul2Linear(a, b);
    EightTimesSum(a, b, c, d);
    FourLinear(a, c);
    Gather(a, b, c, d, u, Xor(Mul2(a), Mul2(b)), Mul2(Xor(u, v)));
    Factors(a); Factors(b); Factors(c); Factors(d);
    SortProducts(b, c, d, Mul2(a), Mul2(b), Four(a), Four(c), Mul2(Four(a)), Mul2(Four(b)), Mul2(Four(c)), Mul2(Four(d)));
  }

  lemma SumBefore(a: byte, b: byte, c: byte, d: byte, u: byte, v: byte)
    ensures Sum(Xor(a, u), Xor(b, v), Xor(c, u), Xor(d, v)) == Sum(a, b, c, d)
  {
    XorAssociate(Xor(Xor(a, u), Xor(b, v)), Xor(c, u), Xor(d, v));
    XorAssociate(Xor(a, b), c, d);
    XorFour(a, u, b, v);
    XorFour(c, u, d, v);
    XorFour(Xor(a, b), Xor(u, v), Xor(c, d), Xor(u, v));
    XorTwice(0, Xor(u, v));
    XorZero(Xor(u, v));
    XorZero(Xor(Xor(a, b), Xor(c, d)));
  }

  /** The source's two steps are section 5.3.3. */
  lemma InvMixIsStandard(x: Column)
    ensures InvMix(x) == Column(InvMixByte(x.a, x.b, x.c, x.d), InvMixByte(x.b, x.c, x.d, x.a),
                                InvMixByte(x.c, x.d, x.a, x.b), InvMixByte(x.d, x.a, x.b, x.c))
  {
    var t := Sum(x.a, x.b, x.c, x.d);
    SumBefore(x.a, x.b, x.c, x.d, Four(Xor(x.a, x.c)), Four(Xor(x.b, x.d)));
    RotateSum(x.a, x.b, x.c, x.d);
    RotateSum(x.b, x.c, x.d, x.a);
    RotateSum(x.c, x.d, x.a, x.b);
    XorSwap(x.a, x.c);
    XorSwap(x.b, x.d);
    InvByte(x.a, x.b, x.c, x.d, t);
    InvByte(x.b, x.c, x.d, x.a, t);
    InvByte(x.c, x.d, x.a, x.b, t);
    InvByte(x.d, x.a, x.b, x.c, t);
  }
}
