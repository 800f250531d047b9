/** The field of section 4 of FIPS 197: bytes as polynomials modulo x^8 + x^4 + x^3 + x + 1. */
module Gf256 {
  import opened Arith
  import opened Bits
  import opened Folds
  import Convert

  /** Multiplication by x. */
  function Mul2(a: byte): byte {
    if a & 0x80 == 0 then a << 1 else (a << 1) ^ 0x1B
  }

  lemma LowLow(a: byte, b: byte)
    requires a & 0x80 == 0 && b & 0x80 == 0
    ensures Mul2(Xor(a, b)) == Xor(Mul2(a), Mul2(b))
  {
  }

  lemma LowHigh(a: byte, b: byte)
    requires a & 0x80 == 0 && b & 0x80 != 0
    ensures Mul2(Xor(a, b)) == Xor(Mul2(a), Mul2(b))
  {
  }

  lemma HighHigh(a: byte, b: byte)
    requires a & 0x80 != 0 && b & 0x80 != 0
    ensures Mul2(Xor(a, b)) == Xor(Mul2(a), Mul2(b))
  {
  }

  lemma XorSwap(a: byte, b: byte)
    ensures Xor(a, b) == Xor(b, a)
  {
  }

  lemma Mul2Linear(a: byte, b: byte)
    ensures Mul2(Xor(a, b)) == Xor(Mul2(a), Mul2(b))
  {
    XorSwap(a, b);
    XorSwap(Mul2(a), Mul2(b));
    if a & 0x80 == 0 {
      if b & 0x80 == 0 { LowLow(a, b); } else { LowHigh(a, b); }
    } else {
      if b & 0x80 == 0 { LowHigh(b, a); } else { HighHigh(a, b); }
    }
  }

  /** Multiplication: the sum of the multiples of a for the bits of b. */
  function Mul(a: byte, b: byte): byte
    decreases b
  {
    if b == 0 then 0 else Xor(Choose(b, a), Mul(Mul2(a), b >> 1))
  }

  // ---- Multiplication and division by x + 1, as the source writes them ----

  function Times3(p: byte): byte {
    p ^ (p << 1) ^ (if p & 0x80 != 0 then 0x1B else 0)
  }

  function Third(q: byte): byte {
    var q1 := q ^ (q << 1);
    var q2 := q1 ^ (q1 << 2);
    var q4 := q2 ^ (q2 << 4);
    q4 ^ (if q4 & 0x80 != 0 then 0x09 else 0)
  }

  lemma ThirdInverts(p: byte)
    ensures Third(Times3(p)) == p && Times3(Third(p)) == p
  {
  }

  /** Powers of x + 1. */
  function Power(n: nat): byte { Iter(Times3, 1, n) }

  lemma PowerNext(n: nat)
    ensures Power(n + 1) == Times3(Power(n))
  {
    IterLast(Times3, 1, n);
  }

  function Five(a: byte): byte { Times3(Times3(Times3(Times3(Times3(a))))) }

  lemma PowerFive(n: nat)
    ensures Power(n + 5) == Five(Power(n))
  {
    PowerNext(n); PowerNext(n + 1); PowerNext(n + 2); PowerNext(n + 3); PowerNext(n + 4);
  }

  lemma PowerSeventeen(n: nat, from: byte, last: byte)
    requires Power(n) == from && Times3(Times3(Five(Five(Five(from))))) == last
    ensures Power(n + 17) == last
  {
    PowerFive(n); PowerFive(n + 5); PowerFive(n + 10); PowerNext(n + 15); PowerNext(n + 16);
  }

  /** The order of x + 1 divides 255, but is none of the largest proper divisors. */
  lemma Orders()
    ensures Power(255) == 1 && Power(85) != 1 && Power(51) != 1 && Power(15) != 1
  {
    PowerFive(0); PowerFive(5); PowerFive(10);
    PowerSeventeen(0, 0x01, 0xE1); PowerSeventeen(17, 0xE1, 0x5C); PowerSeventeen(34, 0x5C, 0x0C);
    PowerSeventeen(51, 0x0C, 0xE0); PowerSeventeen(68, 0xE0, 0xBD); PowerSeventeen(85, 0xBD, 0x50);
    PowerSeventeen(102, 0x50, 0xEC); PowerSeventeen(119, 0xEC, 0x5D); PowerSeventeen(136, 0x5D, 0xED);
    PowerSeventeen(153, 0xED, 0xBC); PowerSeventeen(170, 0xBC, 0xB1); PowerSeventeen(187, 0xB1, 0xB0);
    PowerSeventeen(204, 0xB0, 0x51); PowerSeventeen(221, 0x51, 0x0D); PowerSeventeen(238, 0x0D, 0x01);
  }

  /** Equal powers stay equal when steps are taken back, and an exponent with the power 1 is a period. */
  lemma {:induction false} TakeBack(i: nat, n: nat)
    requires Power(i + n) == Power(i)
    ensures Power(n) == 1
    decreases i
  {
    if i > 0 {
      PowerNext(i - 1);
      PowerNext(i - 1 + n);
      ThirdInverts(Power(i - 1));
      ThirdInverts(Power(i - 1 + n));
      TakeBack(i - 1, n);
    }
  }

  lemma {:induction false} Period(d: nat, n: nat)
    requires Power(d) == 1
    ensures Power(d + n) == Power(n)
    decreases n
  {
    if n > 0 {
      Period(d, n - 1);
      PowerNext(d + (n - 1));
      PowerNext(n - 1);
    }
  }

  lemma {:induction false} Remainder(d: nat, n: nat)
    requires d > 0 && Power(d) == 1
    ensures Power(n) == Power(n % d)
    decreases n
  {
    if n < d {
      DivModUnique(n, d, 0, n);
    } else {
      Period(d, n - d);
      Remainder(d, n - d);
      DivModUnique(n, d, (n - d) / d + 1, (n - d) % d);
    }
  }

  /** A proper divisor of 255 divides 85, 51 or 15. */
  lemma ProperDivisor(n: nat)
    requires 0 < n < 255 && 255 % n == 0
    ensures 85 % n == 0 || 51 % n == 0 || 15 % n == 0
  {
    var q := 255 / n;
    assert 255 == n * q;
    if n > 15 && q > 15 {
      Product16(n, q);
    } else if n <= 15 {
      SmallFactor(n, q);
    } else {
      SmallFactor(q, n);
    }
  }

  lemma Product16(n: nat, q: nat)
    requires n >= 16 && q >= 16
    ensures n * q >= 256
  {
  }

  lemma SmallFactor(a: nat, b: nat)
    requires a <= 15 && a * b == 255
    ensures (a, b) in {(1, 255), (3, 85), (5, 51), (15, 17)}
  {
    if a <= 7 {
      assert a == 0 || a == 1 || a == 2 || a == 3 || a == 4 || a == 5 || a == 6 || a == 7;
    } else {
      assert a == 8 || a == 9 || a == 10 || a == 11 || a == 12 || a == 13 || a == 14 || a == 15;
    }
  }

  /** No shorter period: x + 1 generates all powers up to 255. */
  lemma {:induction false} NoShorterPeriod(n: nat)
    requires 0 < n < 255
    ensures Power(n) != 1
    decreases n
  {
    if Power(n) == 1 {
      Orders();
      Remainder(n, 255);
      if 255 % n > 0 {
        NoShorterPeriod(255 % n);
      } else {
        ProperDivisor(n);
        Remainder(n, 85);
        Remainder(n, 51);
        Remainder(n, 15);
      }
    }
  }

  lemma PowersDiffer(i: nat, j: nat)
    requires i < j < i + 255
    ensures Power(i) != Power(j)
  {
    if Power(i) == Power(j) {
      assert j == i + (j - i);
      TakeBack(i, j - i);
      NoShorterPeriod(j - i);
    }
  }

  lemma Times3NonZero(p: byte)
    requires p != 0
    ensures Times3(p) != 0
  {
    ThirdInverts(p);
  }

  lemma {:induction false} PowerNonZero(n: nat)
    ensures Power(n) != 0
  {
    if n > 0 {
      PowerNonZero(n - 1);
      PowerNext(n - 1);
      Times3NonZero(Power(n - 1));
    }
  }

  // ---- Every byte but zero is a power ----

  /** The bytes below n. */
  ghost function Below(n: nat): (s: set<byte>)
    requires n <= 256
    ensures |s| <= n
  {
    if n == 0 then {} else Below(n - 1) + {(n - 1) as byte}
  }

  lemma SameByte(b: byte, n: nat)
    requires b as nat == n
    ensures n < 256 && n as byte == b
  {
    Convert.NatOfByte(b);
  }

  lemma {:induction false} InBelow(b: byte, n: nat)
    requires b as nat < n <= 256
    ensures b in Below(n)
  {
    if b as nat < n - 1 {
      InBelow(b, n - 1);
    } else {
      SameByte(b, n - 1);
    }
  }

  ghost function Powers(n: nat): set<byte> {
    if n == 0 then {} else Powers(n - 1) + {Power(n - 1)}
  }

  lemma {:induction false} InPowers(b: byte, n: nat)
    ensures b in Powers(n) <==> exists i: nat :: i < n && Power(i) == b
  {
    if n > 0 {
      InPowers(b, n - 1);
      assert b in Powers(n) && b !in Powers(n - 1) ==> Power(n - 1) == b;
    }
  }

  lemma {:induction false} PowersCount(n: nat)
    requires n <= 255
    ensures |Powers(n)| == n
  {
    if n > 0 {
      PowersCount(n - 1);
      InPowers(Power(n - 1), n - 1);
      forall i: nat | i < n - 1 ensures Power(i) != Power(n - 1) {
        PowersDiffer(i, n - 1);
      }
    }
  }

  lemma SubsetCount<T>(a: set<T>, b: set<T>)
    requires a <= b
    ensures |a| <= |b|
  {
    assert b == a + (b - a);
  }

  lemma AtMost256(s: set<byte>)
    ensures |s| <= 256
  {
    forall x | x in s ensures x in Below(256) {
      Convert.NatOfByte(x);
      InBelow(x, 256);
    }
    SubsetCount(s, Below(256));
  }

  lemma EveryByteIsPower(b: byte)
    requires b != 0
    ensures exists n: nat :: n < 255 && Power(n) == b
  {
    InPowers(b, 255);
    if b !in Powers(255) {
      PowersCount(255);
      InPowers(0, 255);
      forall i: nat | i < 255 ensures Power(i) != 0 {
        PowerNonZero(i);
      }
      AtMost256(Powers(255) + {0} + {b});
    }
  }

  ghost function Log(b: byte): (n: nat)
    requires b != 0
    ensures n < 255 && Power(n) == b
  {
    EveryByteIsPower(b);
    var n: nat :| n < 255 && Power(n) == b;
    n
  }

  // ---- Inverses ----

  /** The inverse for the multiplication; zero for zero. */
  ghost function Inverse(b: byte): byte {
    if b == 0 then 0 else Power(255 - Log(b))
  }

  lemma InverseOfPower(n: nat)
    requires n <= 255
    ensures Inverse(Power(n)) == Power(255 - n)
  {
    PowerNonZero(n);
    Orders();
    assert Power(0) == 1;
    var m := Log(Power(n));
    if m < n && n < 255 {
      PowersDiffer(m, n);
    } else if n < m {
      PowersDiffer(n, m);
    } else if n == 255 && m > 0 {
      PowersDiffer(0, m);
    }
  }

  lemma InverseTwice(b: byte)
    ensures Inverse(Inverse(b)) == b
  {
    if b != 0 {
      InverseOfPower(255 - Log(b));
    }
  }

  lemma {:induction false} MulZero(a: byte)
    ensures Mul(a, 0) == 0 && Mul(a, 1) == a
  {
    assert (1 as byte) >> 1 == 0;
  }

  lemma XorAssociate(a: byte, b: byte, c: byte)
    ensures Xor(Xor(a, b), c) == Xor(a, Xor(b, c)) && Xor(b, c) == Xor(c, b)
  {
  }

  lemma XorFour(a: byte, b: byte, c: byte, d: byte)
    ensures Xor(Xor(a, b), Xor(c, d)) == Xor(Xor(a, c), Xor(b, d))
  {
    XorAssociate(a, b, Xor(c, d));
    XorAssociate(b, c, d);
    XorAssociate(c, b, d);
    XorAssociate(a, c, Xor(b, d));
  }

  lemma HalvesLinear(b: byte, c: byte)
    ensures Xor(b, c) >> 1 == Xor(b >> 1, c >> 1)
  {
  }

  /** The product distributes over sums on both sides. */
  lemma {:induction false} MulLeft(a: byte, b: byte, c: byte)
    ensures Mul(Xor(a, b), c) == Xor(Mul(a, c), Mul(b, c))
    decreases c
  {
    if c != 0 {
      MulLeft(Mul2(a), Mul2(b), c >> 1);
      Mul2Linear(a, b);
      XorFour(Choose(c, a), Choose(c, b), Mul(Mul2(a), c >> 1), Mul(Mul2(b), c >> 1));
      ChooseLeft(c, a, b);
    }
  }

  lemma {:induction false} MulRight(a: byte, b: byte, c: byte)
    ensures Mul(a, Xor(b, c)) == Xor(Mul(a, b), Mul(a, c))
    decreases b | c
  {
    MulStep(a, b);
    MulStep(a, c);
    MulStep(a, Xor(b, c));
    if b != 0 || c != 0 {
      Smaller(b, c);
      MulRight(Mul2(a), b >> 1, c >> 1);
      HalvesLinear(b, c);
      XorFour(Choose(b, a), Choose(c, a), Mul(Mul2(a), b >> 1), Mul(Mul2(a), c >> 1));
      ChooseRight(b, c, a);
    }
  }

  lemma Smaller(b: byte, c: byte)
    requires b != 0 || c != 0
    ensures (b >> 1) | (c >> 1) < b | c
  {
  }

  function Choose(c: byte, a: byte): byte { if c & 1 != 0 then a else 0 }

  lemma ChooseLeft(c: byte, a: byte, b: byte)
    ensures Choose(c, Xor(a, b)) == Xor(Choose(c, a), Choose(c, b))
  {
  }

  lemma ChooseRight(b: byte, c: byte, a: byte)
    ensures Choose(Xor(b, c), a) == Xor(Choose(b, a), Choose(c, a))
  {
  }

  lemma MulStep(a: byte, b: byte)
    ensures Mul(a, b) == Xor(Choose(b, a), Mul(Mul2(a), b >> 1))
  {
    if b == 0 {
      assert b >> 1 == 0;
    }
  }

  lemma {:induction false} MulTwiceLeft(a: byte, b: byte)
    ensures Mul(Mul2(a), b) == Mul2(Mul(a, b))
    decreases b
  {
    if b != 0 {
      MulTwiceLeft(Mul2(a), b >> 1);
      Mul2Linear(Choose(b, a), Mul(Mul2(a), b >> 1));
      ChooseTwice(b, a);
    }
  }

  lemma ChooseTwice(b: byte, a: byte)
    ensures Mul2(Choose(b, a)) == Choose(b, Mul2(a))
  {
  }

  lemma {:induction false} MulOdd(a: byte, b: byte, half: byte, rest: byte)
    requires b & 1 != 0 && b >> 1 == half && Mul(Mul2(a), half) == rest
    ensures Mul(a, b) == Xor(a, rest)
  {
    MulStep(a, b);
  }

  lemma {:induction false} MulEven(a: byte, b: byte, half: byte, rest: byte)
    requires b & 1 == 0 && b >> 1 == half && Mul(Mul2(a), half) == rest
    ensures Mul(a, b) == rest
  {
    MulStep(a, b);
    XorZero(rest);
  }

  lemma {:induction false} MulByReduced(a: byte, a2: byte, a4: byte, a8: byte, a16: byte)
    requires a2 == Mul2(a) && a4 == Mul2(a2) && a8 == Mul2(a4) && a16 == Mul2(a8)
    ensures Mul(a, 0x1B) == Xor(a, Xor(a2, Xor(a8, a16)))
  {
    MulZero(a16);
    MulOdd(a8, 3, 1, a16);
    MulEven(a4, 6, 3, Xor(a8, a16));
    MulOdd(a2, 13, 6, Xor(a8, a16));
    MulOdd(a, 27, 13, Xor(a2, Xor(a8, a16)));
  }

  lemma {:induction false} MulByHigh(a: byte, a4: byte, a16: byte, a64: byte)
    requires a4 == Mul2(Mul2(a)) && a16 == Mul2(Mul2(a4)) && a64 == Mul2(Mul2(a16))
    ensures Mul(a, 0x80) == Mul2(a64)
  {
    MulZero(Mul2(a64));
    MulEven(a64, 2, 1, Mul2(a64));
    MulEven(Mul2(a16), 4, 2, Mul2(a64));
    MulEven(a16, 8, 4, Mul2(a64));
    MulEven(Mul2(a4), 16, 8, Mul2(a64));
    MulEven(a4, 32, 16, Mul2(a64));
    MulEven(Mul2(a), 64, 32, Mul2(a64));
    MulEven(a, 128, 64, Mul2(a64));
  }

  lemma {:induction false} EightTimes(a: byte)
    ensures Mul(a, 0x1B) == Mul(Mul2(a), 0x80)
  {
    var a2, a4, a8 := Mul2(a), Mul2(Mul2(a)), Mul2(Mul2(Mul2(a)));
    MulByReduced(a, a2, a4, a8, Mul2(a8));
    MulByHigh(a2, a8, Mul2(Mul2(a8)), Mul2(Mul2(Mul2(Mul2(a8)))));
    ReduceEighth(a);
  }

  lemma ReduceEighth(a: byte)
    ensures Mul2(Mul2(Mul2(Mul2(Mul2(Mul2(Mul2(Mul2(a)))))))) == Xor(a, Xor(Mul2(a), Xor(Mul2(Mul2(Mul2(a))), Mul2(Mul2(Mul2(Mul2(a)))))))
  {
  }

  lemma LowBits(b: byte)
    requires b & 0x80 == 0
    ensures Mul2(b) == b << 1 && (b << 1) >> 1 == b && (b << 1) & 1 == 0
  {
  }

  lemma HighBit(b: byte)
    requires b & 0x80 != 0
    ensures var c := b & 0x7F; c & 0x80 == 0 && b == Xor(c, 0x80) && Mul2(b) == Xor(c << 1, 0x1B)
  {
  }

  lemma {:induction false} MulShift(a: byte, b: byte)
    requires b & 0x80 == 0
    ensures Mul(a, b << 1) == Mul(Mul2(a), b)
  {
    LowBits(b);
    MulStep(a, b << 1);
    XorZero(Mul(Mul2(a), b));
  }

  lemma XorZero(a: byte)
    ensures Xor(0, a) == a && Xor(a, 0) == a
  {
  }

  /** A factor x can move from one side to the other, and so can x + 1. */
  lemma {:induction false} MulTwice(a: byte, b: byte)
    ensures Mul(a, Mul2(b)) == Mul(Mul2(a), b)
  {
    if b & 0x80 == 0 {
      LowBits(b);
      MulShift(a, b);
    } else {
      HighBit(b);
      var c := b & 0x7F;
      MulShift(a, c);
      MulRight(a, c << 1, 0x1B);
      MulRight(Mul2(a), c, 0x80);
      EightTimes(a);
    }
  }

  lemma Times3IsSum(a: byte)
    ensures Times3(a) == Xor(a, Mul2(a))
  {
  }

  lemma {:induction false} MulThrice(a: byte, b: byte)
    ensures Mul(a, Times3(b)) == Mul(Times3(a), b)
  {
    Times3IsSum(a);
    Times3IsSum(b);
    MulLeft(a, Mul2(a), b);
    MulRight(a, b, Mul2(b));
    MulTwice(a, b);
  }

  lemma {:induction false} MulPowers(n: nat, m: nat)
    ensures Mul(Power(n), Power(m)) == Power(n + m)
    decreases m
  {
    if m == 0 {
      MulZero(Power(n));
    } else {
      PowerNext(m - 1);
      PowerNext(n);
      MulThrice(Power(n), Power(m - 1));
      MulPowers(n + 1, m - 1);
    }
  }

  /** Inverse is the multiplicative inverse, and the only one. */
  lemma {:induction false} InverseIsInverse(b: byte, c: byte)
    requires b != 0
    ensures Mul(b, c) == 1 <==> c == Inverse(b)
  {
    var i := Log(b);
    MulPowers(i, 255 - i);
    Orders();
    if c == 0 {
      MulZero(b);
    } else {
      var j := Log(c);
      MulPowers(i, j);
      if Mul(b, c) == 1 {
        Remainder(255, i + j);
        if (i + j) % 255 != 0 {
          NoShorterPeriod((i + j) % 255);
        }
        InverseOfPower(i);
        assert Power(0) == 1;
        assert i + j == 0 || i + j == 255;
      }
    }
  }

  // ---- The substitution of section 5.1.1 ----

  /** Bit i of the result is the sum of the bits i, i + 4, i + 5, i + 6 and i + 7 of the argument and bit i of 0x63. */
  function Affine(q: byte): byte {
    q ^ q.RotateRight(4) ^ q.RotateRight(5) ^ q.RotateRight(6) ^ q.RotateRight(7) ^ 0x63
  }

  function UnAffine(y: byte): byte {
    y.RotateRight(2) ^ y.RotateRight(5) ^ y.RotateRight(7) ^ 0x05
  }

  lemma AffineInverts(y: byte)
    ensures UnAffine(Affine(y)) == y && Affine(UnAffine(y)) == y
  {
  }

  ghost function SBox(b: byte): byte { Affine(Inverse(b)) }

  ghost function UnSBox(y: byte): byte { Inverse(UnAffine(y)) }

  /** The substitution is a permutation. */
  lemma SBoxInverts(b: byte)
    ensures UnSBox(SBox(b)) == b && SBox(UnSBox(b)) == b
  {
    AffineInverts(Inverse(b));
    InverseTwice(b);
    InverseTwice(UnAffine(b));
    AffineInverts(b);
  }
}
