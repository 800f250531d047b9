/** Division, remainder and powers of two, with the nonlinear steps kept apart. */
module Arith {

  lemma MulAtLeast(d: int, k: int)
    requires d > 0 && k >= 1
    ensures d * k >= d
  {
  }

  lemma Distribute(d: int, a: int, b: int)
    ensures d * (a - b) == d * a - d * b
  {
  }

  /** A quotient with a small remainder is the quotient. */
  lemma DivModUnique(n: int, d: int, q: int, r: int)
    requires d > 0 && n == d * q + r && 0 <= r < d
    ensures n / d == q && n % d == r
  {
    var p := n / d;
    assert n == d * p + n % d;
    Distribute(d, p, q);
    Distribute(d, q, p);
    if p < q { MulAtLeast(d, q - p); }
    if p > q { MulAtLeast(d, p - q); }
  }

  lemma MulAssociate(a: int, b: int, c: int)
    ensures a * (b * c) == (a * b) * c
  {
  }

  /** Reducing modulo a multiple first changes nothing. */
  lemma ModuloTower(n: int, small: nat, factor: nat)
    requires small > 0 && factor > 0
    ensures small * factor > 0 && n % (small * factor) % small == n % small
  {
    MulAtLeast(small, factor);
    var w := small * factor;
    var q, r := n / w, n % w;
    MulAssociate(small, factor, q);
    Distribute(small, factor * q, -(r / small));
    DivModUnique(n, small, factor * q + r / small, r % small);
  }

  lemma SplitModulo(n: nat, p: nat)
    requires p > 0
    ensures n % (256 * p) == n % 256 + 256 * ((n / 256) % p) && n / (256 * p) == n / 256 / p
  {
    var a, b, r := n / 256 / p, (n / 256) % p, n % 256;
    assert n / 256 == p * a + b;
    MulAssociate(256, p, a);
    DivModUnique(n, 256 * p, a, 256 * b + r);
  }

  function Pow2(n: nat): (p: nat)
    ensures p > 0
  {
    if n == 0 then 1 else 2 * Pow2(n - 1)
  }

  lemma Pow2Values()
    ensures Pow2(1) == 2 && Pow2(2) == 4 && Pow2(3) == 8 && Pow2(4) == 16
    ensures Pow2(5) == 32 && Pow2(6) == 64 && Pow2(7) == 128 && Pow2(8) == 256
  {
  }

  lemma {:induction false} Pow2Add(a: nat, b: nat)
    ensures Pow2(a + b) == Pow2(a) * Pow2(b)
  {
    if a > 0 {
      Pow2Add(a - 1, b);
      MulAssociate(2, Pow2(a - 1), Pow2(b));
    }
  }

  lemma {:induction false} Pow2Monotone(a: nat, b: nat)
    requires a <= b
    ensures Pow2(a) <= Pow2(b)
    decreases b - a
  {
    if a < b {
      Pow2Monotone(a + 1, b);
    }
  }
}
