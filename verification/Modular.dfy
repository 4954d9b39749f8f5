/** Arithmetic modulo a number. */
module Modular {
  import opened Bytes

  lemma ModuloIs(n: int, q: int, r: nat, p: nat)
    requires n == q * p + r && r < p
    ensures n % p == r
  {
    QuotientUnique(p, q, r, n / p, n % p);
  }

  lemma Divided(n: nat, p: nat)
    requires p > 0
    ensures n == n / p * p + n % p && n % p < p
  {
  }

  /** Factors may be reduced first. */
  lemma ReduceFactor(x: nat, y: nat, p: nat)
    requires p > 0
    ensures x % p * y % p == x * y % p
  {
    var q, r := x / p, x % p;
    var q', r' := r * y / p, r * y % p;
    Divided(x, p);
    Divided(r * y, p);
    Spread(q, p, r, y);
    Combine(q * y, q', p);
    ModuloIs(x * y, q * y + q', r', p);
  }

  lemma Spread(q: nat, p: nat, r: nat, y: nat)
    ensures (q * p + r) * y == q * y * p + r * y
  {
    calc {
      (q * p + r) * y;
      q * p * y + r * y;
      { Commute(q, p, y); }
      q * y * p + r * y;
    }
  }

  lemma SpreadProduct(b: nat, q: int, p: nat, i: nat)
    ensures b * (q * p + i) == b * q * p + b * i
  {
  }

  lemma Combine(a: nat, b: nat, p: nat)
    ensures (a + b) * p == a * p + b * p
  {
  }

  lemma ReduceRight(x: nat, y: nat, p: nat)
    requires p > 0
    ensures x * (y % p) % p == x * y % p
  {
    ReduceFactor(y, x, p);
  }

  lemma ReduceInner(x: nat, y: nat, z: nat, p: nat)
    requires p > 0
    ensures x * y * z % p == x * (y * z % p) % p
  {
    Associate(x, y, z);
    ReduceRight(x, y * z, p);
  }

  lemma ReduceBoth(x: nat, y: nat, p: nat)
    requires p > 0
    ensures x % p * (y % p) % p == x * y % p
  {
    ReduceFactor(x, y % p, p);
    ReduceRight(x, y, p);
  }

  lemma Associate(a: nat, b: nat, c: nat)
    ensures a * b * c == a * (b * c)
  {
  }

  /** Reducing first by a multiple of the modulus changes nothing. */
  lemma ReduceTwice(n: nat, p: nat, d: nat)
    requires p > 0 && d > 0 && p % d == 0
    ensures n % p % d == n % d
  {
    hide *;
    var q, r, m := n / p, n % p, p / d;
    Divided(n, p);
    Divided(p, d);
    Divided(r, d);
    Rearranged(q, m, d, r / d, r % d);
    ModuloIs(n, q * m + r / d, r % d, d);
  }

  lemma Rearranged(q: nat, m: nat, d: nat, s: nat, t: nat)
    ensures q * (m * d) + (s * d + t) == (q * m + s) * d + t
  {
    Associate(q, m, d);
    Combine(q * m, s, d);
  }

  lemma OneTimesOne(y: nat, z: nat, p: nat, d: nat)
    requires p > 0 && d > 1 && p % d == 0 && y % d == 1 && z % d == 1
    ensures y * z % p % d == 1
  {
    ReduceTwice(y * z, p, d);
    ReduceBoth(y, z, d);
    ModuloIs(1, 0, 1, d);
  }

  /** A common divisor, as a combination of the two numbers. */
  lemma {:induction false} Bezout(a: nat, b: nat) returns (g: nat, x: int, y: int)
    requires a > 0
    ensures g > 0 && a % g == 0 && b % g == 0 && a * x + b * y == g
    decreases b
  {
    if b == 0 {
      g, x, y := a, 1, 0;
      ModuloIs(a, 1, 0, a);
      ModuloIs(0, 0, 0, a);
    } else {
      var q, r := a / b, a % b;
      var x', y';
      g, x', y' := Bezout(b, r);
      x, y := y', x' - q * y';
      BackUp(a, b, q, r, x', y');
      SumDivides(q, b, r, g);
    }
  }

  lemma BackUp(a: nat, b: nat, q: nat, r: nat, x: int, y: int)
    requires a == q * b + r
    ensures a * y + b * (x - q * y) == b * x + r * y
  {
    calc {
      a * y + b * (x - q * y);
      (q * b + r) * y + b * x - b * (q * y);
      { assert (q * b + r) * y == q * b * y + r * y; assert q * b * y == b * (q * y); }
      b * x + r * y;
    }
  }

  lemma SumDivides(q: nat, b: nat, r: nat, g: nat)
    requires g > 0 && b % g == 0 && r % g == 0
    ensures (q * b + r) % g == 0
  {
    hide *;
    var m, n := b / g, r / g;
    assert b == m * g && r == n * g by { Divided(b, g); Divided(r, g); }
    Associate(q, m, g);
    Combine(q * m, n, g);
    ModuloIs(q * b + r, q * m + n, 0, g);
  }
}
