/** The field's modulus is a prime, so every number that it does not divide has an inverse. */
module PrimeField {
  import opened Bytes
  import opened Modular
  import opened Values
  import opened SquareRoots

  /** A residue below the prime. */
  type Residue = n: nat | n < PRIME

  // ----- powers -----

  function Power(x: Residue, k: nat): (r: Residue) {
    if k == 0 then 1 else x * Power(x, k - 1) % PRIME
  }

  lemma NoPower(x: Residue)
    ensures Power(x, 0) == 1
  {
  }

  lemma OnePower(x: Residue, k: nat)
    requires k > 0
    ensures Power(x, k) == x * Power(x, k - 1) % PRIME
  {
  }

  lemma {:induction false} PowerAdd(x: Residue, a: nat, b: nat)
    ensures Power(x, a + b) == Power(x, a) * Power(x, b) % PRIME
  {
    hide Power;
    if a == 0 {
      NoPower(x);
      ModuloIs(Power(x, b), 0, Power(x, b), PRIME);
    } else {
      OnePower(x, a);
      OnePower(x, a + b);
      PowerAdd(x, a - 1, b);
      NextPower(x, Power(x, a - 1), Power(x, b));
      assert a + b - 1 == a - 1 + b;
    }
  }

  lemma NextPower(x: nat, y: nat, z: nat)
    ensures x * (y * z % PRIME) % PRIME == x * y % PRIME * z % PRIME
  {
    ReduceRight(x, y * z, PRIME);
    Associate(x, y, z);
    ReduceFactor(x * y, z, PRIME);
  }

  lemma {:induction false} PowerOfTwo(x: Residue, k: nat)
    ensures Power(x, Pow2(k)) == Squarings(x, k)
  {
    if k == 0 {
      ModuloIs(x, 0, x, PRIME);
      assert Power(x, 1) == x * Power(x, 0) % PRIME;
    } else {
      PowerOfTwo(x, k - 1);
      PowerAdd(x, Pow2(k - 1), Pow2(k - 1));
    }
  }

  lemma {:induction false} PowersOfOne(x: Residue, e: nat, m: nat, d: nat)
    requires d > 1 && PRIME % d == 0 && Power(x, e) % d == 1
    ensures Power(x, e * m) % d == 1
  {
    hide Power;
    if m == 0 {
      NoPower(x);
      ModuloIs(1, 0, 1, d);
    } else {
      PowersOfOne(x, e, m - 1, d);
      assert e * m == e * (m - 1) + e;
      PowerAdd(x, e * (m - 1), e);
      var y, z := Power(x, e * (m - 1)), Power(x, e);
      OneTimesOne(y, z, PRIME, d);
    }
  }

  lemma MinusOneSquared()
    ensures (PRIME - 1) * (PRIME - 1) % PRIME == 1
  {
    ModuloIs((PRIME - 1) * (PRIME - 1), PRIME - 2, 1, PRIME);
  }

  /** Where a power is minus one, so are its odd powers. */
  lemma {:induction false} OddPowers(x: Residue, half: nat, e: nat)
    requires Power(x, half) == PRIME - 1 && e % 2 == 1
    ensures Power(x, half * e) == PRIME - 1
  {
    if e == 1 {
      assert half * e == half;
    } else {
      OddPowers(x, half, e - 2);
      hide Power;
      assert half * e == half * (e - 2) + (half + half);
      PowerAdd(x, half, half);
      MinusOneSquared();
      PowerAdd(x, half * (e - 2), half + half);
      ModuloIs(PRIME - 1, 0, PRIME - 1, PRIME);
    }
  }

  // ----- divisors -----

  /** A residue whose 2^125th power is minus one. */
  ghost predicate HalfTurn(g: Residue) {
    Power(g, Pow2(125)) == PRIME - 1
  }

  lemma MinusOneIsNotOne(d: nat)
    requires d > 1 && PRIME % d == 0
    ensures (PRIME - 1) % d != 1
  {
    var m := PRIME / d;
    assert PRIME == m * d;
    MulSucc(m - 1, d);
    ModuloIs(PRIME - 1, m - 1, d - 1, d);
    assert d != 2;
  }

  /** No power below the 2^126th is one, modulo any divisor. */
  lemma {:induction false} NotOne(g: Residue, d: nat, e: nat, w: nat)
    requires HalfTurn(g) && d > 1 && PRIME % d == 0 && 0 < e < Pow2(w) && w <= 126
    ensures Power(g, e * Pow2(126 - w)) % d != 1
    decreases w
  {
    hide Power;
    if e % 2 == 1 {
      if Power(g, e * Pow2(126 - w)) % d == 1 {
        PowersOfOne(g, e * Pow2(126 - w), Pow2(w - 1), d);
        ToHalf(e, w);
        OddPowers(g, Pow2(125), e);
        MinusOneIsNotOne(d);
        assert false;
      }
    } else {
      NotOne(g, d, e / 2, w - 1);
      DoubleOut(e / 2, 126 - w);
    }
  }

  lemma ToHalf(e: nat, w: nat)
    requires 0 < w <= 126
    ensures e * Pow2(126 - w) * Pow2(w - 1) == Pow2(125) * e
  {
    hide Pow2;
    Pow2Add(126 - w, w - 1);
    Associate(e, Pow2(126 - w), Pow2(w - 1));
    assert e * Pow2(125) == Pow2(125) * e;
  }

  lemma DoubleOut(e: nat, k: nat)
    ensures 2 * e * Pow2(k) == e * Pow2(k + 1)
  {
    var p := Pow2(k);
    assert Pow2(k + 1) == 2 * p;
    assert 2 * e * p == e * (2 * p);
  }

  /** The powers below the 2^126th differ, modulo any divisor. */
  lemma PowersDiffer(g: Residue, d: nat, i: nat, j: nat)
    requires HalfTurn(g) && d > 1 && PRIME % d == 0 && i < j < Pow2(126)
    ensures Power(g, i) % d != Power(g, j) % d
  {
    hide Power, Pow2;
    var all := Pow2(126);
    FullTurn(g);
    var back := Power(g, all - i);
    if Power(g, i) % d == Power(g, j) % d {
      SameProducts(Power(g, i), Power(g, j), back, d);
      PowerAdd(g, i, all - i);
      PowerAdd(g, j, all - i);
      assert i + (all - i) == all && j + (all - i) == all + (j - i);
      PowerAdd(g, all, j - i);
      TimesOne(Power(g, j - i));
      assert Power(g, j - i) % d == 1 % d;
      ModuloIs(1, 0, 1, d);
      NotOneBelow(g, d, j - i);
      assert false;
    }
  }

  lemma SameProducts(x: nat, y: nat, z: nat, d: nat)
    requires d > 0 && PRIME % d == 0 && x % d == y % d
    ensures x * z % PRIME % d == y * z % PRIME % d
  {
    ReduceTwice(x * z, PRIME, d);
    ReduceTwice(y * z, PRIME, d);
    ReduceFactor(x, z, d);
    ReduceFactor(y, z, d);
  }

  lemma TimesOne(x: Residue)
    ensures 1 * x % PRIME == x
  {
    ModuloIs(x, 0, x, PRIME);
  }

  lemma FullTurn(g: Residue)
    requires HalfTurn(g)
    ensures Power(g, Pow2(126)) == 1
  {
    hide Power;
    PowerAdd(g, Pow2(125), Pow2(125));
    MinusOneSquared();
  }

  lemma NotOneBelow(g: Residue, d: nat, e: nat)
    requires HalfTurn(g) && d > 1 && PRIME % d == 0 && 0 < e < Pow2(126)
    ensures Power(g, e) % d != 1
  {
    hide Power;
    NotOne(g, d, e, 126);
    assert Pow2(0) == 1 && e * 1 == e;
  }

  function Residues(g: Residue, d: nat, n: nat): set<nat>
    requires d > 0
  {
    if n == 0 then {} else Residues(g, d, n - 1) + {Power(g, n - 1) % d}
  }

  lemma {:induction false} ResiduesOf(g: Residue, d: nat, n: nat, r: nat) returns (i: nat)
    requires d > 0 && r in Residues(g, d, n)
    ensures i < n && r == Power(g, i) % d
  {
    hide Power;
    if r == Power(g, n - 1) % d {
      i := n - 1;
    } else {
      i := ResiduesOf(g, d, n - 1, r);
    }
  }

  lemma {:induction false} ResiduesCount(g: Residue, d: nat, n: nat)
    requires HalfTurn(g) && d > 1 && PRIME % d == 0 && n <= Pow2(126)
    ensures |Residues(g, d, n)| == n
  {
    hide Power, Pow2, HalfTurn;
    if n > 0 {
      ResiduesCount(g, d, n - 1);
      if Power(g, n - 1) % d in Residues(g, d, n - 1) {
        var i := ResiduesOf(g, d, n - 1, Power(g, n - 1) % d);
        PowersDiffer(g, d, i, n - 1);
        assert false;
      }
    }
  }

  lemma {:induction false} BelowCount(s: set<nat>, d: nat)
    requires forall r :: r in s ==> r < d
    ensures |s| <= d
  {
    if d > 0 {
      BelowCount(s - {d - 1}, d - 1);
    } else {
      assert s == {};
    }
  }

  /** Any divisor is one or above the root of the prime. */
  lemma DivisorsAreBig(d: nat)
    requires d > 1 && PRIME % d == 0
    ensures d >= Pow2(126)
  {
    hide Power, Pow2, Squarings;
    PowerOfTwo(GENERATOR, 125);
    HalfwayRound();
    assert HalfTurn(GENERATOR);
    ResiduesCount(GENERATOR, d, Pow2(126));
    forall r | r in Residues(GENERATOR, d, Pow2(126)) ensures r < d {
      var i := ResiduesOf(GENERATOR, d, Pow2(126), r);
    }
    BelowCount(Residues(GENERATOR, d, Pow2(126)), d);
  }

  lemma Joined(a: nat, b: nat, x: nat, y: nat)
    requires Pow2(a) == x && Pow2(b) == y
    ensures Pow2(a + b) == x * y
  {
    hide Pow2;
    Pow2Add(a, b);
  }

  lemma RootIsBelow()
    ensures Pow2(126) == 0x4000_0000_0000_0000_0000_0000_0000_0000
  {
    hide Pow2;
    SmallPowers();
    Joined(4, 4, 0x10, 0x10);
    Joined(8, 8, 0x100, 0x100);
    Joined(16, 16, 0x1_0000, 0x1_0000);
    Joined(32, 16, 0x1_0000_0000, 0x1_0000);
    Joined(48, 8, 0x1_0000_0000_0000, 0x100);
    Joined(56, 4, 0x100_0000_0000_0000, 0x10);
    Joined(60, 3, 0x1000_0000_0000_0000, 8);
    Joined(63, 63, 0x8000_0000_0000_0000, 0x8000_0000_0000_0000);
  }

  lemma SmallPowers()
    ensures Pow2(3) == 8 && Pow2(4) == 0x10
  {
  }

  /** A number below the prime has no divisor in common with it. */
  lemma NoCommonDivisor(b: Residue, g: nat)
    requires 0 < b && 0 < g && b % g == 0 && PRIME % g == 0
    ensures g == 1
  {
    hide *;
    if g > 1 {
      var m, n := PRIME / g, b / g;
      Divided(PRIME, g);
      Divided(b, g);
      if m <= n { MulAtMost(m, n, g); }
      assert n > 0;
      assert m > 1;
      assert PRIME == g * m;
      ModuloIs(PRIME, g, 0, m);
      DivisorsAreBig(g);
      DivisorsAreBig(m);
      RootIsBelow();
      TooBig(g, m);
    }
  }

  lemma TooBig(g: nat, m: nat)
    requires g >= 0x4000_0000_0000_0000_0000_0000_0000_0000 && m >= 0x4000_0000_0000_0000_0000_0000_0000_0000
    ensures g * m > PRIME
  {
    var r := 0x4000_0000_0000_0000_0000_0000_0000_0000;
    assert g * m >= r * m by { MulAtMost(r, g, m); }
    assert r * m >= r * r;
    assert r * r > PRIME;
  }

  /** The modulus has no divisor but one and itself. */
  lemma ModulusIsPrime(d: nat)
    requires d > 1 && PRIME % d == 0
    ensures d == PRIME
  {
    if d < PRIME {
      ModuloIs(d, 1, 0, d);
      NoCommonDivisor(d, d);
    } else if d > PRIME {
      ModuloIs(PRIME, 0, PRIME, d);
    }
  }

  /** Every residue but zero has an inverse. */
  lemma HasInverse(b: Residue)
    requires b != 0
    ensures exists i: Residue :: b * i % PRIME == 1
  {
    var g, x, y := Bezout(b, PRIME);
    NoCommonDivisor(b, g);
    var i: Residue := x % PRIME;
    var q := x / PRIME;
    assert x == q * PRIME + i;
    assert b * x == b * q * PRIME + b * i by { SpreadProduct(b, q, PRIME, i); }
    ModuloIs(b * i, -(y + b * q), 1, PRIME);
  }

}
