/** Numbers as bytes. */
module Bytes {

  type Byte = n: nat | n < 256

  function Pow2(k: nat): (p: nat)
    ensures p > 0
  {
    if k == 0 then 1 else 2 * Pow2(k - 1)
  }

  /** The number of bits a number takes. */
  function Bits(n: nat): nat {
    if n == 0 then 0 else 1 + Bits(n / 2)
  }

  lemma {:induction false} BitsBound(n: nat)
    ensures n < Pow2(Bits(n))
  {
    if n > 0 {
      BitsBound(n / 2);
    }
  }

  lemma {:induction false} Pow2Add(a: nat, b: nat)
    ensures Pow2(a + b) == Pow2(a) * Pow2(b)
  {
    if a > 0 {
      Pow2Add(a - 1, b);
      var x, y := Pow2(a - 1), Pow2(b);
      assert Pow2(a + b) == 2 * Pow2(a - 1 + b) && Pow2(a) == 2 * x;
      hide Pow2;
      Doubled(x, y);
    }
  }

  lemma Doubled(x: nat, y: nat)
    ensures 2 * (x * y) == 2 * x * y
  {
  }

  lemma {:induction false} Pow2Monotone(a: nat, b: nat)
    requires a <= b
    ensures Pow2(a) <= Pow2(b)
  {
    if a < b {
      Pow2Monotone(a, b - 1);
    }
  }

  // ----- little endian -----

  /** The `k` low bytes of `n`, the lowest first. */
  function ToLE(n: nat, k: nat): (bytes: seq<Byte>)
    ensures |bytes| == k
    decreases k
  {
    if k == 0 then [] else [n % 256] + ToLE(n / 256, k - 1)
  }

  function FromLE(bytes: seq<Byte>): nat {
    if bytes == [] then 0 else bytes[0] + 256 * FromLE(bytes[1..])
  }

  lemma {:induction false} FromToLE(n: nat, k: nat)
    requires n < Pow2(8 * k)
    ensures FromLE(ToLE(n, k)) == n
    decreases k
  {
    if k > 0 {
      assert Pow2(8 * k) == 256 * Pow2(8 * (k - 1)) by {
        Pow2Add(8, 8 * (k - 1));
        assert Pow2(8) == 256 by { assert Pow2(4) == 16; }
      }
      FromToLE(n / 256, k - 1);
      assert ToLE(n, k)[1..] == ToLE(n / 256, k - 1);
    }
  }

  lemma {:induction false} FromLEBound(bytes: seq<Byte>)
    ensures FromLE(bytes) < Pow2(8 * |bytes|)
  {
    if bytes != [] {
      FromLEBound(bytes[1..]);
      Pow2Add(8, 8 * (|bytes| - 1));
      assert Pow2(8) == 256 by { assert Pow2(4) == 16; }
    }
  }

  /** Dropping high bytes that are zero keeps the number. */
  lemma {:induction false} ToLEPrefix(n: nat, j: nat, k: nat)
    requires j <= k
    ensures ToLE(n, k)[..j] == ToLE(n, j)
    decreases j
  {
    if j > 0 {
      ToLEPrefix(n / 256, j - 1, k - 1);
      assert ToLE(n, k)[..j] == [n % 256] + ToLE(n / 256, k - 1)[..j - 1];
    }
  }

  lemma {:induction false} ToLEAt(n: nat, k: nat, i: nat)
    requires i < k
    ensures ToLE(n, k)[i] == n / Pow2(8 * i) % 256
    decreases k
  {
    if i > 0 {
      ToLEAt(n / 256, k - 1, i - 1);
      Pow2Add(8, 8 * (i - 1));
      assert Pow2(8) == 256 by { assert Pow2(4) == 16; }
      DivDiv(n, 256, Pow2(8 * (i - 1)));
    }
  }

  lemma DivDiv(n: nat, a: nat, b: nat)
    requires a > 0 && b > 0
    ensures a * b > 0 && n / a / b == n / (a * b)
  {
    var q, r := n / a, n % a;
    var q', r' := q / b, q % b;
    MulPositive(a, b);
    Regroup(n, q, q', b, r', a, r);
    Small(r', a, r, b);
    QuotientIs(n, a * b, q', r' * a + r);
  }

  lemma MulPositive(a: nat, b: nat)
    requires a > 0 && b > 0
    ensures a * b > 0
  {
  }

  lemma Regroup(n: nat, q: nat, q': nat, b: nat, r': nat, a: nat, r: nat)
    requires n == a * q + r && q == b * q' + r'
    ensures n == q' * (a * b) + (r' * a + r)
  {
    Distribute(a, b * q', r');
    Commute(a, b, q');
  }

  lemma Distribute(a: nat, x: nat, y: nat)
    ensures a * (x + y) == a * x + y * a
  {
  }

  lemma Commute(a: nat, b: nat, c: nat)
    ensures a * (b * c) == c * (a * b)
  {
  }

  lemma Small(r: nat, a: nat, s: nat, b: nat)
    requires r < b && s < a
    ensures r * a + s < a * b
  {
    assert (r + 1) * a <= b * a;
  }

  lemma MulAtMost(a: int, b: int, d: nat)
    requires a <= b
    ensures a * d <= b * d
  {
  }

  lemma MulSucc(a: int, d: int)
    ensures (a + 1) * d == a * d + d
  {
  }

  lemma QuotientUnique(d: nat, q: int, r: nat, q': int, r': nat)
    requires r < d && r' < d && q * d + r == q' * d + r'
    ensures q == q' && r == r'
  {
    if q < q' {
      MulAtMost(q + 1, q', d);
      MulSucc(q, d);
    } else if q > q' {
      MulAtMost(q' + 1, q, d);
      MulSucc(q', d);
    }
  }

  lemma QuotientIs(n: nat, d: nat, q: nat, r: nat)
    requires d > 0 && n == q * d + r && r < d
    ensures n / d == q && n % d == r
  {
    QuotientUnique(d, q, r, n / d, n % d);
  }
}
