/** Field multiplication and division that skip the conversions to and from Montgomery form. */
module FieldArithmetic {
  import opened Bytes
  import opened Values
  import opened Scalars
  import opened Modular
  import opened PrimeField

  /** A field element as it is kept: its Montgomery representation, the value times R. */
  datatype Felt = Felt(raw: Residue)

  const LIMB: nat := 0x1_0000_0000_0000_0000
  /** 2^256, and the number that times it is one modulo the prime. */
  const R: nat := LIMB * LIMB * LIMB * LIMB
  const R_INVERSE: nat := 0x40000000000001100000000000012100000000000000000000000000000000

  /** The element with a value. */
  function FromValue(n: nat): Felt {
    Felt(n * R % PRIME)
  }

  function ValueOf(f: Felt): Residue {
    f.raw * R_INVERSE % PRIME
  }

  /** Montgomery multiplication: the product of the representations divided by R. */
  function Mul(x: Felt, y: Felt): Felt {
    Felt(x.raw * y.raw * R_INVERSE % PRIME)
  }

  lemma RadixInverse()
    ensures R * R_INVERSE % PRIME == 1
  {
    var q := 0x800000000000010ffffffffffffffffffffffffffffffffffffffffffffffff;
    assert R * R_INVERSE == q * PRIME + 1;
    QuotientIs(R * R_INVERSE, PRIME, q, 1);
  }

  /** Multiplying by R and by its inverse changes nothing. */
  lemma Cancel(n: nat)
    ensures n * R * R_INVERSE % PRIME == n % PRIME
  {
    RadixInverse();
    assert n * R * R_INVERSE == n * (R * R_INVERSE) by { Associate(n, R, R_INVERSE); }
    ReduceRight(n, R * R_INVERSE, PRIME);
  }

  /** Values and representations determine each other. */
  lemma ValueRoundTrip(n: Residue)
    ensures ValueOf(FromValue(n)) == n
  {
    ReduceFactor(n * R, R_INVERSE, PRIME);
    Cancel(n);
    ModuloIs(n, 0, n, PRIME);
  }

  /** Montgomery multiplication multiplies values. */
  lemma MulMultiplies(x: Felt, y: Felt)
    ensures ValueOf(Mul(x, y)) == ValueOf(x) * ValueOf(y) % PRIME
  {
    Products(x.raw, y.raw, R_INVERSE);
  }

  lemma Products(a: nat, b: nat, i: nat)
    ensures a * b * i % PRIME * i % PRIME == a * i % PRIME * (b * i % PRIME) % PRIME
  {
    ReduceFactor(a * b * i, i, PRIME);
    Interchange(a, b, i);
    ReduceBoth(a * i, b * i, PRIME);
  }

  lemma Interchange(a: nat, b: nat, i: nat)
    ensures a * b * i * i == a * i * (b * i)
  {
    calc {
      a * b * i * i;
      { Associate(a, b, i); }
      a * (b * i) * i;
      { Associate(a, b * i, i); }
      a * (b * i * i);
      { assert b * i * i == i * (b * i); }
      a * (i * (b * i));
      { Associate(a, i, b * i); }
      a * i * (b * i);
    }
  }

  /** One operand read as a representation, the other one converted: the representation of the product is
      the product itself. */
  lemma MixedProduct(a: Residue, b: Residue)
    ensures Mul(Felt(a), FromValue(b)).raw == a * b % PRIME
  {
    ReduceMiddle(a, b * R, R_INVERSE);
    Associate(a, b, R);
    Cancel(a * b);
  }

  lemma ReduceMiddle(a: nat, x: nat, y: nat)
    ensures a * (x % PRIME) * y % PRIME == a * x * y % PRIME
  {
    ReduceFactor(a * (x % PRIME), y, PRIME);
    ReduceRight(a, x, PRIME);
    ReduceFactor(a * x, y, PRIME);
  }

  // ----- division -----

  /** Division is the inverse of multiplication: what it gives for a representation and a converted
      divisor has as its representation exactly a quotient of the canonical numbers. */
  lemma MixedQuotient(a: Residue, b: Residue, q: Felt)
    ensures Mul(q, FromValue(b)) == Felt(a) <==> q.raw * b % PRIME == a
  {
    MixedProduct(q.raw, b);
  }

  lemma Quotient(a: Residue, b: Residue, inverse: Residue)
    requires b * inverse % PRIME == 1
    ensures a * inverse % PRIME * b % PRIME == a
    ensures forall q: Residue :: q * b % PRIME == a ==> q == a * inverse % PRIME
  {
    BackToNumerator(a, b, inverse);
    forall q: Residue | q * b % PRIME == a ensures q == a * inverse % PRIME {
      BackToQuotient(q, b, inverse);
    }
  }

  lemma BackToNumerator(a: Residue, b: nat, inverse: nat)
    requires b * inverse % PRIME == 1
    ensures a * inverse % PRIME * b % PRIME == a
  {
    hide *;
    assert inverse * b == b * inverse;
    BackToQuotient(a, inverse, b);
  }

  lemma BackToQuotient(q: Residue, b: nat, inverse: nat)
    requires b * inverse % PRIME == 1
    ensures q * b % PRIME * inverse % PRIME == q
  {
    ReduceFactor(q * b, inverse, PRIME);
    Associate(q, b, inverse);
    ReduceRight(q, b * inverse, PRIME);
    assert q * 1 == q;
    ModuloIs(q, 0, q, PRIME);
  }

  /** Every divisor but zero has exactly one quotient for every numerator. */
  lemma QuotientIsUnique(a: Residue, b: Residue)
    requires b != 0
    ensures exists q: Residue :: q * b % PRIME == a && forall p: Residue :: p * b % PRIME == a ==> p == q
  {
    HasInverse(b);
    var inverse: Residue :| b * inverse % PRIME == 1;
    Quotient(a, b, inverse);
    var q: Residue := a * inverse % PRIME;
    assert q * b % PRIME == a;
  }

  /** Only zero has the value zero. */
  lemma ValueIsZero(y: Felt)
    ensures ValueOf(y) == 0 <==> y.raw == 0
  {
    RawOfValue(y.raw);
    if y.raw == 0 { ModuloIs(0, 0, 0, PRIME); }
  }

  lemma RawOfValue(raw: Residue)
    ensures raw * R_INVERSE % PRIME * R % PRIME == raw
  {
    ReduceFactor(raw * R_INVERSE, R, PRIME);
    assert raw * R_INVERSE * R == raw * R * R_INVERSE by {
      Associate(raw, R_INVERSE, R);
      Associate(raw, R, R_INVERSE);
    }
    Cancel(raw);
    ModuloIs(raw, 0, raw, PRIME);
  }

  /** Something multiplied by the divisor gives the numerator. */
  lemma Divides(x: Felt, y: Felt)
    requires y.raw != 0
    ensures exists q: Felt :: Mul(q, y) == x
  {
    ValueIsZero(y);
    QuotientIsUnique(x.raw, ValueOf(y));
    var raw: Residue :| raw * ValueOf(y) % PRIME == x.raw;
    ReduceInner(raw, y.raw, R_INVERSE, PRIME);
    assert Mul(Felt(raw), y) == x;
  }

  // ----- bytes -----

  lemma {:induction false} FromLEConcat(a: seq<Byte>, b: seq<Byte>)
    ensures FromLE(a + b) == FromLE(a) + Pow2(8 * |a|) * FromLE(b)
  {
    if a == [] {
      assert a + b == b;
    } else {
      FromLEConcat(a[1..], b);
      assert (a + b)[1..] == a[1..] + b;
      Pow2Add(8, 8 * (|a| - 1));
      assert Pow2(8) == 256 by { assert Pow2(4) == 16; }
      Associate(256, Pow2(8 * (|a| - 1)), FromLE(b));
    }
  }

  /** Bytes and numbers of 32 bytes determine each other. */
  lemma {:induction false} ToFromLE(bytes: seq<Byte>)
    ensures ToLE(FromLE(bytes), |bytes|) == bytes
  {
    if bytes != [] {
      ToFromLE(bytes[1..]);
      QuotientIs(FromLE(bytes), 256, FromLE(bytes[1..]), bytes[0]);
    }
  }

  /** The number that four limbs stand for, the most significant one first. */
  function FromLimbs(limbs: seq<nat>): nat
    requires |limbs| == 4
  {
    ((limbs[0] * LIMB + limbs[1]) * LIMB + limbs[2]) * LIMB + limbs[3]
  }

  /** Reads 32 bytes as a representation: four limbs, the least significant first, then reversed. */
  method FromRawLeBytes(buffer: seq<Byte>) returns (raw: nat)
    requires |buffer| == 32
    ensures raw == FromLE(buffer)
  {
    var limbs := new nat[4](_ => 0);
    var i := 0;
    while i < 4
      invariant 0 <= i <= 4
      invariant forall j :: 0 <= j < i ==> limbs[j] == FromLE(buffer[8 * j..8 * j + 8])
    {
      limbs[i] := FromLE(buffer[8 * i..8 * i + 8]);
      i := i + 1;
    }
    FourLimbs(buffer);
    var reversed := [limbs[3], limbs[2], limbs[1], limbs[0]];
    hide FromLE;
    assert limbs[0] == FromLE(buffer[0..8]) && limbs[1] == FromLE(buffer[8..16]);
    assert limbs[2] == FromLE(buffer[16..24]) && limbs[3] == FromLE(buffer[24..32]);
    raw := FromLimbs(reversed);
  }

  lemma FourLimbs(buffer: seq<Byte>)
    requires |buffer| == 32
    ensures FromLimbs([FromLE(buffer[24..32]), FromLE(buffer[16..24]), FromLE(buffer[8..16]), FromLE(buffer[0..8])])
         == FromLE(buffer)
  {
    hide FromLE, Pow2;
    Pow2Values();
    assert buffer == buffer[0..8] + buffer[8..];
    assert buffer[8..] == buffer[8..16] + buffer[16..];
    assert buffer[16..] == buffer[16..24] + buffer[24..32];
    FromLEConcat(buffer[0..8], buffer[8..]);
    FromLEConcat(buffer[8..16], buffer[16..]);
    FromLEConcat(buffer[16..24], buffer[24..32]);
  }

  /** The limbs of a representation, the least significant one first. */
  function LimbsReversed(raw: nat): (limbs: seq<nat>)
    ensures |limbs| == 4
  {
    [raw % LIMB, raw / LIMB % LIMB, raw / LIMB / LIMB % LIMB, raw / LIMB / LIMB / LIMB % LIMB]
  }

  /** Without the `j` low bytes. */
  function Shifted(n: nat, j: nat): nat
    decreases j
  {
    if j == 0 then n else Shifted(n / 256, j - 1)
  }

  lemma {:induction false} ShiftedIs(n: nat, j: nat)
    ensures Shifted(n, j) == n / Pow2(8 * j)
    decreases j
  {
    if j > 0 {
      hide Pow2;
      ShiftedIs(n / 256, j - 1);
      EightBits(j);
      DivDiv(n, 256, Pow2(8 * (j - 1)));
    }
  }

  lemma Regroup(a: seq<Byte>, b: seq<Byte>, c: seq<Byte>)
    ensures a + (b + c) == a + b + c
  {
  }

  lemma {:induction false} ToLESplit(n: nat, j: nat, k: nat)
    ensures ToLE(n, j + k) == ToLE(n, j) + ToLE(Shifted(n, j), k)
    decreases j
  {
    hide ToLE;
    if j > 0 {
      var m: nat := n / 256;
      ToLESplit(m, j - 1, k);
      assert Shifted(n, j) == Shifted(m, j - 1);
      FirstByte(n, j);
      FirstByte(n, j + k);
      Regroup([n % 256], ToLE(m, j - 1), ToLE(Shifted(n, j), k));
    } else {
      NoBytes(n);
    }
  }

  lemma FirstByte(n: nat, k: nat)
    requires k > 0
    ensures ToLE(n, k) == [n % 256] + ToLE(n / 256, k - 1)
  {
  }

  lemma EightBits(j: nat)
    requires j > 0
    ensures Pow2(8 * j) == 256 * Pow2(8 * (j - 1))
  {
    hide Pow2;
    Pow2Values();
    Pow2Add(8, 8 * (j - 1));
  }

  lemma NoBytes(n: nat)
    ensures ToLE(n, 0) == [] && Shifted(n, 0) == n
  {
  }

  /** Higher bits do not matter for the low bytes. */
  lemma LowBytes(n: nat, k: nat)
    ensures ToLE(n % Pow2(8 * k), k) == ToLE(n, k)
  {
    hide Pow2, ToLE;
    var p := Pow2(8 * k);
    assert n == p * (n / p) + n % p;
    ToLESame(n, n % p, n / p, k);
  }

  lemma {:induction false} ToLESame(n: nat, m: nat, q: nat, k: nat)
    requires n == Pow2(8 * k) * q + m
    ensures ToLE(n, k) == ToLE(m, k)
    decreases k
  {
    if k > 0 {
      var p := Pow2(8 * (k - 1));
      Pow2Add(8, 8 * (k - 1));
      assert Pow2(8) == 256 by { assert Pow2(4) == 16; }
      Associate(256, p, q);
      var c := p * q;
      assert n == 256 * c + m;
      QuotientIs(n, 256, c + m / 256, m % 256);
      ToLESame(n / 256, m / 256, q, k - 1);
    }
  }

  /** The bytes of a representation, limb by limb. */
  method RawToLeBytes(raw: nat) returns (buffer: seq<Byte>)
    ensures buffer == ToLE(raw, 32)
  {
    hide ToLE;
    var limbs := LimbsReversed(raw);
    buffer := [];
    var i := 0;
    while i < 4
      invariant 0 <= i <= 4
      invariant i == 0 ==> buffer == []
      invariant i == 1 ==> buffer == ToLE(limbs[0], 8)
      invariant i == 2 ==> buffer == ToLE(limbs[0], 8) + ToLE(limbs[1], 8)
      invariant i == 3 ==> buffer == ToLE(limbs[0], 8) + ToLE(limbs[1], 8) + ToLE(limbs[2], 8)
      invariant i == 4 ==> buffer == ToLE(limbs[0], 8) + ToLE(limbs[1], 8) + ToLE(limbs[2], 8) + ToLE(limbs[3], 8)
    {
      buffer := buffer + ToLE(limbs[i], 8);
      i := i + 1;
    }
    LimbBytes(raw);
  }

  lemma LimbBytes(n: nat)
    ensures ToLE(n, 32) == ToLE(n % LIMB, 8) + ToLE(n / LIMB % LIMB, 8) + ToLE(n / LIMB / LIMB % LIMB, 8)
                         + ToLE(n / LIMB / LIMB / LIMB % LIMB, 8)
  {
    hide ToLE, Pow2;
    Pow2Values();
    var a, b, c := n / LIMB, n / LIMB / LIMB, n / LIMB / LIMB / LIMB;
    ShiftedIs(n, 8);
    ShiftedIs(a, 8);
    ShiftedIs(b, 8);
    hide Shifted;
    ToLESplit(n, 8, 24);
    ToLESplit(a, 8, 16);
    ToLESplit(b, 8, 8);
    LowBytes(n, 8);
    LowBytes(a, 8);
    LowBytes(b, 8);
    LowBytes(c, 8);
  }

  /** Reading any 32 bytes as limbs and writing the limbs gives the bytes back. */
  method ThroughLimbs(buffer: seq<Byte>) returns (again: seq<Byte>)
    requires |buffer| == 32
    ensures again == buffer
  {
    var raw := FromRawLeBytes(buffer);
    again := RawToLeBytes(raw);
    ToFromLE(buffer);
  }

  /** `felt252_mul`: for canonical operands, the canonical product. */
  method Felt252Mul(lhs: seq<Byte>, rhs: seq<Byte>) returns (dst: seq<Byte>)
    requires |lhs| == |rhs| == 32 && FromLE(lhs) < PRIME && FromLE(rhs) < PRIME
    ensures |dst| == 32 && FromLE(dst) == FromLE(lhs) * FromLE(rhs) % PRIME
  {
    hide *;
    var x := FromRawLeBytes(lhs);
    var y := FromValue(FromLE(rhs));
    var product := Mul(Felt(x), y);
    MixedProduct(FromLE(lhs), FromLE(rhs));
    dst := RawToLeBytes(product.raw);
    Below256(product.raw);
    FromToLE(product.raw, 32);
  }

  lemma Below256(n: Residue)
    ensures n < Pow2(8 * 32)
  {
    hide Pow2;
    Pow2Big();
  }

  lemma NonZeroValue(n: Residue)
    requires n != 0
    ensures FromValue(n).raw != 0
  {
    hide FromValue, ValueOf;
    ValueRoundTrip(n);
    ValueIsZero(FromValue(n));
  }

  /** `felt252_div`: for canonical operands and any divisor but zero, the canonical quotient. */
  method Felt252Div(lhs: seq<Byte>, rhs: seq<Byte>) returns (dst: seq<Byte>)
    requires |lhs| == |rhs| == 32 && FromLE(lhs) < PRIME && 0 < FromLE(rhs) < PRIME
    ensures |dst| == 32 && FromLE(dst) < PRIME && FromLE(dst) * FromLE(rhs) % PRIME == FromLE(lhs)
    ensures forall q: Residue :: q * FromLE(rhs) % PRIME == FromLE(lhs) ==> q == FromLE(dst)
  {
    hide *;
    var x := FromRawLeBytes(lhs);
    NonZeroValue(FromLE(rhs));
    Divides(Felt(x), FromValue(FromLE(rhs)));
    // Field division: what multiplied by the divisor gives the numerator.
    var quotient: Felt :| Mul(quotient, FromValue(FromLE(rhs))) == Felt(x);
    MixedQuotient(FromLE(lhs), FromLE(rhs), quotient);
    QuotientIsUnique(FromLE(lhs), FromLE(rhs));
    dst := RawToLeBytes(quotient.raw);
    Below256(quotient.raw);
    FromToLE(quotient.raw, 32);
  }
}
