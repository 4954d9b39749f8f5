/** Scalars survive being written as bytes and read back. */
module Scalars {
  import opened Options
  import opened Bytes
  import opened Layouts
  import opened Memory
  import opened Values

  /** The type whose slot a scalar is written to. */
  function ScalarTy(v: Value): Ty
    requires IsScalar(v)
  {
    match v
    case FeltV(_) => Felt252
    case UintV(w, _) => Uint(w)
    case SintV(w, _) => Sint(w)
    case Bytes31V(_) => Bytes31
  }

  /** What is written at the start of the slot. */
  function ScalarBytes(v: Value): seq<Byte>
    requires IsScalar(v)
  {
    match v
    case FeltV(felt) => FeltBytes(felt)
    case UintV(w, uint) => ToLE(uint, w.Size())
    case SintV(w, sint) => ToLE(SintBits(sint, w), w.Size())
    case Bytes31V(bytes) => bytes
  }

  lemma SlotSize(v: Value)
    requires IsScalar(v) && (v.Bytes31V? ==> |v.bytes| == 31)
    ensures |ScalarBytes(v)| <= LayoutOf(ScalarTy(v)).size
    ensures v.FeltV? ==> LayoutOf(ScalarTy(v)).size == 32
    ensures v.UintV? || v.SintV? ==> LayoutOf(ScalarTy(v)).size == v.width.Size()
  {
    hide ToLE, LayoutOf;
    match v {
      case FeltV(_) => PlainLayout(Felt252, 32, 16);
      case UintV(w, _) => PlainLayout(Uint(w), w.Size(), w.Size());
      case SintV(w, _) => PlainLayout(Sint(w), w.Size(), w.Size());
      case Bytes31V(_) => BytesLayout();
    }
  }

  lemma PlainLayout(ty: Ty, size: nat, align: nat)
    requires align > 0 && RawLayout(ty) == Layout(size, align) && Multiple(size, align)
    ensures LayoutOf(ty) == Layout(size, align)
  {
    hide RawLayout;
    AlignUpIs(size, align, size);
  }

  lemma BytesLayout()
    ensures LayoutOf(Bytes31) == Layout(32, 16)
  {
    AlignUpIs(31, 16, 32);
    assert RawLayout(Bytes31) == Layout(31, 16);
  }

  lemma Pow2Four()
    ensures Pow2(4) == 16
  {
  }

  lemma Pow2Values()
    ensures Pow2(4) == 16 && Pow2(8) == 256 && Pow2(16) == 0x1_0000 && Pow2(32) == U32_LIMIT
    ensures Pow2(64) == ADDRESS_LIMIT
  {
    hide Pow2;
    Pow2Four();
    Pow2Add(4, 4);
    Pow2Add(8, 8);
    Pow2Add(16, 16);
    Pow2Add(32, 32);
  }

  lemma Pow2Big()
    ensures Pow2(252) == 16 * Pow2(248) && Pow2(256) == 16 * Pow2(252) && PRIME < Pow2(252)
  {
    hide Pow2;
    Pow2Values();
    Pow2Add(4, 248);
    Pow2Add(4, 252);
    Pow2Add(64, 64);
    assert Pow2(128) == 0x1_0000_0000_0000_0000_0000_0000_0000_0000;
    Pow2Add(128, 128);
  }

  /** A felt is unchanged by the four bits that are cleared and by the final reduction. */
  lemma FeltRoundTrip(felt: nat)
    requires felt < PRIME
    ensures DecodeFelt(FeltBytes(felt)) == felt
  {
    hide Pow2, ToLE, FromLE;
    Pow2Big();
    FromToLE(felt, 32);
    TopBitsClear(felt);
    var bytes := FeltBytes(felt);
    assert bytes[31 := bytes[31] % 16] == bytes;
  }

  lemma TopBitsClear(felt: nat)
    requires felt < Pow2(252)
    ensures FeltBytes(felt)[31] < 16
  {
    hide Pow2, ToLE;
    Pow2Big();
    ToLEAt(felt, 32, 31);
    TopByte(felt, Pow2(248));
    SmallModulo(felt / Pow2(248));
  }

  lemma SmallModulo(n: nat)
    requires n < 16
    ensures n % 256 == n
  {
  }

  lemma TopByte(n: nat, p: nat)
    requires p > 0 && n < 16 * p
    ensures n / p < 16
  {
    var q := n / p;
    if q >= 16 {
      MulAtMost(16, q, p);
    }
  }

  lemma UintRoundTrip(uint: nat, w: Width)
    requires uint < Pow2(w.Bits())
    ensures FromLE(ToLE(uint, w.Size())) == uint
  {
    hide Pow2, ToLE, FromLE;
    FromToLE(uint, w.Size());
  }

  lemma SintRoundTrip(sint: int, w: Width)
    requires -(Pow2(w.Bits() - 1) as int) <= sint < Pow2(w.Bits() - 1)
    ensures SintBits(sint, w) < Pow2(w.Bits())
    ensures DecodeSint(FromLE(ToLE(SintBits(sint, w), w.Size())), w) == sint
  {
    var half := Pow2(w.Bits() - 1);
    assert Pow2(w.Bits()) == 2 * half;
    TwosComplement(sint, half);
    hide Pow2, ToLE, FromLE;
    FromToLE(SintBits(sint, w), w.Size());
  }

  lemma TwosComplement(n: int, half: nat)
    requires half > 0 && -(half as int) <= n < half
    ensures n % (2 * half) == if n < 0 then n + 2 * half else n
  {
    var d := 2 * half;
    if n < 0 {
      QuotientUnique(d, n / d, n % d, -1, n + d);
    } else {
      QuotientIs(n, d, 0, n);
    }
  }

  /** A bounded integer is found again from its offset in the range, even when the range begins
      below zero. */
  lemma BoundedRoundTrip(felt: nat, lower: int, upper: int, slot: seq<Byte>)
    requires felt < PRIME && InRange(felt, lower, upper)
    requires BoundedSize(lower, upper) <= |slot|
    requires slot[..BoundedSize(lower, upper)] == BoundedBytes(felt, lower, upper)
    ensures BytesFor(ReprBits(lower, upper)) <= |slot|
    ensures DecodeBounded(slot, lower, upper) == felt
  {
    var bits, stored := ReprBits(lower, upper), (felt - lower) % PRIME;
    StoredFits(felt, lower, upper);
    hide Pow2, ToLE, FromLE, IntegerLayout, ReprBits;
    ReprFits(lower, upper);
    var k := BytesFor(bits);
    ToLEPrefix(stored, k, BoundedSize(lower, upper));
    assert slot[..k] == BoundedBytes(felt, lower, upper)[..k] == ToLE(stored, k);
    Pow2Monotone(bits, 8 * k);
    FromToLE(stored, k);
    QuotientIs(stored, Pow2(bits), 0, stored);
    BackInField(felt, lower);
  }

  lemma StoredFits(felt: nat, lower: int, upper: int)
    requires InRange(felt, lower, upper)
    ensures (felt - lower) % PRIME < Pow2(ReprBits(lower, upper))
  {
    hide Pow2, Bits;
    BitsBound(upper - lower - 1);
    Pow2Monotone(Bits(upper - lower - 1), ReprBits(lower, upper));
  }

  lemma BackInField(felt: nat, lower: int)
    requires felt < PRIME
    ensures ((felt - lower) % PRIME + lower) % PRIME == felt
  {
    var q, r := (felt - lower) / PRIME, (felt - lower) % PRIME;
    assert felt - lower == PRIME * q + r;
    var n := r + lower;
    assert n == PRIME * -q + felt;
    FieldQuotient(n, -q, felt);
  }

  lemma FieldQuotient(n: int, q: int, r: nat)
    requires n == PRIME * q + r && r < PRIME
    ensures n % PRIME == r
  {
    QuotientUnique(PRIME, q, r, n / PRIME, n % PRIME);
  }

  /** A scalar in its slot reads back as itself. */
  lemma ScalarDecodes(view: View, h: Heap, v: Value, slot: seq<Byte>)
    requires IsScalar(v) && WellTyped(v, ScalarTy(v))
    requires |slot| == LayoutOf(ScalarTy(v)).size && |ScalarBytes(v)| <= |slot|
    requires slot[..|ScalarBytes(v)|] == ScalarBytes(v)
    ensures Decode(view, h, slot, ScalarTy(v)) == Some(v)
  {
    hide ToLE, FromLE, Pow2, LayoutOf, DecodeFelt, DecodeSint, SintBits;
    SlotSize(v);
    match v {
      case FeltV(felt) =>
        assert slot == FeltBytes(felt);
        FeltRoundTrip(felt);
      case UintV(w, uint) =>
        assert slot == ToLE(uint, w.Size());
        UintRoundTrip(uint, w);
      case SintV(w, sint) =>
        assert slot == ToLE(SintBits(sint, w), w.Size());
        SintRoundTrip(sint, w);
      case Bytes31V(_) =>
    }
  }

  /** Snapshots and non-zero wrappers around a scalar change neither its slot nor its reading. */
  lemma {:induction false} ScalarThrough(view: View, h: Heap, v: Value, ty: Ty, slot: seq<Byte>)
    requires ScalarSlot(ty) && WellTyped(v, ty)
    requires |slot| == LayoutOf(ty).size
    ensures IsScalar(v) && WellTyped(v, ScalarTy(v)) && LayoutOf(ty) == LayoutOf(ScalarTy(v))
    ensures Decode(view, h, slot, ty) == Decode(view, h, slot, ScalarTy(v))
    decreases ty
  {
    hide LayoutOf, RawLayout;
    match ty {
      case Snapshot(inner) => SameLayout(inner); ScalarThrough(view, h, v, inner, slot);
      case NonZero(inner) => SameLayout(inner); ScalarThrough(view, h, v, inner, slot);
      case _ =>
    }
  }
}
