/** Arguments as a buffer of register and stack bytes, on both architectures. */
module Abi {
  import opened Options
  import opened Bytes
  import opened Layouts
  import opened Scalars
  import opened Values

  datatype Arch = X86_64 | Aarch64 {
    /** The bytes that go into registers. */
    function RegisterBytes(): nat {
      match this case X86_64 => 48 case Aarch64 => 64
    }
  }

  /** The kinds of scalars that arguments are made of. */
  datatype Kind = BoolK | UintK(width: Width) | SintK(width: Width) | FeltK | Bytes31K

  datatype Scalar =
    | Bool(b: bool)
    | Int(width: Width, uint: nat)
    | Signed(width: Width, sint: int)
    | Field(felt: nat)
    | Bytes(bytes: seq<Byte>)

  function KindOf(v: Scalar): Kind {
    match v
    case Bool(_) => BoolK
    case Int(w, _) => UintK(w)
    case Signed(w, _) => SintK(w)
    case Field(_) => FeltK
    case Bytes(_) => Bytes31K
  }

  predicate Valid(v: Scalar) {
    match v
    case Bool(_) => true
    case Int(w, uint) => uint < Pow2(w.Bits())
    case Signed(w, sint) => -(Pow2(w.Bits() - 1) as int) <= sint < Pow2(w.Bits() - 1)
    case Field(felt) => felt < PRIME
    case Bytes(bytes) => |bytes| == 31
  }

  /** 128 bits or more. */
  predicate IsWide(k: Kind) {
    match k
    case UintK(w) => w == W128
    case SintK(w) => w == W128
    case FeltK => true
    case Bytes31K => true
    case BoolK => false
  }

  function WideSize(k: Kind): nat {
    if k.FeltK? || k.Bytes31K? then 32 else 16
  }

  /** The bytes a narrow scalar takes on its own. */
  function NarrowSize(k: Kind): nat
    requires !IsWide(k)
    ensures NarrowSize(k) == 1 || NarrowSize(k) == 2 || NarrowSize(k) == 4 || NarrowSize(k) == 8
  {
    match k
    case BoolK => 1
    case UintK(w) => w.Size()
    case SintK(w) => w.Size()
  }

  datatype Place = Place(offset: nat, size: nat)

  /** Where a scalar goes after `len` bytes. Wide scalars are not split between the last register and the
      stack; on aarch64 narrow scalars take only their own size on the stack. */
  function PlaceOf(arch: Arch, len: nat, k: Kind): (p: Place)
    ensures len <= p.offset
  {
    if IsWide(k) then
      if len >= arch.RegisterBytes() - 8 then Place(AlignUp(len, 16), WideSize(k)) else Place(len, WideSize(k))
    else if arch.X86_64? || len < arch.RegisterBytes() then Place(len, 8)
    else Place(AlignUp(len, NarrowSize(k)), NarrowSize(k))
  }

  /** The bytes of a scalar in its place: sign-extended where it takes a whole register. */
  function SlotBytes(v: Scalar, size: nat): seq<Byte> {
    match v
    case Bool(b) => ToLE(if b then 1 else 0, size)
    case Int(_, uint) => ToLE(uint, size)
    case Signed(w, sint) => ToLE(sint % Pow2(8 * size), size)
    case Field(felt) => ToLE(felt, size)
    case Bytes(bytes) => bytes + [0]
  }

  function Zeros(n: nat): seq<Byte> {
    seq(n, _ => 0)
  }

  /** A buffer with one more scalar. */
  function Appended(arch: Arch, buffer: seq<Byte>, v: Scalar): seq<Byte> {
    var p := PlaceOf(arch, |buffer|, KindOf(v));
    buffer + Zeros(p.offset - |buffer|) + SlotBytes(v, p.size)
  }

  /** A buffer with more scalars. */
  function Extended(arch: Arch, buffer: seq<Byte>, vs: seq<Scalar>): seq<Byte> {
    if vs == [] then buffer else Appended(arch, Extended(arch, buffer, vs[..|vs| - 1]), vs[|vs| - 1])
  }

  function Encoded(arch: Arch, vs: seq<Scalar>): seq<Byte> {
    Extended(arch, [], vs)
  }

  lemma {:induction false} ExtendedTwice(arch: Arch, buffer: seq<Byte>, vs: seq<Scalar>, more: seq<Scalar>)
    ensures Extended(arch, buffer, vs + more) == Extended(arch, Extended(arch, buffer, vs), more)
  {
    hide Appended;
    if more == [] {
      assert vs + more == vs;
    } else {
      var last := |more| - 1;
      ExtendedTwice(arch, buffer, vs, more[..last]);
      assert (vs + more)[..|vs + more| - 1] == vs + more[..last];
    }
  }

  /** Where the first kinds end, whatever the values are. */
  function End(arch: Arch, kinds: seq<Kind>): nat {
    if kinds == [] then 0
    else
      var p := PlaceOf(arch, End(arch, kinds[..|kinds| - 1]), kinds[|kinds| - 1]);
      p.offset + p.size
  }

  function Kinds(vs: seq<Scalar>): (kinds: seq<Kind>)
    ensures |kinds| == |vs|
  {
    seq(|vs|, i requires 0 <= i < |vs| => KindOf(vs[i]))
  }

  // ----- reading back -----

  function DecodeScalar(bytes: seq<Byte>, k: Kind): Scalar
    requires IsWide(k) ==> |bytes| >= WideSize(k)
  {
    match k
    case BoolK => Bool(FromLE(bytes) % 2 == 1)
    case UintK(w) => Int(w, FromLE(bytes) % Pow2(w.Bits()))
    case SintK(w) => Signed(w, DecodeSint(FromLE(bytes) % Pow2(w.Bits()), w))
    case FeltK => Field(FromLE(bytes))
    case Bytes31K => Bytes(bytes[..31])
  }

  /** What a callee that knows the kinds finds: each scalar where the ones before it end. */
  function Decoded(arch: Arch, buffer: seq<Byte>, kinds: seq<Kind>): Option<seq<Scalar>> {
    if kinds == [] then Some([])
    else
      var init := kinds[..|kinds| - 1];
      var k := kinds[|kinds| - 1];
      var p := PlaceOf(arch, End(arch, init), k);
      var before := Decoded(arch, buffer, init);
      if before.None? || p.offset + p.size > |buffer| then None
      else Some(before.value + [DecodeScalar(buffer[p.offset..p.offset + p.size], k)])
  }

  lemma LowBits(n: nat, k: nat, small: nat)
    requires n < Pow2(small) && small <= 8 * k
    ensures FromLE(ToLE(n, k)) == n && n % Pow2(small) == n
  {
    hide Pow2, ToLE, FromLE;
    Pow2Monotone(small, 8 * k);
    FromToLE(n, k);
    QuotientIs(n, Pow2(small), 0, n);
  }

  lemma ScalarSizes(v: Scalar, size: nat)
    requires Valid(v) && Suits(KindOf(v), size)
    ensures |SlotBytes(v, size)| == size
  {
  }

  /** The sizes that a kind may take: 8 bytes or its own. */
  predicate Suits(k: Kind, size: nat) {
    if IsWide(k) then size == WideSize(k) else size == 8 || size == NarrowSize(k)
  }

  /** A scalar is found again in its bytes. */
  lemma ScalarRoundTrip(v: Scalar, size: nat)
    requires Valid(v) && Suits(KindOf(v), size)
    ensures |SlotBytes(v, size)| == size && DecodeScalar(SlotBytes(v, size), KindOf(v)) == v
  {
    ScalarSizes(v, size);
    match v {
      case Bool(b) =>
        assert Pow2(1) == 2;
        LowBits(if b then 1 else 0, size, 1);
      case Int(w, uint) => LowBits(uint, size, w.Bits());
      case Signed(w, sint) => SignedRoundTrip(w, sint, size);
      case Field(felt) =>
        Pow2Big();
        LowBits(felt, 32, 252);
      case Bytes(bytes) =>
    }
  }

  /** The low bits of a sign-extended number are its two's complement. */
  lemma SignedRoundTrip(w: Width, sint: int, size: nat)
    requires -(Pow2(w.Bits() - 1) as int) <= sint < Pow2(w.Bits() - 1) && w.Bits() <= 8 * size
    ensures DecodeSint(FromLE(ToLE(sint % Pow2(8 * size), size)) % Pow2(w.Bits()), w) == sint
  {
    SintRoundTrip(sint, w);
    var half, whole, bits := Pow2(w.Bits() - 1), Pow2(8 * size), Pow2(w.Bits());
    assert bits == 2 * half;
    Pow2Add(8 * size - w.Bits(), w.Bits());
    Pow2Monotone(w.Bits(), 8 * size);
    hide Pow2, ToLE, FromLE;
    FromToLE(sint % whole, size);
    LowOfExtended(sint, half, Pow2(8 * size - w.Bits()));
    TwosComplement(sint, half);
  }

  lemma LowOfExtended(sint: int, half: nat, k: nat)
    requires half > 0 && k > 0 && -(half as int) <= sint < half
    ensures k * (2 * half) > 0 && sint % (k * (2 * half)) % (2 * half) == sint % (2 * half)
  {
    var d := 2 * half;
    var whole := k * d;
    MulAtMost(1, k, d);
    assert whole >= d;
    if sint < 0 {
      QuotientUnique(whole, sint / whole, sint % whole, -1, sint + whole);
      MulSucc(k - 1, d);
      QuotientIs(sint + whole, d, k - 1, sint + d);
      QuotientUnique(d, sint / d, sint % d, -1, sint + d);
    } else {
      QuotientIs(sint, whole, 0, sint);
    }
  }

  /** Places are as big as their kinds need. */
  lemma PlacesSuit(arch: Arch, len: nat, k: Kind)
    ensures Suits(k, PlaceOf(arch, len, k).size)
  {
  }

  /** Where a list ends depends only on the kinds in it. */
  lemma {:induction false} LengthIsEnd(arch: Arch, vs: seq<Scalar>)
    requires forall v :: v in vs ==> Valid(v)
    ensures |Encoded(arch, vs)| == End(arch, Kinds(vs))
  {
    if vs != [] {
      var init, v := vs[..|vs| - 1], vs[|vs| - 1];
      LengthIsEnd(arch, init);
      assert Kinds(vs)[..|vs| - 1] == Kinds(init);
      PlacesSuit(arch, End(arch, Kinds(init)), KindOf(v));
      ScalarSizes(v, PlaceOf(arch, End(arch, Kinds(init)), KindOf(v)).size);
    }
  }

  /** What comes later changes nothing that is read before. */
  lemma {:induction false} DecodedPrefix(arch: Arch, buffer: seq<Byte>, more: seq<Byte>, kinds: seq<Kind>)
    requires Decoded(arch, buffer, kinds).Some?
    ensures Decoded(arch, buffer + more, kinds) == Decoded(arch, buffer, kinds)
  {
    hide PlaceOf, End, DecodeScalar;
    if kinds != [] {
      var init, k := kinds[..|kinds| - 1], kinds[|kinds| - 1];
      DecodedPrefix(arch, buffer, more, init);
      var p := PlaceOf(arch, End(arch, init), k);
      assert (buffer + more)[p.offset..p.offset + p.size] == buffer[p.offset..p.offset + p.size];
    }
  }

  /** On either architecture, every list of scalars is found again by its kinds, whatever follows it. */
  lemma {:induction false} AllRoundTrip(arch: Arch, vs: seq<Scalar>, padding: seq<Byte>)
    requires forall v :: v in vs ==> Valid(v)
    ensures Decoded(arch, Encoded(arch, vs) + padding, Kinds(vs)) == Some(vs)
  {
    hide PlaceOf, SlotBytes, Appended, DecodeScalar, Decoded, End, Encoded, Extended, Kinds, Valid;
    if vs == [] {
      NothingToDecode(arch, padding);
    } else {
      var init, v := vs[..|vs| - 1], vs[|vs| - 1];
      assert vs == init + [v];
      var before := Encoded(arch, init);
      var whole := Appended(arch, before, v) + padding;
      EncodedStep(arch, init, v);
      LengthIsEnd(arch, init);
      AppendedThen(arch, before, v, padding);
      Rejoin(whole, before);
      AllRoundTrip(arch, init, whole[|before|..]);
      LastDecodes(arch, whole, init, v);
    }
  }

  lemma NothingToDecode(arch: Arch, padding: seq<Byte>)
    ensures Decoded(arch, Encoded(arch, []) + padding, Kinds([])) == Some([])
  {
  }

  lemma EncodedStep(arch: Arch, init: seq<Scalar>, v: Scalar)
    ensures Encoded(arch, init + [v]) == Appended(arch, Encoded(arch, init), v)
  {
    hide Appended;
    assert (init + [v])[..|init|] == init;
  }

  lemma LastDecodes(arch: Arch, whole: seq<Byte>, init: seq<Scalar>, v: Scalar)
    requires Decoded(arch, whole, Kinds(init)) == Some(init)
    requires var p := PlaceOf(arch, End(arch, Kinds(init)), KindOf(v));
             p.offset + p.size <= |whole| && DecodeScalar(whole[p.offset..p.offset + p.size], KindOf(v)) == v
    ensures Decoded(arch, whole, Kinds(init + [v])) == Some(init + [v])
  {
    hide PlaceOf, DecodeScalar, Decoded, End;
    KindsMore(init, v);
    DecodedMore(arch, whole, Kinds(init), KindOf(v));
  }

  lemma Rejoin(whole: seq<Byte>, before: seq<Byte>)
    requires |before| <= |whole| && whole[..|before|] == before
    ensures before + whole[|before|..] == whole
  {
  }

  lemma KindsMore(init: seq<Scalar>, v: Scalar)
    ensures Kinds(init + [v]) == Kinds(init) + [KindOf(v)]
  {
  }

  lemma DecodedMore(arch: Arch, buffer: seq<Byte>, init: seq<Kind>, k: Kind)
    requires Decoded(arch, buffer, init).Some?
    requires var p := PlaceOf(arch, End(arch, init), k); p.offset + p.size <= |buffer|
    ensures var p := PlaceOf(arch, End(arch, init), k);
            var last := DecodeScalar(buffer[p.offset..p.offset + p.size], k);
            Decoded(arch, buffer, init + [k]) == Some(Decoded(arch, buffer, init).value + [last])
  {
    hide PlaceOf, DecodeScalar;
    assert (init + [k])[..|init|] == init;
  }

  /** A scalar just appended is found in its place, after what was there before. */
  lemma AppendedThen(arch: Arch, before: seq<Byte>, v: Scalar, padding: seq<Byte>)
    requires Valid(v)
    ensures var p := PlaceOf(arch, |before|, KindOf(v));
            var whole := Appended(arch, before, v) + padding;
            && p.offset + p.size <= |whole| && whole[..|before|] == before
            && DecodeScalar(whole[p.offset..p.offset + p.size], KindOf(v)) == v
  {
    hide SlotBytes, DecodeScalar;
    var p := PlaceOf(arch, |before|, KindOf(v));
    PlacesSuit(arch, |before|, KindOf(v));
    ScalarRoundTrip(v, p.size);
    hide PlaceOf;
    var whole := Appended(arch, before, v) + padding;
    Middle(before, Zeros(p.offset - |before|), SlotBytes(v, p.size), padding);
  }

  lemma Middle(a: seq<Byte>, b: seq<Byte>, c: seq<Byte>, d: seq<Byte>)
    ensures var whole := a + b + c + d;
            whole[..|a|] == a && whole[|a| + |b|..|a| + |b| + |c|] == c
  {
  }

  /** A wide value never starts in the last register's slot, and on the stack it is aligned. */
  lemma WideNotSplit(arch: Arch, len: nat, k: Kind)
    requires IsWide(k)
    ensures var p := PlaceOf(arch, len, k);
            p.offset < arch.RegisterBytes() - 8
            || (p.offset >= arch.RegisterBytes() && (p.offset - arch.RegisterBytes()) % 16 == 0)
  {
    if len >= arch.RegisterBytes() - 8 {
      AlignUpLeast(len, 16, AlignUp(len, 16));
      StackAligned(arch, AlignUp(len, 16));
    }
  }

  lemma StackAligned(arch: Arch, n: nat)
    requires n % 16 == 0 && n >= arch.RegisterBytes() - 8
    ensures n >= arch.RegisterBytes() && (n - arch.RegisterBytes()) % 16 == 0
  {
  }

  // ----- the two conventions -----

  /** The number that a scalar is passed as, in a number of bytes. */
  function Number(v: Scalar, size: nat): int
    requires !v.Bytes?
  {
    match v
    case Bool(b) => if b then 1 else 0
    case Int(_, uint) => uint
    case Signed(_, sint) => if sint < 0 then sint + Pow2(8 * size) else sint
    case Field(felt) => felt
  }

  lemma SlotNumber(v: Scalar, size: nat)
    requires Valid(v) && Suits(KindOf(v), size) && !v.Bytes?
    ensures |SlotBytes(v, size)| == size && FromLE(SlotBytes(v, size)) == Number(v, size)
  {
    ScalarSizes(v, size);
    match v {
      case Bool(b) =>
        assert Pow2(1) == 2;
        LowBits(if b then 1 else 0, size, 1);
      case Int(w, uint) => LowBits(uint, size, w.Bits());
      case Signed(w, sint) =>
        Pow2Monotone(w.Bits() - 1, 8 * size);
        Wrapped(sint, Pow2(8 * size));
        FromToLE(sint % Pow2(8 * size), size);
      case Field(felt) =>
        Pow2Big();
        LowBits(felt, 32, 252);
    }
  }

  lemma Wrapped(n: int, whole: nat)
    requires -(whole as int) <= n < whole
    ensures n % whole == if n < 0 then n + whole else n
  {
    if n < 0 {
      QuotientUnique(whole, n / whole, n % whole, -1, n + whole);
    } else {
      QuotientIs(n, whole, 0, n);
    }
  }

  /** A buffer that has grown by zeros and then by bytes that start at an offset. */
  ghost predicate GrownBy(before: seq<Byte>, after: seq<Byte>, offset: nat) {
    && |before| <= offset <= |after| && after[..|before|] == before
    && forall i :: |before| <= i < offset ==> after[i] == 0
  }

  lemma AppendedAt(arch: Arch, before: seq<Byte>, v: Scalar)
    requires Valid(v)
    ensures var p, after := PlaceOf(arch, |before|, KindOf(v)), Appended(arch, before, v);
            && |after| == p.offset + p.size && GrownBy(before, after, p.offset)
            && after[p.offset..] == SlotBytes(v, p.size)
  {
    hide SlotBytes;
    var p := PlaceOf(arch, |before|, KindOf(v));
    PlacesSuit(arch, |before|, KindOf(v));
    ScalarSizes(v, p.size);
    hide PlaceOf;
    Middle(before, Zeros(p.offset - |before|), SlotBytes(v, p.size), []);
    assert Appended(arch, before, v) + [] == Appended(arch, before, v);
  }

  /** Scalars of up to 64 bits: on x86_64 each takes 8 bytes, and so it does on aarch64 in registers; on
      aarch64's stack it takes its own size, at the next multiple of it. */
  lemma NarrowConvention(arch: Arch, before: seq<Byte>, v: Scalar)
    requires Valid(v) && (v.Bool? || ((v.Int? || v.Signed?) && v.width.Bits() <= 64))
    ensures var after, size := Appended(arch, before, v), if v.Bool? then 1 else v.width.Bits() / 8;
            if arch == X86_64 || |before| < 64 then
              && |after| == |before| + 8 && GrownBy(before, after, |before|)
              && FromLE(after[|before|..]) == Number(v, 8)
            else
              && |before| + size <= |after| < |before| + 2 * size && (|after| - size) % size == 0
              && GrownBy(before, after, |after| - size) && FromLE(after[|after| - size..]) == Number(v, size)
  {
    hide SlotBytes, Appended, GrownBy;
    AppendedAt(arch, before, v);
    var p := PlaceOf(arch, |before|, KindOf(v));
    PlacesSuit(arch, |before|, KindOf(v));
    SlotNumber(v, p.size);
  }

  /** Scalars of 128 bits and more start where the buffer ends as long as they fit two registers, and on the
      stack at the next multiple of 16. */
  lemma WideConvention(arch: Arch, before: seq<Byte>, v: Scalar)
    requires Valid(v) && (v.Field? || v.Bytes? || ((v.Int? || v.Signed?) && v.width.Bits() == 128))
    ensures var after, size := Appended(arch, before, v), if v.Field? || v.Bytes? then 32 else 16;
            && |before| + size <= |after| && GrownBy(before, after, |after| - size)
            && (if |before| < (if arch == X86_64 then 40 else 56) then |after| == |before| + size
                else |after| < |before| + size + 16 && (|after| - size) % 16 == 0)
            && (if v.Bytes? then after[|after| - 32..] == v.bytes + [0]
                else FromLE(after[|after| - size..]) == Number(v, size))
  {
    hide SlotBytes, Appended, GrownBy;
    AppendedAt(arch, before, v);
    var p := PlaceOf(arch, |before|, KindOf(v));
    PlacesSuit(arch, |before|, KindOf(v));
    if v.Bytes? { BytesSlot(v, p.size); } else { SlotNumber(v, p.size); }
  }

  lemma BytesSlot(v: Scalar, size: nat)
    requires v.Bytes?
    ensures SlotBytes(v, size) == v.bytes + [0]
  {
  }

  // ----- the buffer -----

  class Buffer {
    const arch: Arch
    var bytes: seq<Byte>

    constructor (arch: Arch)
      ensures this.arch == arch && bytes == []
    {
      this.arch := arch;
      bytes := [];
    }

    /** Fills up with zeros to a multiple. */
    method AlignTo(align: nat)
      requires align > 0
      modifies this
      ensures bytes == old(bytes) + Zeros(AlignUp(|old(bytes)|, align) - |old(bytes)|)
    {
      bytes := bytes + Zeros(AlignUp(|bytes|, align) - |bytes|);
    }

    method Push(v: Scalar)
      modifies this
      ensures bytes == Appended(arch, old(bytes), v)
    {
      hide ToLE, AlignUp;
      var k := KindOf(v);
      if IsWide(k) {
        if |bytes| >= (if arch.X86_64? then 40 else 56) {
          AlignTo(16);
        } else {
          assert bytes + Zeros(0) == bytes;
        }
        bytes := bytes + SlotBytes(v, WideSize(k));
      } else if arch.X86_64? || |bytes| < 64 {
        assert bytes + Zeros(0) == bytes;
        bytes := bytes + SlotBytes(v, 8);
      } else {
        AlignTo(NarrowSize(k));
        bytes := bytes + SlotBytes(v, NarrowSize(k));
      }
    }

    method PushAll(vs: seq<Scalar>)
      modifies this
      ensures bytes == Extended(arch, old(bytes), vs)
    {
      var i := 0;
      while i < |vs|
        invariant 0 <= i <= |vs| && bytes == Extended(arch, old(bytes), vs[..i])
      {
        assert vs[..i + 1][..i] == vs[..i];
        Push(vs[i]);
        i := i + 1;
      }
      assert vs[..i] == vs;
    }

    /** The stack part is made a multiple of 16 bytes, with as few zeros as possible. */
    method Pad()
      modifies this
      ensures |old(bytes)| <= |bytes| < |old(bytes)| + 16 && bytes == old(bytes) + Zeros(|bytes| - |old(bytes)|)
      ensures |bytes| > arch.RegisterBytes() ==> (|bytes| - arch.RegisterBytes()) % 16 == 0
      ensures |old(bytes)| <= arch.RegisterBytes() ==> bytes == old(bytes)
    {
      var registers := arch.RegisterBytes();
      if |bytes| > registers {
        bytes := bytes + Zeros(registers + AlignUp(|bytes| - registers, 16) - |bytes|);
      }
    }
  }
}
