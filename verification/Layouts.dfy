/** Sizes, alignments and offsets of Sierra types in memory. */
module Layouts {
  import opened Options
  import opened Bytes

  datatype Layout = Layout(size: nat, align: nat)

  /** Alignments in use: powers of two up to the platform's largest. */
  predicate IsAlign(a: nat) {
    a == 1 || a == 2 || a == 4 || a == 8 || a == 16
  }

  /** The multiples of an alignment. */
  predicate Multiple(m: nat, a: nat)
    requires a > 0
  {
    m % a == 0
  }

  lemma SameMultiple(m: nat, n: nat, a: nat)
    requires a > 0 && Multiple(m, a) && Multiple(n, a) && n <= m < n + a
    ensures m == n
  {
    QuotientUnique(a, m / a, 0, n / a, m - n);
  }

  lemma MultipleAbove(n: nat, a: nat) returns (m: nat)
    requires a > 0
    ensures Multiple(m, a) && n <= m < n + a
  {
    var q := (n + a - 1) / a;
    m := q * a;
    QuotientIs(m, a, q, 0);
  }

  predicate IsAlignUp(n: nat, a: nat, m: nat)
    requires a > 0
  {
    Multiple(m, a) && n <= m < n + a
  }

  lemma AlignUpOnce(n: nat, a: nat)
    requires a > 0
    ensures exists m: nat :: IsAlignUp(n, a, m)
    ensures forall l: nat, m: nat :: IsAlignUp(n, a, l) && IsAlignUp(n, a, m) ==> l == m
  {
    var m := MultipleAbove(n, a);
    assert IsAlignUp(n, a, m);
    forall l: nat, m: nat | IsAlignUp(n, a, l) && IsAlignUp(n, a, m) ensures l == m {
      if l <= m { SameMultiple(m, l, a); } else { SameMultiple(l, m, a); }
    }
  }

  /** The least multiple of `a` that is not below `n`. */
  function AlignUp(n: nat, a: nat): (m: nat)
    requires a > 0
    ensures Multiple(m, a) && n <= m < n + a
  {
    AlignUpOnce(n, a);
    var m: nat :| IsAlignUp(n, a, m);
    m
  }

  /** A layout followed by another one, and where the other one starts. */
  function Extend(l: Layout, next: Layout): (r: (Layout, nat))
    requires next.align > 0
    ensures Multiple(r.1, next.align) && l.size <= r.1 < l.size + next.align
    ensures r.0.size == r.1 + next.size && r.0.align == Max(l.align, next.align)
  {
    var offset := AlignUp(l.size, next.align);
    (Layout(offset + next.size, Max(l.align, next.align)), offset)
  }

  function Max(a: nat, b: nat): nat {
    if a < b then b else a
  }

  function PadToAlign(l: Layout): (p: Layout)
    requires l.align > 0
    ensures p.align == l.align && Multiple(p.size, p.align) && l.size <= p.size < l.size + l.align
  {
    Layout(AlignUp(l.size, l.align), l.align)
  }

  lemma AlignUpLeast(n: nat, a: nat, m: nat)
    requires a > 0 && Multiple(m, a) && n <= m
    ensures AlignUp(n, a) <= m
  {
    hide Multiple;
    var up := AlignUp(n, a);
    if m < up { SameMultiple(up, m, a); }
  }

  /** Integers take the bytes their width needs, rounded up to a power of two below 16. */
  function IntegerLayout(width: nat): (l: Layout)
    ensures IsAlign(l.align) && 8 * l.size >= width
  {
    if width == 0 then Layout(0, 1)
    else if width <= 8 then Layout(1, 1)
    else if width <= 16 then Layout(2, 2)
    else if width <= 32 then Layout(4, 4)
    else if width <= 64 then Layout(8, 8)
    else if width <= 128 then Layout(16, 16)
    else Layout((width + 7) / 8, 16)
  }

  /** Integers up to 128 bits take the least power of two bytes and are aligned to their size; wider ones take
      just enough bytes and are aligned to 16. */
  lemma IntegerIsLeast(width: nat)
    requires width > 0
    ensures var l := IntegerLayout(width);
            if width <= 128 then
              l.size == l.align && l.size in {1, 2, 4, 8, 16} && (l.size > 1 ==> 8 * (l.size / 2) < width <= 8 * l.size)
            else
              l.align == 16 && 8 * (l.size - 1) < width <= 8 * l.size
  {
  }

  // ----- types -----

  datatype Width = W8 | W16 | W32 | W64 | W128 {
    function Bits(): nat {
      match this case W8 => 8 case W16 => 16 case W32 => 32 case W64 => 64 case W128 => 128
    }
    function Size(): nat {
      match this case W8 => 1 case W16 => 2 case W32 => 4 case W64 => 8 case W128 => 16
    }
  }

  datatype Ty =
    | Felt252
    | Uint(width: Width)
    | Sint(width: Width)
    | Bytes31
    | BoundedInt(lower: int, upper: int)
    | Array(elem: Ty)
    | Struct(members: seq<Ty>)
    | Enum(variants: seq<Ty>)
    | Box(inner: Ty)
    | Nullable(inner: Ty)
    | IntRange(inner: Ty)
    | Felt252Dict(elem: Ty)
    | Snapshot(inner: Ty)
    | NonZero(inner: Ty)
    | Guarantee

  /** The bits an enum's tag takes: the least power of two that counts its variants. */
  function TagBits(variants: nat): nat {
    if variants <= 1 then 0 else 1 + TagBits((variants + 1) / 2)
  }

  lemma {:induction false} TagBitsEnough(variants: nat)
    ensures variants <= Pow2(TagBits(variants))
    ensures variants > 1 ==> Pow2(TagBits(variants)) < 2 * variants && Pow2(TagBits(variants)) % 2 == 0
  {
    hide Pow2, TagBits;
    if variants > 1 {
      var half := (variants + 1) / 2;
      TagBitsEnough(half);
      TagBitsNext(variants);
      NextPower(TagBits(half));
      TagStep(variants, half, Pow2(TagBits(half)));
    } else {
      OneOrNone(variants);
    }
  }

  lemma OneOrNone(variants: nat)
    requires variants <= 1
    ensures Pow2(TagBits(variants)) == 1
  {
  }

  lemma TagBitsNext(variants: nat)
    requires variants > 1
    ensures TagBits(variants) == 1 + TagBits((variants + 1) / 2)
    ensures variants == 2 ==> TagBits((variants + 1) / 2) == 0
  {
  }

  lemma NextPower(k: nat)
    ensures Pow2(1 + k) == 2 * Pow2(k) && Pow2(0) == 1
  {
  }

  lemma TagStep(variants: nat, half: nat, p: nat)
    requires variants > 1 && half == (variants + 1) / 2 && half <= p && (variants == 2 ==> p == 1)
    requires half > 1 ==> p < 2 * half && p % 2 == 0
    ensures variants <= 2 * p < 2 * variants
  {
  }

  function TagLayout(variants: nat): Layout {
    IntegerLayout(TagBits(variants))
  }

  /** The bits of a bounded integer's compact representation. */
  function ReprBits(lower: int, upper: int): nat {
    var bits := if upper - lower - 1 >= 0 then Bits(upper - lower - 1) else Bits(lower - upper + 1);
    if bits < 1 then 1 else bits
  }

  /** A range of integers is stored in as few bits as its offsets need, but at least in one. */
  lemma ReprIsLeast(lower: int, upper: int)
    requires lower < upper
    ensures upper - lower <= Pow2(ReprBits(lower, upper))
    ensures ReprBits(lower, upper) > 1 ==> Pow2(ReprBits(lower, upper) - 1) < upper - lower
  {
    var n := upper - lower - 1;
    BitsBound(n);
    if n > 0 { BitsLeast(n); }
    if Bits(n) < 1 { assert Pow2(1) == 2; }
  }

  lemma {:induction false} BitsLeast(n: nat)
    requires n > 0
    ensures Bits(n) > 0 && Pow2(Bits(n) - 1) <= n
  {
    if n > 1 {
      BitsLeast(n / 2);
    }
  }

  /** The layout of a type, padded to its alignment. */
  function LayoutOf(ty: Ty): (l: Layout)
    ensures IsAlign(l.align) && Multiple(l.size, l.align)
    decreases ty, 1
  {
    PadToAlign(RawLayout(ty))
  }

  function RawLayout(ty: Ty): (l: Layout)
    ensures IsAlign(l.align)
    decreases ty, 0
  {
    match ty
    case Felt252 => IntegerLayout(252)
    case Uint(w) => IntegerLayout(w.Bits())
    case Sint(w) => IntegerLayout(w.Bits())
    case Bytes31 => IntegerLayout(248)
    case BoundedInt(lower, upper) => IntegerLayout(ReprBits(lower, upper))
    case Array(_) => Extend(Extend(Extend(ADDRESS_LAYOUT, IntegerLayout(32)).0, IntegerLayout(32)).0,
                            IntegerLayout(32)).0
    case Struct(members) => StructLayout(members)
    case Enum(variants) => EnumLayout(|variants|, variants)
    case Box(_) => ADDRESS_LAYOUT
    case Nullable(_) => ADDRESS_LAYOUT
    case IntRange(inner) => Extend(LayoutOf(inner), LayoutOf(inner)).0
    case Felt252Dict(_) => ADDRESS_LAYOUT
    case Snapshot(inner) => LayoutOf(inner)
    case NonZero(inner) => LayoutOf(inner)
    case Guarantee => Layout(0, 1)
  }

  const ADDRESS_LAYOUT := Layout(8, 8)

  /** The members one after the other, each at its alignment. */
  function StructLayout(members: seq<Ty>): (l: Layout)
    ensures IsAlign(l.align)
    decreases members, 0
  {
    if members == [] then Layout(0, 1)
    else
      var last := |members| - 1;
      Extend(StructLayout(members[..last]), LayoutOf(members[last])).0
  }

  /** Room for the tag followed by any of the variants. */
  function EnumLayout(count: nat, variants: seq<Ty>): (l: Layout)
    ensures IsAlign(l.align)
    decreases variants, 0
  {
    if variants == [] then TagLayout(count)
    else
      var last := |variants| - 1;
      var acc := EnumLayout(count, variants[..last]);
      var full := Extend(TagLayout(count), LayoutOf(variants[last])).0;
      Layout(Max(acc.size, full.size), Max(acc.align, full.align))
  }

  // ----- where things are -----

  /** The offset of a member. */
  function MemberOffset(members: seq<Ty>, i: nat): nat
    requires i < |members|
  {
    Extend(StructLayout(members[..i]), LayoutOf(members[i])).1
  }

  /** The offset of a variant's payload. */
  function PayloadOffset(variants: seq<Ty>, i: nat): nat
    requires i < |variants|
  {
    Extend(TagLayout(|variants|), LayoutOf(variants[i])).1
  }

  lemma {:induction false} PrefixWithin(members: seq<Ty>, i: nat)
    requires i <= |members|
    ensures StructLayout(members[..i]).size <= StructLayout(members).size
    ensures StructLayout(members[..i]).align <= StructLayout(members).align
    decreases |members| - i
  {
    if i < |members| {
      var init := members[..|members| - 1];
      PrefixWithin(init, i);
      assert init[..i] == members[..i];
    } else {
      assert members[..i] == members;
    }
  }

  /** Members are aligned, in bounds, and do not overlap. */
  lemma MembersDisjoint(members: seq<Ty>, i: nat, j: nat)
    requires i < j < |members|
    ensures Multiple(MemberOffset(members, i), LayoutOf(members[i]).align)
    ensures MemberOffset(members, i) + LayoutOf(members[i]).size <= MemberOffset(members, j)
    ensures MemberOffset(members, j) + LayoutOf(members[j]).size <= LayoutOf(Struct(members)).size
  {
    MemberWithin(members, j);
    MemberWithin(members[..j], i);
    assert members[..j][..i] == members[..i];
  }

  /** Members are laid out without more room than alignment asks for: the first at the start, each next one at
      the first suitable offset after the one before, and as much at the end as the greatest alignment. */
  lemma StructPacked(members: seq<Ty>)
    requires members != []
    ensures MemberOffset(members, 0) == 0
    ensures forall i, j :: 0 <= i && j == i + 1 && j < |members| ==>
      MemberOffset(members, j)
      < MemberOffset(members, i) + LayoutOf(members[i]).size + LayoutOf(members[j]).align
    ensures var l, last := LayoutOf(Struct(members)), |members| - 1;
            && l.size < MemberOffset(members, last) + LayoutOf(members[last]).size + l.align
            && (forall i :: 0 <= i < |members| ==> LayoutOf(members[i]).align <= l.align)
            && exists i :: 0 <= i < |members| && LayoutOf(members[i]).align == l.align
  {
    hide LayoutOf, RawLayout, StructLayout, Extend, PadToAlign;
    forall i | 0 <= i < |members| ensures LayoutOf(members[i]).align <= StructLayout(members).align {
      MemberWithin(members, i);
    }
    forall i, j | 0 <= i && j == i + 1 && j < |members|
      ensures MemberOffset(members, j)
            < MemberOffset(members, i) + LayoutOf(members[i]).size + LayoutOf(members[j]).align
    {
      PrefixEnds(members, i);
      NextOffset(members, j);
    }
    FirstOffset(members);
    PrefixEnds(members, |members| - 1);
    assert members[..|members|] == members;
    StructIsPadded(members);
    var i := GreatestAlign(members);
    assert LayoutOf(members[i]).align == StructLayout(members).align;
  }

  lemma FirstOffset(members: seq<Ty>)
    requires members != []
    ensures MemberOffset(members, 0) == 0
  {
    AlignUpLeast(0, LayoutOf(members[0]).align, 0);
  }

  lemma NextOffset(members: seq<Ty>, j: nat)
    requires j < |members|
    ensures MemberOffset(members, j) < StructLayout(members[..j]).size + LayoutOf(members[j]).align
  {
    hide LayoutOf, RawLayout, StructLayout, AlignUp;
  }

  lemma PrefixEnds(members: seq<Ty>, i: nat)
    requires i < |members|
    ensures StructLayout(members[..i + 1]).size == MemberOffset(members, i) + LayoutOf(members[i]).size
  {
    hide LayoutOf, RawLayout, AlignUp;
    assert members[..i + 1][..i] == members[..i];
  }

  lemma StructIsPadded(members: seq<Ty>)
    ensures var l, raw := LayoutOf(Struct(members)), StructLayout(members);
            l.align == raw.align && l.size < raw.size + raw.align
  {
    hide StructLayout, AlignUp;
  }

  lemma {:induction false} GreatestAlign(members: seq<Ty>) returns (i: nat)
    requires members != []
    ensures i < |members| && LayoutOf(members[i]).align == StructLayout(members).align
    decreases |members|
  {
    hide LayoutOf, RawLayout;
    var last := |members| - 1;
    i := last;
    if last > 0 && LayoutOf(members[last]).align < StructLayout(members[..last]).align {
      i := GreatestAlign(members[..last]);
    }
  }

  lemma MemberWithin(members: seq<Ty>, i: nat)
    requires i < |members|
    ensures MemberOffset(members, i) + LayoutOf(members[i]).size <= StructLayout(members).size
    ensures Multiple(MemberOffset(members, i), LayoutOf(members[i]).align)
    ensures LayoutOf(members[i]).align <= StructLayout(members).align
  {
    PrefixWithin(members, i + 1);
    assert members[..i + 1][..i] == members[..i];
  }

  lemma {:induction false} VariantWithin(count: nat, variants: seq<Ty>, i: nat)
    requires i < |variants|
    ensures var full := Extend(TagLayout(count), LayoutOf(variants[i])).0;
            full.size <= EnumLayout(count, variants).size && full.align <= EnumLayout(count, variants).align
    decreases |variants|
  {
    var last := |variants| - 1;
    if i < last {
      VariantWithin(count, variants[..last], i);
    }
  }

  lemma {:induction false} TagWithin(count: nat, variants: seq<Ty>)
    ensures TagLayout(count).size <= EnumLayout(count, variants).size
    decreases |variants|
  {
    if variants != [] {
      TagWithin(count, variants[..|variants| - 1]);
    }
  }

  /** A payload is aligned, in bounds, and does not overlap the tag. */
  lemma PayloadDisjoint(variants: seq<Ty>, i: nat)
    requires i < |variants|
    ensures TagLayout(|variants|).size <= PayloadOffset(variants, i)
    ensures Multiple(PayloadOffset(variants, i), LayoutOf(variants[i]).align)
    ensures PayloadOffset(variants, i) + LayoutOf(variants[i]).size <= LayoutOf(Enum(variants)).size
  {
    VariantWithin(|variants|, variants, i);
  }

  /** A payload lies at the first suitable offset after the tag, and an enum is no bigger and no more aligned
      than its tag and its greatest payload ask for. */
  lemma EnumPacked(variants: seq<Ty>)
    ensures forall i :: 0 <= i < |variants| ==>
      PayloadOffset(variants, i) < TagLayout(|variants|).size + LayoutOf(variants[i]).align
    ensures var l, tag := LayoutOf(Enum(variants)), TagLayout(|variants|);
            && (l.align == tag.align || exists i :: 0 <= i < |variants| && LayoutOf(variants[i]).align == l.align)
            && (l.size < tag.size + l.align ||
                exists i :: 0 <= i < |variants| &&
                  l.size < PayloadOffset(variants, i) + LayoutOf(variants[i]).size + l.align)
  {
    hide LayoutOf, RawLayout, EnumLayout, TagLayout, PadToAlign;
    forall i | 0 <= i < |variants|
      ensures PayloadOffset(variants, i) < TagLayout(|variants|).size + LayoutOf(variants[i]).align
    {
      PayloadNear(variants, i);
    }
    EnumIsPadded(variants);
    var i, j := GreatestPayload(|variants|, variants);
    assert i < |variants| ==> PayloadOffset(variants, i) == Extend(TagLayout(|variants|), LayoutOf(variants[i])).1;
  }

  lemma PayloadNear(variants: seq<Ty>, i: nat)
    requires i < |variants|
    ensures PayloadOffset(variants, i) < TagLayout(|variants|).size + LayoutOf(variants[i]).align
  {
    hide LayoutOf, TagLayout, AlignUp;
  }

  lemma EnumIsPadded(variants: seq<Ty>)
    ensures var l, raw := LayoutOf(Enum(variants)), EnumLayout(|variants|, variants);
            l.align == raw.align && l.size < raw.size + raw.align
  {
    hide EnumLayout, AlignUp;
  }

  /** The variants, if any, that give an enum its size and its alignment. */
  lemma {:induction false} GreatestPayload(count: nat, variants: seq<Ty>) returns (i: nat, j: nat)
    ensures EnumLayout(count, variants).size ==
      if i < |variants| then Extend(TagLayout(count), LayoutOf(variants[i])).0.size else TagLayout(count).size
    ensures EnumLayout(count, variants).align == TagLayout(count).align ||
      (j < |variants| && LayoutOf(variants[j]).align == EnumLayout(count, variants).align)
    decreases |variants|
  {
    hide LayoutOf, RawLayout, TagLayout, Extend;
    i, j := |variants|, |variants|;
    if variants != [] {
      var last := |variants| - 1;
      var acc := EnumLayout(count, variants[..last]);
      var full := Extend(TagLayout(count), LayoutOf(variants[last])).0;
      assert EnumLayout(count, variants) == Layout(Max(acc.size, full.size), Max(acc.align, full.align));
      i, j := GreatestPayload(count, variants[..last]);
      if i == last && acc.size >= full.size {
        i := |variants|;
      } else if acc.size < full.size {
        i := last;
      }
      if acc.align < full.align {
        j := last;
      }
    }
  }

  // ----- zero-sized and memory-allocated types -----

  function IsZst(ty: Ty): bool
    decreases ty, 1
  {
    match ty
    case Struct(members) => AllZst(members)
    case Enum(variants) => |variants| == 0 || (|variants| == 1 && IsZst(variants[0]))
    case IntRange(inner) => IsZst(inner)
    case Snapshot(inner) => IsZst(inner)
    case NonZero(inner) => IsZst(inner)
    case Guarantee => true
    case _ => false
  }

  function AllZst(members: seq<Ty>): bool
    decreases members, 0
  {
    forall i :: 0 <= i < |members| ==> IsZst(members[i])
  }

  /** The types said to be of size zero are exactly those whose layout is empty. */
  lemma {:induction false} ZstIsEmpty(ty: Ty)
    ensures IsZst(ty) <==> LayoutOf(ty).size == 0
    decreases ty, 1
  {
    PadKeepsEmpty(RawLayout(ty));
    hide AllZst, StructLayout, EnumLayout, LayoutOf, PadToAlign;
    LayoutIsPadded(ty);
    match ty {
      case Struct(members) => AllZstEmpty(members);
      case Enum(variants) => EnumZst(variants);
      case IntRange(inner) =>
        ZstIsEmpty(inner);
        ExtendIsEmpty(LayoutOf(inner), LayoutOf(inner));
      case Snapshot(inner) => ZstIsEmpty(inner);
      case NonZero(inner) => ZstIsEmpty(inner);
      case _ => PlainIsNotEmpty(ty);
    }
  }

  lemma LayoutIsPadded(ty: Ty)
    ensures LayoutOf(ty) == PadToAlign(RawLayout(ty))
  {
    hide RawLayout, PadToAlign;
  }

  lemma PlainIsNotEmpty(ty: Ty)
    requires !ty.Struct? && !ty.Enum? && !ty.IntRange? && !ty.Snapshot? && !ty.NonZero?
    ensures RawLayout(ty).size == 0 <==> ty.Guarantee?
  {
    hide AlignUp;
  }

  lemma {:induction false} EnumZst(variants: seq<Ty>)
    ensures IsZst(Enum(variants)) <==> EnumLayout(|variants|, variants).size == 0
    decreases variants, 0
  {
    if |variants| == 0 {
      assert EnumLayout(0, variants) == TagLayout(0) == Layout(0, 1);
    } else if |variants| == 1 {
      ZstIsEmpty(variants[0]);
      SingleVariant(variants);
    } else {
      TagWithin(|variants|, variants);
      TagTakesRoom(|variants|);
    }
  }

  lemma TagTakesRoom(count: nat)
    requires count > 1
    ensures TagLayout(count).size > 0
  {
  }

  lemma SingleVariant(variants: seq<Ty>)
    requires |variants| == 1
    ensures EnumLayout(1, variants).size == LayoutOf(variants[0]).size
  {
    hide RawLayout, LayoutOf;
    assert variants[..0] == [];
    assert EnumLayout(1, variants[..0]) == TagLayout(1) == Layout(0, 1);
    AlignUpLeast(0, LayoutOf(variants[0]).align, 0);
  }

  lemma PadKeepsEmpty(l: Layout)
    requires l.align > 0
    ensures PadToAlign(l).size == 0 <==> l.size == 0
  {
    if l.size == 0 {
      AlignUpLeast(0, l.align, 0);
    }
  }

  lemma {:induction false} AllZstEmpty(members: seq<Ty>)
    ensures AllZst(members) <==> StructLayout(members).size == 0
    decreases members, 0
  {
    if members != [] {
      var last := |members| - 1;
      AllZstEmpty(members[..last]);
      ZstIsEmpty(members[last]);
      LastZst(members);
      StructIsEmpty(members);
      hide AllZst, IsZst, StructLayout, LayoutOf;
    }
  }

  lemma LastZst(members: seq<Ty>)
    requires members != []
    ensures AllZst(members) <==> AllZst(members[..|members| - 1]) && IsZst(members[|members| - 1])
  {
    hide IsZst;
    var last := |members| - 1;
    assert forall i :: 0 <= i < last ==> members[..last][i] == members[i];
  }

  lemma StructIsEmpty(members: seq<Ty>)
    requires members != []
    ensures StructLayout(members).size == 0 <==>
      StructLayout(members[..|members| - 1]).size == 0 && LayoutOf(members[|members| - 1]).size == 0
  {
    hide LayoutOf;
    var init, l := StructLayout(members[..|members| - 1]), LayoutOf(members[|members| - 1]);
    assert StructLayout(members) == Extend(init, l).0;
    hide StructLayout, AlignUp;
    ExtendIsEmpty(init, l);
  }

  lemma ExtendIsEmpty(l: Layout, next: Layout)
    requires next.align > 0
    ensures Extend(l, next).0.size == 0 <==> l.size == 0 && next.size == 0
  {
    hide AlignUp;
    if l.size == 0 {
      AlignUpLeast(0, next.align, 0);
    }
  }

  /** Types passed by pointer: an enum with a tag anywhere that is laid out inline. */
  function IsMemoryAllocated(ty: Ty): bool
    decreases ty
  {
    match ty
    case Enum(variants) => |variants| > 1 || (|variants| == 1 && IsMemoryAllocated(variants[0]))
    case Struct(members) => exists i :: 0 <= i < |members| && IsMemoryAllocated(members[i])
    case Snapshot(inner) => IsMemoryAllocated(inner)
    case _ => false
  }

  /** The type that is laid out in place inside another: members of structs, the only variant of an enum, what a
      snapshot is of. */
  function Inside(ty: Ty, path: seq<nat>): Option<Ty>
    decreases |path|
  {
    if path == [] then Some(ty)
    else
      match ty
      case Struct(members) => if path[0] < |members| then Inside(members[path[0]], path[1..]) else None
      case Enum(variants) => if path[0] == 0 && |variants| == 1 then Inside(variants[0], path[1..]) else None
      case Snapshot(inner) => if path[0] == 0 then Inside(inner, path[1..]) else None
      case _ => None
  }

  ghost predicate ChoiceAt(ty: Ty, path: seq<nat>) {
    Inside(ty, path).Some? && Inside(ty, path).value.Enum? && |Inside(ty, path).value.variants| > 1
  }

  /** A type is passed through memory exactly if an enum with a choice is laid out somewhere inside it. */
  lemma {:induction false} AllocatedForChoice(ty: Ty)
    ensures IsMemoryAllocated(ty) <==> exists path :: ChoiceAt(ty, path)
    decreases ty
  {
    if IsMemoryAllocated(ty) {
      var path := ChoiceInside(ty);
    }
    forall path | ChoiceAt(ty, path) ensures IsMemoryAllocated(ty) {
      ChoiceAllocated(ty, path);
    }
  }

  lemma {:induction false} ChoiceInside(ty: Ty) returns (path: seq<nat>)
    requires IsMemoryAllocated(ty)
    ensures ChoiceAt(ty, path)
    decreases ty
  {
    match ty {
      case Enum(variants) =>
        if |variants| > 1 { return []; }
        var rest := ChoiceInside(variants[0]);
        path := [0] + rest;
        assert path[1..] == rest;
      case Struct(members) =>
        var i :| 0 <= i < |members| && IsMemoryAllocated(members[i]);
        var rest := ChoiceInside(members[i]);
        path := [i] + rest;
        assert path[1..] == rest;
      case Snapshot(inner) =>
        var rest := ChoiceInside(inner);
        path := [0] + rest;
        assert path[1..] == rest;
    }
  }

  lemma {:induction false} ChoiceAllocated(ty: Ty, path: seq<nat>)
    requires ChoiceAt(ty, path)
    ensures IsMemoryAllocated(ty)
    decreases |path|
  {
    if path != [] {
      match ty {
        case Enum(variants) => ChoiceAllocated(variants[0], path[1..]);
        case Struct(members) => ChoiceAllocated(members[path[0]], path[1..]);
        case Snapshot(inner) => ChoiceAllocated(inner, path[1..]);
      }
    }
  }

  /** `n` copies of a layout: how far apart they are, and the whole; no whole above `limit`. */
  function LayoutRepeat(l: Layout, n: nat, limit: nat): (r: (bool, Layout, nat))
    requires l.align > 0
  {
    var stride := AlignUp(l.size, l.align);
    if stride * n <= limit then (true, Layout(stride * n, l.align), stride) else (false, l, 0)
  }

  /** Copies are aligned and do not overlap. */
  lemma CopiesDisjoint(l: Layout, n: nat, limit: nat, i: nat, j: nat)
    requires l.align > 0 && i < j < n && LayoutRepeat(l, n, limit).0
    ensures var stride := LayoutRepeat(l, n, limit).2;
            && stride * i + l.size <= stride * j && stride * j + l.size <= LayoutRepeat(l, n, limit).1.size
            && Multiple(stride * i, l.align) && stride < l.size + l.align
            && LayoutRepeat(l, n, limit).1 == Layout(stride * n, l.align)
  {
    var stride := AlignUp(l.size, l.align);
    hide AlignUp;
    NextCopy(stride, i, j);
    NextCopy(stride, j, n);
    MultipleOfMultiple(stride, i, l.align);
  }

  lemma NextCopy(stride: nat, i: nat, j: nat)
    requires i < j
    ensures stride * i + stride <= stride * j
  {
    MulAtMost(i + 1, j, stride);
    MulSucc(i, stride);
  }

  lemma MultipleOfMultiple(m: nat, i: nat, a: nat)
    requires a > 0 && Multiple(m, a)
    ensures Multiple(m * i, a)
  {
    var q := m / a;
    Commute(i, a, q);
    QuotientIs(m * i, a, q * i, 0);
  }

  lemma MultipleSum(m: nat, n: nat, a: nat)
    requires a > 0 && Multiple(m, a) && Multiple(n, a)
    ensures Multiple(m + n, a)
  {
    MulSum(m / a, n / a, a);
    QuotientIs(m + n, a, m / a + n / a, 0);
  }

  lemma MulSum(p: nat, q: nat, a: nat)
    ensures (p + q) * a == p * a + q * a
  {
  }

  /** The pointer arithmetic on a dictionary's (key, first value, last value) tuples uses the
      tuple's own offsets, whatever the value type. */
  lemma EntryOffsets(elem: Ty)
    ensures var value := LayoutOf(elem);
            var key := Layout(32, 16);
            var (two, first) := Extend(key, value);
            var (three, last) := Extend(two, value);
            && first == 32 && last == 32 + value.size
            && three.size == 32 + 2 * value.size && three.align == 16
  {
    var value := LayoutOf(elem);
    assert Multiple(32, value.align);
    AlignUpLeast(32, value.align, 32);
    MultipleSum(32, value.size, value.align);
    AlignUpLeast(32 + value.size, value.align, 32 + value.size);
  }
}
