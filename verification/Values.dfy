/** Run-time values, which of them belong to a type, and how bytes in memory read as one. */
module Values {
  import opened Options
  import opened Bytes
  import opened Layouts
  import opened Memory

  const PRIME: nat := 0x0800_0000_0000_0011_0000_0000_0000_0000_0000_0000_0000_0000_0000_0000_0000_0001
  const U32_LIMIT: nat := 0x1_0000_0000

  datatype Value =
    | FeltV(felt: nat)
    | UintV(width: Width, uint: nat)
    | SintV(width: Width, sint: int)
    | Bytes31V(bytes: seq<Byte>)
    | BoundedV(felt: nat, lower: int, upper: int)
    | ArrayV(items: seq<Value>)
    | StructV(fields: seq<Value>)
    | EnumV(tag: nat, payload: Value)
    | DictV(entries: map<nat, Value>)
    | IntRangeV(x: Value, y: Value)
    | Null

  predicate IsScalar(v: Value) {
    v.FeltV? || v.UintV? || v.SintV? || v.Bytes31V?
  }

  /** Types that hold a scalar, seen through any snapshots and non-zero wrappers. */
  predicate ScalarSlot(ty: Ty) {
    match ty
    case Felt252 => true
    case Uint(_) => true
    case Sint(_) => true
    case Bytes31 => true
    case Snapshot(inner) => ScalarSlot(inner)
    case NonZero(inner) => ScalarSlot(inner)
    case _ => false
  }

  /** The values of a type. Below `NonZero` only scalars are understood, and a snapshot is looked
      through once, so only scalars are understood below a second one. */
  ghost predicate WellTyped(v: Value, ty: Ty)
    decreases ty
  {
    match ty
    case Felt252 => v.FeltV? && v.felt < PRIME
    case Uint(w) => v.UintV? && v.width == w && v.uint < Pow2(w.Bits())
    case Sint(w) => v.SintV? && v.width == w && -(Pow2(w.Bits() - 1) as int) <= v.sint < Pow2(w.Bits() - 1)
    case Bytes31 => v.Bytes31V? && |v.bytes| == 31
    case BoundedInt(lower, upper) =>
      v.BoundedV? && v.lower == lower && v.upper == upper && v.felt < PRIME && InRange(v.felt, lower, upper)
    case Array(elem) =>
      v.ArrayV? && |v.items| < U32_LIMIT && forall i :: 0 <= i < |v.items| ==> WellTyped(v.items[i], elem)
    case Struct(members) =>
      v.StructV? && |v.fields| == |members|
      && forall i :: 0 <= i < |members| ==> WellTyped(v.fields[i], members[i])
    case Enum(variants) =>
      v.EnumV? && v.tag < |variants| && TagBits(|variants|) <= 64 && WellTyped(v.payload, variants[v.tag])
    case Box(inner) => WellTyped(v, inner)
    case Nullable(inner) => v.Null? || WellTyped(v, inner)
    case IntRange(inner) => v.IntRangeV? && WellTyped(v.x, inner) && WellTyped(v.y, inner)
    case Felt252Dict(elem) => v.DictV? && forall k :: k in v.entries ==> WellTyped(v.entries[k], elem)
    case Snapshot(inner) => WellTyped(v, inner) && (inner.Snapshot? || inner.NonZero? ==> ScalarSlot(inner))
    case NonZero(inner) => WellTyped(v, inner) && ScalarSlot(inner)
    case Guarantee => false
  }

  /** A felt is in a range when some representative of it is. */
  predicate InRange(felt: nat, lower: int, upper: int) {
    lower < upper && (felt - lower) % PRIME < upper - lower
  }

  // ----- scalars as bytes -----

  function FeltBytes(felt: nat): (bytes: seq<Byte>)
    ensures |bytes| == 32
  {
    ToLE(felt, 32)
  }

  function DecodeFelt(bytes: seq<Byte>): nat
    requires |bytes| == 32
  {
    FromLE(bytes[31 := bytes[31] % 16]) % PRIME
  }

  /** Two's complement. */
  function SintBits(value: int, w: Width): nat {
    value % Pow2(w.Bits())
  }

  function DecodeSint(raw: nat, w: Width): int {
    if raw < Pow2(w.Bits() - 1) then raw else raw - Pow2(w.Bits())
  }

  function BoundedSize(lower: int, upper: int): nat {
    IntegerLayout(ReprBits(lower, upper)).size
  }

  function BoundedBytes(felt: nat, lower: int, upper: int): (bytes: seq<Byte>)
    ensures |bytes| == BoundedSize(lower, upper)
  {
    ToLE((felt - lower) % PRIME, BoundedSize(lower, upper))
  }

  /** The bytes that hold a representation of that many bits. */
  function BytesFor(bits: nat): nat {
    (bits + 7) / 8
  }

  function DecodeBounded(bytes: seq<Byte>, lower: int, upper: int): nat
    requires BytesFor(ReprBits(lower, upper)) <= |bytes|
  {
    var bits := ReprBits(lower, upper);
    (FromLE(bytes[..BytesFor(bits)]) % Pow2(bits) + lower) % PRIME
  }

  lemma ArraySize(elem: Ty)
    ensures LayoutOf(Array(elem)) == Layout(24, 8)
  {
    AlignUpIs(8, 4, 8);
    AlignUpIs(12, 4, 12);
    AlignUpIs(16, 4, 16);
    AlignUpIs(20, 8, 24);
    assert RawLayout(Array(elem)) == Layout(20, 8);
  }

  lemma AlignUpIs(n: nat, a: nat, m: nat)
    requires a > 0 && Multiple(m, a) && n <= m < n + a
    ensures AlignUp(n, a) == m
  {
    hide AlignUp, Multiple;
    AlignUpLeast(n, a, m);
    SameMultiple(m, AlignUp(n, a), a);
  }

  lemma SameLayout(inner: Ty)
    ensures LayoutOf(Snapshot(inner)) == LayoutOf(inner) == LayoutOf(NonZero(inner))
  {
    hide RawLayout, PadToAlign;
    SameRaw(inner);
    Unpadded(inner);
  }

  lemma SameRaw(inner: Ty)
    ensures RawLayout(Snapshot(inner)) == LayoutOf(inner) == RawLayout(NonZero(inner))
  {
    hide LayoutOf, PadToAlign;
  }

  lemma TagFits(variants: seq<Ty>)
    ensures TagLayout(|variants|).size <= LayoutOf(Enum(variants)).size
  {
    TagWithin(|variants|, variants);
  }

  lemma ReprFits(lower: int, upper: int)
    ensures BytesFor(ReprBits(lower, upper)) <= BoundedSize(lower, upper) <= LayoutOf(BoundedInt(lower, upper)).size
  {
  }

  /** The array header: data pointer, first index, end index, capacity. */
  function ArrayHeader(data: Address, since: nat, until: nat, capacity: nat): (bytes: seq<Byte>)
    ensures |bytes| == 20
  {
    ToLE(data, 8) + ToLE(since, 4) + ToLE(until, 4) + ToLE(capacity, 4)
  }

  // ----- reading values -----

  /** Who reads: the reader of the runtime, or compiled code, which may also append to arrays in place. */
  datatype View = AsReader | AsCompiled

  /** The value of a type that starts at an address. */
  ghost function FromPtr(view: View, h: Heap, p: Address, ty: Ty): Option<Value>
    decreases ty, 1, 0
  {
    var size := LayoutOf(ty).size;
    if Has(h, p, size) then Decode(view, h, Read(h, p, size), ty) else None
  }

  /** The value that bytes stand for, following the pointers in them. */
  ghost function Decode(view: View, h: Heap, bytes: seq<Byte>, ty: Ty): Option<Value>
    requires |bytes| == LayoutOf(ty).size
    decreases ty, 0, 0
  {
    match ty
    case Felt252 => Some(FeltV(DecodeFelt(bytes)))
    case Uint(w) => Some(UintV(w, FromLE(bytes)))
    case Sint(w) => Some(SintV(w, DecodeSint(FromLE(bytes), w)))
    case Bytes31 => Some(Bytes31V(bytes[..31]))
    case BoundedInt(lower, upper) =>
      ReprFits(lower, upper);
      Some(BoundedV(DecodeBounded(bytes, lower, upper), lower, upper))
    case Array(elem) =>
      ArraySize(elem);
      DecodeArray(view, h, bytes, elem)
    case Struct(members) =>
      var fields := DecodeFields(view, h, bytes, members, |members|);
      if fields.Some? then Some(StructV(fields.value)) else None
    case Enum(variants) =>
      if |variants| == 0 then None
      else DecodeEnum(view, h, bytes, variants)
    case Box(inner) =>
      var p := FromLE(bytes);
      if p == 0 then None else FromPtr(view, h, p, inner)
    case Nullable(inner) =>
      var p := FromLE(bytes);
      if p == 0 then Some(Null) else FromPtr(view, h, p, inner)
    case IntRange(inner) =>
      DecodeIntRange(view, h, bytes, inner)
    case Felt252Dict(elem) =>
      var p := FromLE(bytes);
      if p in h.dicts then DecodeDict(view, h, h.dicts[p], elem) else None
    case Snapshot(inner) => SameLayout(inner); Decode(view, h, bytes, inner)
    case NonZero(inner) => SameLayout(inner); Decode(view, h, bytes, inner)
    case Guarantee => None
  }

  /** What an array owns: the buffer has room for its capacity, and its end is not beyond that. Compiled code
      takes that for granted and appends in place; the reader does not look. */
  ghost predicate HasRoom(view: View, h: Heap, data: Address, until: nat, capacity: nat, elem: Ty) {
    view.AsCompiled? ==>
      if data == 0 then until == capacity == 0
      else until <= capacity && Has(h, data, LayoutOf(elem).size * capacity)
  }

  ghost function DecodeArray(view: View, h: Heap, bytes: seq<Byte>, elem: Ty): Option<Value>
    requires |bytes| == 24
    decreases elem, 4, 0
  {
    ArrayFrom(view, h, FromLE(bytes[..8]), FromLE(bytes[8..12]), FromLE(bytes[12..16]), FromLE(bytes[16..20]), elem)
  }

  /** The array that a header tells of. */
  ghost function ArrayFrom(view: View, h: Heap, data: Address, since: nat, until: nat, capacity: nat,
                           elem: Ty): Option<Value>
    decreases elem, 3, 0
  {
    if !HasRoom(view, h, data, until, capacity, elem) then None
    else if data == 0 then Some(ArrayV([]))
    else if until < since then None
    else
      var items := DecodeItems(view, h, data, since, until - since, elem);
      if items.Some? then Some(ArrayV(items.value)) else None
  }

  ghost function DecodeIntRange(view: View, h: Heap, bytes: seq<Byte>, inner: Ty): Option<Value>
    requires |bytes| == LayoutOf(IntRange(inner)).size
    decreases inner, 1, 0
  {
    IntRangeFits(inner);
    var size := LayoutOf(inner).size;
    var offset := Extend(LayoutOf(inner), LayoutOf(inner)).1;
    var x, y := Decode(view, h, bytes[..size], inner), Decode(view, h, bytes[offset..offset + size], inner);
    if x.Some? && y.Some? then Some(IntRangeV(x.value, y.value)) else None
  }

  function ItemAddress(data: Address, index: nat, elem: Ty): Address {
    Nth(data, PadToAlign(LayoutOf(elem)).size, index)
  }

  /** `n` elements from index `since` on. */
  ghost function DecodeItems(view: View, h: Heap, data: Address, since: nat, n: nat,
                             elem: Ty): (items: Option<seq<Value>>)
    ensures items.Some? ==> |items.value| == n
    decreases elem, 2, n
  {
    if n == 0 then Some([])
    else
      var init := DecodeItems(view, h, data, since, n - 1, elem);
      var last := FromPtr(view, h, ItemAddress(data, since + n - 1, elem), elem);
      if init.Some? && last.Some? then Some(init.value + [last.value]) else None
  }

  /** The first `k` members. */
  ghost function DecodeFields(view: View, h: Heap, bytes: seq<Byte>, members: seq<Ty>,
                              k: nat): (fields: Option<seq<Value>>)
    requires k <= |members| && |bytes| == LayoutOf(Struct(members)).size
    ensures fields.Some? ==> |fields.value| == k
    decreases members, 0, k
  {
    if k == 0 then Some([])
    else
      MemberWithin(members, k - 1);
      var offset := MemberOffset(members, k - 1);
      var init := DecodeFields(view, h, bytes, members, k - 1);
      var last := Decode(view, h, bytes[offset..offset + LayoutOf(members[k - 1]).size], members[k - 1]);
      if init.Some? && last.Some? then Some(init.value + [last.value]) else None
  }

  /** The tag that is stored, without the bits of its slot that are not the tag's. */
  function DecodeTag(bytes: seq<Byte>, count: nat): Option<nat>
    requires TagLayout(count).size <= |bytes|
  {
    var size := TagLayout(count).size;
    if count == 1 then Some(0)
    else if size == 1 || size == 2 || size == 4 || size == 8 then Some(FromLE(bytes[..size]) % Pow2(TagBits(count)))
    else None
  }

  ghost function DecodeEnum(view: View, h: Heap, bytes: seq<Byte>, variants: seq<Ty>): Option<Value>
    requires |variants| > 0 && |bytes| == LayoutOf(Enum(variants)).size
    decreases variants, 0, 0
  {
    TagFits(variants);
    var tag := DecodeTag(bytes, |variants|);
    if tag.None? || tag.value >= |variants| then None
    else
      PayloadDisjoint(variants, tag.value);
      var offset, ty := PayloadOffset(variants, tag.value), variants[tag.value];
      var payload := Decode(view, h, bytes[offset..offset + LayoutOf(ty).size], ty);
      if payload.Some? then Some(EnumV(tag.value, payload.value)) else None
  }

  ghost function DecodeDict(view: View, h: Heap, d: FeltDict, elem: Ty): Option<Value>
    decreases elem, 2, 0
  {
    if forall k :: k in d.mappings ==> FromPtr(view, h, EntryAddress(d, d.mappings[k]), elem).Some?
    then Some(DictV(map k | k in d.mappings :: FromPtr(view, h, EntryAddress(d, d.mappings[k]), elem).value))
    else None
  }

  function EntryAddress(d: FeltDict, index: nat): Address {
    Nth(d.elements, if d.layout.align > 0 then PadToAlign(d.layout).size else 0, index)
  }

  lemma IntRangeFits(inner: Ty)
    ensures Extend(LayoutOf(inner), LayoutOf(inner)).1 == LayoutOf(inner).size
    ensures LayoutOf(IntRange(inner)).size == 2 * LayoutOf(inner).size
  {
    var l := LayoutOf(inner);
    Twice(l);
    assert RawLayout(IntRange(inner)) == Layout(2 * l.size, l.align);
  }

  lemma Twice(l: Layout)
    requires IsAlign(l.align) && Multiple(l.size, l.align)
    ensures Extend(l, l) == (Layout(2 * l.size, l.align), l.size)
    ensures PadToAlign(Layout(2 * l.size, l.align)).size == 2 * l.size
  {
    AlignUpIs(l.size, l.align, l.size);
    MultipleSum(l.size, l.size, l.align);
    AlignUpIs(2 * l.size, l.align, 2 * l.size);
  }

  lemma Unpadded(ty: Ty)
    ensures PadToAlign(LayoutOf(ty)) == LayoutOf(ty)
  {
    hide LayoutOf, RawLayout;
    AlignUpLeast(LayoutOf(ty).size, LayoutOf(ty).align, LayoutOf(ty).size);
  }

  // ----- framing -----

  /** A value that can be read stays the same value whatever else is allocated. */
  lemma FromPtrStable(view: View, h: Heap, h': Heap, p: Address, ty: Ty)
    requires Within(h, h') && FromPtr(view, h, p, ty).Some?
    ensures FromPtr(view, h', p, ty) == FromPtr(view, h, p, ty)
    decreases ty, 1, 0
  {
    hide LayoutOf, Decode;
    var size := LayoutOf(ty).size;
    ReadWithin(h, h', p, size);
    DecodeStable(view, h, h', Read(h, p, size), ty);
  }

  lemma DecodeStable(view: View, h: Heap, h': Heap, bytes: seq<Byte>, ty: Ty)
    requires Within(h, h') && |bytes| == LayoutOf(ty).size && Decode(view, h, bytes, ty).Some?
    ensures Decode(view, h', bytes, ty) == Decode(view, h, bytes, ty)
    decreases ty, 0, 0
  {
    hide FromPtr, DecodeArray, DecodeIntRange, DecodeFields, DecodeEnum, DecodeDict, Within, LayoutOf, RawLayout;
    match ty {
      case Array(elem) =>
        ArraySize(elem);
        ArrayStable(view, h, h', bytes, elem);
      case Struct(members) => FieldsStable(view, h, h', bytes, members, |members|);
      case Enum(variants) => EnumStable(view, h, h', bytes, variants);
      case Box(inner) => FromPtrStable(view, h, h', FromLE(bytes), inner);
      case Nullable(inner) => if FromLE(bytes) != 0 { FromPtrStable(view, h, h', FromLE(bytes), inner); }
      case IntRange(inner) => IntRangeStable(view, h, h', bytes, inner);
      case Felt252Dict(elem) =>
        WithinDict(h, h', FromLE(bytes));
        DictStable(view, h, h', h.dicts[FromLE(bytes)], elem);
      case Snapshot(inner) => SameLayout(inner); DecodeStable(view, h, h', bytes, inner);
      case NonZero(inner) => SameLayout(inner); DecodeStable(view, h, h', bytes, inner);
      case _ =>
    }
  }

  lemma ArrayStable(view: View, h: Heap, h': Heap, bytes: seq<Byte>, elem: Ty)
    requires Within(h, h') && |bytes| == 24 && DecodeArray(view, h, bytes, elem).Some?
    ensures DecodeArray(view, h', bytes, elem) == DecodeArray(view, h, bytes, elem)
    decreases elem, 4, 0
  {
    hide Within, ArrayFrom, FromLE;
    ArrayFromStable(view, h, h', FromLE(bytes[..8]), FromLE(bytes[8..12]), FromLE(bytes[12..16]),
                    FromLE(bytes[16..20]), elem);
  }

  lemma ArrayFromStable(view: View, h: Heap, h': Heap, data: Address, since: nat, until: nat, capacity: nat, elem: Ty)
    requires Within(h, h') && ArrayFrom(view, h, data, since, until, capacity, elem).Some?
    ensures ArrayFrom(view, h', data, since, until, capacity, elem)
         == ArrayFrom(view, h, data, since, until, capacity, elem)
    decreases elem, 3, 0
  {
    hide Within, DecodeItems, HasRoom;
    RoomStable(view, h, h', data, until, capacity, elem);
    if data != 0 {
      ItemsStable(view, h, h', data, since, until - since, elem);
    }
  }

  lemma RoomStable(view: View, h: Heap, h': Heap, data: Address, until: nat, capacity: nat, elem: Ty)
    requires Within(h, h') && HasRoom(view, h, data, until, capacity, elem)
    ensures HasRoom(view, h', data, until, capacity, elem)
  {
    hide LayoutOf;
  }

  lemma IntRangeStable(view: View, h: Heap, h': Heap, bytes: seq<Byte>, inner: Ty)
    requires Within(h, h') && |bytes| == LayoutOf(IntRange(inner)).size && DecodeIntRange(view, h, bytes, inner).Some?
    ensures DecodeIntRange(view, h', bytes, inner) == DecodeIntRange(view, h, bytes, inner)
    decreases inner, 1, 0
  {
    hide Within, Decode, LayoutOf, RawLayout, Extend;
    IntRangeFits(inner);
    var size := LayoutOf(inner).size;
    DecodeStable(view, h, h', bytes[..size], inner);
    DecodeStable(view, h, h', bytes[size..size + size], inner);
  }

  lemma WithinDict(h: Heap, h': Heap, p: Address)
    requires Within(h, h') && p in h.dicts
    ensures p in h'.dicts && h'.dicts[p] == h.dicts[p]
  {
  }

  lemma ItemsStable(view: View, h: Heap, h': Heap, data: Address, since: nat, n: nat, elem: Ty)
    requires Within(h, h') && DecodeItems(view, h, data, since, n, elem).Some?
    ensures DecodeItems(view, h', data, since, n, elem) == DecodeItems(view, h, data, since, n, elem)
    decreases elem, 2, n
  {
    hide FromPtr, Within, ItemAddress;
    if n > 0 {
      ItemsStable(view, h, h', data, since, n - 1, elem);
      FromPtrStable(view, h, h', ItemAddress(data, since + n - 1, elem), elem);
    }
  }

  lemma MemberInStruct(members: seq<Ty>, i: nat)
    requires i < |members|
    ensures MemberOffset(members, i) + LayoutOf(members[i]).size <= LayoutOf(Struct(members)).size
  {
    hide MemberOffset;
    MemberWithin(members, i);
  }

  lemma FieldsStable(view: View, h: Heap, h': Heap, bytes: seq<Byte>, members: seq<Ty>, k: nat)
    requires k <= |members| && |bytes| == LayoutOf(Struct(members)).size
    requires Within(h, h') && DecodeFields(view, h, bytes, members, k).Some?
    ensures DecodeFields(view, h', bytes, members, k) == DecodeFields(view, h, bytes, members, k)
    decreases members, 0, k
  {
    hide Within, Decode, LayoutOf, RawLayout, MemberOffset;
    if k > 0 {
      MemberInStruct(members, k - 1);
      var offset := MemberOffset(members, k - 1);
      FieldsStable(view, h, h', bytes, members, k - 1);
      DecodeStable(view, h, h', bytes[offset..offset + LayoutOf(members[k - 1]).size], members[k - 1]);
    }
  }

  lemma EnumStable(view: View, h: Heap, h': Heap, bytes: seq<Byte>, variants: seq<Ty>)
    requires |variants| > 0 && |bytes| == LayoutOf(Enum(variants)).size
    requires Within(h, h') && DecodeEnum(view, h, bytes, variants).Some?
    ensures DecodeEnum(view, h', bytes, variants) == DecodeEnum(view, h, bytes, variants)
    decreases variants, 0, 0
  {
    hide Within, Decode, LayoutOf, RawLayout, TagLayout, PayloadOffset, DecodeTag;
    TagFits(variants);
    var tag := DecodeTag(bytes, |variants|).value;
    PayloadDisjoint(variants, tag);
    var offset, ty := PayloadOffset(variants, tag), variants[tag];
    DecodeStable(view, h, h', bytes[offset..offset + LayoutOf(ty).size], ty);
  }

  lemma DictHas(view: View, h: Heap, d: FeltDict, elem: Ty, entries: map<nat, Value>)
    ensures DecodeDict(view, h, d, elem) == Some(DictV(entries)) <==>
      && entries.Keys == d.mappings.Keys
      && forall k :: k in entries ==> FromPtr(view, h, EntryAddress(d, d.mappings[k]), elem) == Some(entries[k])
  {
    hide FromPtr, EntryAddress;
    if DecodeDict(view, h, d, elem).Some? {
      var m := DictFound(view, h, d, elem);
      if entries.Keys == d.mappings.Keys
         && forall k :: k in entries ==> FromPtr(view, h, EntryAddress(d, d.mappings[k]), elem) == Some(entries[k]) {
        hide DecodeDict;
        assert m == entries;
      }
    }
  }

  lemma DictFound(view: View, h: Heap, d: FeltDict, elem: Ty) returns (m: map<nat, Value>)
    requires DecodeDict(view, h, d, elem).Some?
    ensures DecodeDict(view, h, d, elem) == Some(DictV(m)) && m.Keys == d.mappings.Keys
    ensures forall k :: k in m ==> FromPtr(view, h, EntryAddress(d, d.mappings[k]), elem) == Some(m[k])
  {
    hide FromPtr, EntryAddress;
    m := DecodeDict(view, h, d, elem).value.entries;
  }

  lemma DictStable(view: View, h: Heap, h': Heap, d: FeltDict, elem: Ty)
    requires Within(h, h') && DecodeDict(view, h, d, elem).Some?
    ensures DecodeDict(view, h', d, elem) == DecodeDict(view, h, d, elem)
    decreases elem, 2, 0
  {
    hide Within, FromPtr, EntryAddress, DecodeDict;
    var m := DictFound(view, h, d, elem);
    forall k | k in d.mappings
      ensures FromPtr(view, h', EntryAddress(d, d.mappings[k]), elem)
           == FromPtr(view, h, EntryAddress(d, d.mappings[k]), elem)
    {
      FromPtrStable(view, h, h', EntryAddress(d, d.mappings[k]), elem);
    }
    DictHas(view, h', d, elem, m);
  }

  // ----- two views -----

  /** What compiled code can use, the runtime's reader reads as the same value. */
  lemma ReaderReads(h: Heap, p: Address, ty: Ty)
    requires FromPtr(AsCompiled, h, p, ty).Some?
    ensures FromPtr(AsReader, h, p, ty) == FromPtr(AsCompiled, h, p, ty)
    decreases ty, 1, 0
  {
    hide LayoutOf, RawLayout, Decode;
    ReaderDecodes(h, Read(h, p, LayoutOf(ty).size), ty);
  }

  lemma ReaderDecodes(h: Heap, bytes: seq<Byte>, ty: Ty)
    requires |bytes| == LayoutOf(ty).size && Decode(AsCompiled, h, bytes, ty).Some?
    ensures Decode(AsReader, h, bytes, ty) == Decode(AsCompiled, h, bytes, ty)
    decreases ty, 0, 0
  {
    hide LayoutOf, RawLayout, FromLE, FromPtr, DecodeFields, DecodeEnum, DecodeDict, DecodeItems, DecodeIntRange;
    match ty {
      case Array(elem) =>
        ArraySize(elem);
        ReaderArray(h, FromLE(bytes[..8]), FromLE(bytes[8..12]), FromLE(bytes[12..16]), FromLE(bytes[16..20]), elem);
      case Struct(members) => ReaderFields(h, bytes, members, |members|);
      case Enum(variants) => ReaderEnum(h, bytes, variants);
      case Box(inner) => ReaderReads(h, FromLE(bytes), inner);
      case Nullable(inner) => if FromLE(bytes) != 0 { ReaderReads(h, FromLE(bytes), inner); }
      case IntRange(inner) => ReaderRange(h, bytes, inner);
      case Felt252Dict(elem) => ReaderDict(h, h.dicts[FromLE(bytes)], elem);
      case Snapshot(inner) =>
        SameLayout(inner);
        ReaderDecodes(h, bytes, inner);
      case NonZero(inner) =>
        SameLayout(inner);
        ReaderDecodes(h, bytes, inner);
      case _ =>
    }
  }

  lemma ReaderArray(h: Heap, data: Address, since: nat, until: nat, capacity: nat, elem: Ty)
    requires ArrayFrom(AsCompiled, h, data, since, until, capacity, elem).Some?
    ensures ArrayFrom(AsReader, h, data, since, until, capacity, elem)
         == ArrayFrom(AsCompiled, h, data, since, until, capacity, elem)
    decreases elem, 3, 0
  {
    hide DecodeItems, LayoutOf, Has;
    if data != 0 {
      ReaderItems(h, data, since, until - since, elem);
    }
  }

  lemma ReaderItems(h: Heap, data: Address, since: nat, n: nat, elem: Ty)
    requires DecodeItems(AsCompiled, h, data, since, n, elem).Some?
    ensures DecodeItems(AsReader, h, data, since, n, elem) == DecodeItems(AsCompiled, h, data, since, n, elem)
    decreases elem, 2, n
  {
    hide FromPtr, ItemAddress;
    if n > 0 {
      ReaderItems(h, data, since, n - 1, elem);
      ReaderReads(h, ItemAddress(data, since + n - 1, elem), elem);
    }
  }

  lemma ReaderFields(h: Heap, bytes: seq<Byte>, members: seq<Ty>, k: nat)
    requires k <= |members| && |bytes| == LayoutOf(Struct(members)).size
    requires DecodeFields(AsCompiled, h, bytes, members, k).Some?
    ensures DecodeFields(AsReader, h, bytes, members, k) == DecodeFields(AsCompiled, h, bytes, members, k)
    decreases members, 0, k
  {
    hide LayoutOf, RawLayout, Decode, MemberOffset;
    if k > 0 {
      MemberInStruct(members, k - 1);
      var offset := MemberOffset(members, k - 1);
      ReaderFields(h, bytes, members, k - 1);
      ReaderDecodes(h, bytes[offset..offset + LayoutOf(members[k - 1]).size], members[k - 1]);
    }
  }

  lemma ReaderEnum(h: Heap, bytes: seq<Byte>, variants: seq<Ty>)
    requires |variants| > 0 && |bytes| == LayoutOf(Enum(variants)).size
    requires DecodeEnum(AsCompiled, h, bytes, variants).Some?
    ensures DecodeEnum(AsReader, h, bytes, variants) == DecodeEnum(AsCompiled, h, bytes, variants)
    decreases variants, 0, 0
  {
    hide LayoutOf, RawLayout, Decode, PayloadOffset, DecodeTag, TagLayout;
    TagFits(variants);
    var tag := DecodeTag(bytes, |variants|).value;
    PayloadDisjoint(variants, tag);
    var offset := PayloadOffset(variants, tag);
    ReaderDecodes(h, bytes[offset..offset + LayoutOf(variants[tag]).size], variants[tag]);
  }

  lemma ReaderRange(h: Heap, bytes: seq<Byte>, inner: Ty)
    requires |bytes| == LayoutOf(IntRange(inner)).size && DecodeIntRange(AsCompiled, h, bytes, inner).Some?
    ensures DecodeIntRange(AsReader, h, bytes, inner) == DecodeIntRange(AsCompiled, h, bytes, inner)
    decreases inner, 1, 0
  {
    hide Decode, LayoutOf, RawLayout, Extend;
    IntRangeFits(inner);
    var size := LayoutOf(inner).size;
    ReaderDecodes(h, bytes[..size], inner);
    ReaderDecodes(h, bytes[size..size + size], inner);
  }

  lemma ReaderDict(h: Heap, d: FeltDict, elem: Ty)
    requires DecodeDict(AsCompiled, h, d, elem).Some?
    ensures DecodeDict(AsReader, h, d, elem) == DecodeDict(AsCompiled, h, d, elem)
    decreases elem, 2, 0
  {
    hide FromPtr, EntryAddress, DecodeDict;
    var m := DictFound(AsCompiled, h, d, elem);
    forall k | k in d.mappings
      ensures FromPtr(AsReader, h, EntryAddress(d, d.mappings[k]), elem)
           == FromPtr(AsCompiled, h, EntryAddress(d, d.mappings[k]), elem)
    {
      ReaderReads(h, EntryAddress(d, d.mappings[k]), elem);
    }
    DictHas(AsReader, h, d, elem, m);
  }
}
