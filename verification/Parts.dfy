/** Where the parts of a value lie: every part is itself a value that starts at an address of its own. */
module Parts {
  import opened Options
  import opened Bytes
  import opened Layouts
  import opened Memory
  import opened Values
  import opened Scalars

  // ----- scalars -----

  /** The bytes that an integer of a width occupies, at an address. */
  lemma IntegerRead(view: View, h: Heap, p: Address, w: Width)
    ensures LayoutOf(Uint(w)) == LayoutOf(Sint(w)) == Layout(w.Bits() / 8, w.Bits() / 8)
    ensures Has(h, p, w.Bits() / 8) ==>
      var n, half := FromLE(Read(h, p, w.Bits() / 8)), Pow2(w.Bits() - 1);
      && FromPtr(view, h, p, Uint(w)) == Some(UintV(w, n))
      && FromPtr(view, h, p, Sint(w)) == Some(SintV(w, if n < half then n else n - 2 * half))
  {
    IntegerLayouts(w);
    DecodeIs(view, h, p, Uint(w));
    DecodeIs(view, h, p, Sint(w));
    HalfRange(w);
    hide FromLE, Read, Has, LayoutOf, RawLayout, FromPtr, Pow2;
  }

  lemma IntegerLayouts(w: Width)
    ensures LayoutOf(Uint(w)) == LayoutOf(Sint(w)) == Layout(w.Bits() / 8, w.Bits() / 8)
  {
    hide PadToAlign;
    PlainLayout(Uint(w), w.Bits() / 8, w.Bits() / 8);
    PlainLayout(Sint(w), w.Bits() / 8, w.Bits() / 8);
  }

  lemma HalfRange(w: Width)
    ensures Pow2(w.Bits()) == 2 * Pow2(w.Bits() - 1)
  {
  }

  lemma DecodeIs(view: View, h: Heap, p: Address, ty: Ty)
    ensures Has(h, p, LayoutOf(ty).size) ==>
      FromPtr(view, h, p, ty) == Decode(view, h, Read(h, p, LayoutOf(ty).size), ty)
  {
    hide LayoutOf, Decode, Read, Has;
  }

  /** A felt takes 32 bytes, of which the upper 4 bits do not count. */
  lemma FeltRead(view: View, h: Heap, p: Address)
    ensures LayoutOf(Felt252) == Layout(32, 16)
    ensures Has(h, p, 32) ==>
      FromPtr(view, h, p, Felt252) == Some(FeltV(FromLE(Read(h, p, 32)) % Pow2(252) % PRIME))
  {
    hide Pow2, FromLE, Read, Has, PadToAlign;
    PlainLayout(Felt252, 32, 16);
    if Has(h, p, 32) {
      LowBitsOnly(Read(h, p, 32));
    }
  }

  lemma LowBitsOnly(bytes: seq<Byte>)
    requires |bytes| == 32
    ensures FromLE(bytes[31 := bytes[31] % 16]) == FromLE(bytes) % Pow2(252)
  {
    var low, top := bytes[..31], bytes[31];
    assert bytes == low + [top] && bytes[31 := top % 16] == low + [top % 16];
    LastByte(low, top);
    LastByte(low, top % 16);
    FromLEBound(low);
    Pow2Big();
    hide Pow2, FromLE;
    TopHalf(FromLE(low), top, Pow2(248));
  }

  lemma TopHalf(low: nat, top: nat, p: nat)
    requires low < p
    ensures (low + p * top) % (16 * p) == low + p * (top % 16)
  {
    var q, r := top / 16, top % 16;
    assert top == 16 * q + r;
    Spread(p, q, r);
    assert low + p * top == q * (16 * p) + (low + p * r);
    MulAtMost(r, 15, p);
    assert p * r == r * p <= 15 * p;
    QuotientIs(low + p * top, 16 * p, q, low + p * r);
  }

  lemma Spread(p: nat, q: nat, r: nat)
    ensures p * (16 * q + r) == q * (16 * p) + p * r
  {
  }

  lemma {:induction false} LastByte(low: seq<Byte>, top: Byte)
    ensures FromLE(low + [top]) == FromLE(low) + Pow2(8 * |low|) * top
  {
    if low == [] {
      assert [] + [top] == [top] && [top][1..] == [];
    } else {
      LastByte(low[1..], top);
      assert (low + [top])[1..] == low[1..] + [top];
      Pow2Add(8, 8 * |low[1..]|);
      assert Pow2(8) == 256;
      hide Pow2, FromLE;
      Scale(FromLE(low[1..]), Pow2(8 * |low[1..]|), top);
    }
  }

  lemma Scale(x: nat, p: nat, top: nat)
    ensures 256 * (x + p * top) == 256 * x + 256 * p * top
  {
  }

  lemma Bytes31Read(view: View, h: Heap, p: Address)
    ensures LayoutOf(Bytes31) == Layout(32, 16)
    ensures Has(h, p, 32) ==> Has(h, p, 31) && FromPtr(view, h, p, Bytes31) == Some(Bytes31V(Read(h, p, 31)))
  {
    BytesLayout();
    hide LayoutOf, RawLayout;
    if Has(h, p, 32) {
      ReadSlice(h, p, 32, 0, 31);
      assert Read(h, p, 32)[..31] == Read(h, p, 32)[0..31];
    }
  }

  /** An integer of a range is stored as its distance from the lower end, in the low bits of the slot. */
  lemma BoundedRead(view: View, h: Heap, p: Address, lower: int, upper: int)
    ensures var bits := ReprBits(lower, upper);
            && (bits + 7) / 8 <= LayoutOf(BoundedInt(lower, upper)).size
            && (Has(h, p, LayoutOf(BoundedInt(lower, upper)).size) ==>
                  && Has(h, p, (bits + 7) / 8)
                  && var stored := FromLE(Read(h, p, (bits + 7) / 8)) % Pow2(bits);
                     FromPtr(view, h, p, BoundedInt(lower, upper)) ==
                     Some(BoundedV((lower + stored) % PRIME, lower, upper)))
  {
    hide FromLE, Read, Has, LayoutOf, RawLayout, Pow2, ReprBits;
    ReprFits(lower, upper);
    var n, size := (ReprBits(lower, upper) + 7) / 8, LayoutOf(BoundedInt(lower, upper)).size;
    if Has(h, p, size) {
      ReadSlice(h, p, size, 0, n);
      assert Read(h, p, size)[..n] == Read(h, p, size)[0..n];
    }
  }

  // ----- parts of a value -----

  /** A slice of a value's bytes is what lies at the slice's own address. */
  lemma SliceRead(view: View, h: Heap, p: Address, n: nat, offset: nat, ty: Ty)
    requires Has(h, p, n) && offset + LayoutOf(ty).size <= n
    ensures Decode(view, h, Read(h, p, n)[offset..offset + LayoutOf(ty).size], ty) == FromPtr(view, h, p + offset, ty)
  {
    hide LayoutOf, RawLayout, Decode, Read, Has;
    ReadSlice(h, p, n, offset, LayoutOf(ty).size);
  }

  /** The members of a struct, each where a pointer to it would point. */
  ghost predicate MembersAt(view: View, h: Heap, p: Address, members: seq<Ty>, fields: seq<Value>) {
    |fields| <= |members| &&
    forall i :: 0 <= i < |fields| ==> FromPtr(view, h, p + MemberOffset(members, i), members[i]) == Some(fields[i])
  }

  lemma StructRead(view: View, h: Heap, p: Address, members: seq<Ty>, fields: seq<Value>)
    requires Has(h, p, LayoutOf(Struct(members)).size)
    ensures FromPtr(view, h, p, Struct(members)) == Some(StructV(fields)) <==>
      |fields| == |members| && MembersAt(view, h, p, members, fields)
  {
    hide LayoutOf, RawLayout, Read, Has, DecodeFields, MembersAt;
    var bytes := Read(h, p, LayoutOf(Struct(members)).size);
    var found := DecodeFields(view, h, bytes, members, |members|);
    if found.Some? {
      FieldsRead(view, h, p, members, |members|, found.value);
      if |fields| == |members| && MembersAt(view, h, p, members, fields) {
        MembersOnce(view, h, p, members, fields, found.value);
      }
    } else if |fields| == |members| && MembersAt(view, h, p, members, fields) {
      FieldsThere(view, h, p, members, |members|, fields);
    }
  }

  lemma MembersOnce(view: View, h: Heap, p: Address, members: seq<Ty>, a: seq<Value>, b: seq<Value>)
    requires |a| == |b| && MembersAt(view, h, p, members, a) && MembersAt(view, h, p, members, b)
    ensures a == b
  {
    hide LayoutOf, MemberOffset, FromPtr;
    forall i | 0 <= i < |a| ensures a[i] == b[i] {
      assert Some(a[i]) == FromPtr(view, h, p + MemberOffset(members, i), members[i]);
    }
  }

  lemma {:induction false} FieldsRead(view: View, h: Heap, p: Address, members: seq<Ty>, k: nat, fields: seq<Value>)
    requires k <= |members| && Has(h, p, LayoutOf(Struct(members)).size)
    requires DecodeFields(view, h, Read(h, p, LayoutOf(Struct(members)).size), members, k) == Some(fields)
    ensures |fields| == k && MembersAt(view, h, p, members, fields)
  {
    hide LayoutOf, RawLayout, Read, Has, Decode, FromPtr, MemberOffset;
    if k > 0 {
      FieldsRead(view, h, p, members, k - 1, fields[..k - 1]);
      MemberInStruct(members, k - 1);
      SliceRead(view, h, p, LayoutOf(Struct(members)).size, MemberOffset(members, k - 1), members[k - 1]);
    }
  }

  lemma {:induction false} FieldsThere(view: View, h: Heap, p: Address, members: seq<Ty>, k: nat, fields: seq<Value>)
    requires k <= |fields| && Has(h, p, LayoutOf(Struct(members)).size) && MembersAt(view, h, p, members, fields)
    ensures DecodeFields(view, h, Read(h, p, LayoutOf(Struct(members)).size), members, k) == Some(fields[..k])
  {
    hide LayoutOf, RawLayout, Read, Has, Decode, FromPtr, MemberOffset;
    if k > 0 {
      FieldsThere(view, h, p, members, k - 1, fields);
      MemberInStruct(members, k - 1);
      SliceRead(view, h, p, LayoutOf(Struct(members)).size, MemberOffset(members, k - 1), members[k - 1]);
      assert fields[..k] == fields[..k - 1] + [fields[k - 1]];
    }
  }

  /** The tag at the start of an enum, and the payload of the variant it names. */
  lemma EnumRead(view: View, h: Heap, p: Address, variants: seq<Ty>, tag: nat, payload: Value)
    requires Has(h, p, LayoutOf(Enum(variants)).size)
    ensures FromPtr(view, h, p, Enum(variants)) == Some(EnumV(tag, payload)) <==>
      && tag < |variants| && TagAt(h, p, |variants|) == Some(tag)
      && FromPtr(view, h, p + PayloadOffset(variants, tag), variants[tag]) == Some(payload)
  {
    hide LayoutOf, RawLayout, Read, Has, Decode, PayloadOffset, TagLayout;
    if |variants| == 0 {
      NoVariants(view, h, p, variants);
    } else {
      EnumDecoded(view, h, p, variants);
      TagFits(variants);
      TagRead(h, p, LayoutOf(Enum(variants)).size, |variants|);
      var found := DecodeTag(Read(h, p, LayoutOf(Enum(variants)).size), |variants|);
      if found.Some? && found.value < |variants| {
        PayloadDisjoint(variants, found.value);
        SliceRead(view, h, p, LayoutOf(Enum(variants)).size, PayloadOffset(variants, found.value),
                  variants[found.value]);
      }
    }
  }

  lemma NoVariants(view: View, h: Heap, p: Address, variants: seq<Ty>)
    requires |variants| == 0
    ensures FromPtr(view, h, p, Enum(variants)) == None
  {
  }

  lemma EnumDecoded(view: View, h: Heap, p: Address, variants: seq<Ty>)
    requires |variants| > 0 && Has(h, p, LayoutOf(Enum(variants)).size)
    ensures FromPtr(view, h, p, Enum(variants))
         == DecodeEnum(view, h, Read(h, p, LayoutOf(Enum(variants)).size), variants)
  {
    hide LayoutOf, RawLayout, Read, Has, DecodeEnum;
  }

  /** The tag that lies at an address: none is needed for a single variant, and otherwise it is the low bits of
      1, 2, 4 or 8 bytes. */
  ghost function TagAt(h: Heap, p: Address, count: nat): Option<nat> {
    var size := TagLayout(count).size;
    if count == 1 then Some(0)
    else if size in {1, 2, 4, 8} && Has(h, p, size) then Some(FromLE(Read(h, p, size)) % Pow2(TagBits(count)))
    else None
  }

  lemma TagRead(h: Heap, p: Address, n: nat, count: nat)
    requires Has(h, p, n) && TagLayout(count).size <= n
    ensures DecodeTag(Read(h, p, n), count) == TagAt(h, p, count)
  {
    hide TagLayout, FromLE, Read, Has;
    var size := TagLayout(count).size;
    ReadSlice(h, p, n, 0, size);
    assert Read(h, p, n)[..size] == Read(h, p, n)[0..size];
  }

  /** A box and a nullable are pointers; only a nullable may be null. */
  lemma PointersRead(view: View, h: Heap, p: Address, inner: Ty)
    ensures Has(h, p, 8) ==>
      var q := FromLE(Read(h, p, 8));
      && FromPtr(view, h, p, Box(inner)) == (if q == 0 then None else FromPtr(view, h, q, inner))
      && FromPtr(view, h, p, Nullable(inner)) == (if q == 0 then Some(Null) else FromPtr(view, h, q, inner))
  {
    PlainLayout(Box(inner), 8, 8);
    PlainLayout(Nullable(inner), 8, 8);
    DecodeIs(view, h, p, Box(inner));
    DecodeIs(view, h, p, Nullable(inner));
    hide LayoutOf, RawLayout, FromLE, Read, Has, FromPtr;
  }

  /** Snapshots and non-zero wrappers read as what is inside. */
  lemma WrappersRead(view: View, h: Heap, p: Address, inner: Ty)
    ensures FromPtr(view, h, p, Snapshot(inner)) == FromPtr(view, h, p, NonZero(inner)) == FromPtr(view, h, p, inner)
  {
    SameLayout(inner);
    hide LayoutOf, RawLayout, Read, Has;
  }

  /** Both bounds of a range, one after the other. */
  lemma RangeRead(view: View, h: Heap, p: Address, inner: Ty, x: Value, y: Value)
    requires Has(h, p, 2 * LayoutOf(inner).size)
    ensures FromPtr(view, h, p, IntRange(inner)) == Some(IntRangeV(x, y)) <==>
      FromPtr(view, h, p, inner) == Some(x) && FromPtr(view, h, p + LayoutOf(inner).size, inner) == Some(y)
  {
    hide LayoutOf, RawLayout, Read, Has, Decode, Extend;
    var n := LayoutOf(inner).size;
    IntRangeFits(inner);
    SliceRead(view, h, p, 2 * n, 0, inner);
    SliceRead(view, h, p, 2 * n, n, inner);
    RangeDecoded(view, h, p, inner);
    assert Read(h, p, 2 * n)[..n] == Read(h, p, 2 * n)[0..n];
  }

  lemma RangeDecoded(view: View, h: Heap, p: Address, inner: Ty)
    requires Has(h, p, LayoutOf(IntRange(inner)).size)
    ensures FromPtr(view, h, p, IntRange(inner))
         == DecodeIntRange(view, h, Read(h, p, LayoutOf(IntRange(inner)).size), inner)
  {
    hide LayoutOf, RawLayout, Read, Has, DecodeIntRange;
  }

  // ----- elements of a buffer -----

  /** What lies in a number of places of a buffer, one after the other. */
  ghost function FoundAt(view: View, h: Heap, data: Address, since: nat, n: nat, elem: Ty): (found: seq<Option<Value>>)
    ensures |found| == n
  {
    seq(n, i requires 0 <= i < n => FromPtr(view, h, ItemAt(data, since + i, elem), elem))
  }

  ghost predicate AllFound(found: seq<Option<Value>>, items: seq<Value>) {
    |found| == |items| && forall i :: 0 <= i < |items| ==> found[i] == Some(items[i])
  }

  ghost predicate ItemsAt(view: View, h: Heap, data: Address, since: nat, items: seq<Value>, elem: Ty) {
    AllFound(FoundAt(view, h, data, since, |items|, elem), items)
  }

  /** The address of an element of a buffer. */
  function ItemAt(data: Address, index: nat, elem: Ty): Address {
    data + LayoutOf(elem).size * index
  }

  lemma ItemPlace(data: Address, index: nat, elem: Ty)
    ensures ItemAddress(data, index, elem) == ItemAt(data, index, elem)
  {
    Unpadded(elem);
    hide LayoutOf, RawLayout, PadToAlign;
    NthIs(data, LayoutOf(elem).size, index);
  }

  lemma MoreItems(found: seq<Option<Value>>, init: seq<Value>, last: Value)
    requires |found| == |init| + 1
    ensures AllFound(found, init + [last]) <==> AllFound(found[..|init|], init) && found[|init|] == Some(last)
  {
    var items := init + [last];
    assert forall i :: 0 <= i < |init| ==> items[i] == init[i] && found[..|init|][i] == found[i];
    assert items[|init|] == last;
  }

  lemma {:induction false} ItemsRead(view: View, h: Heap, data: Address, since: nat, n: nat, elem: Ty,
                                     items: seq<Value>)
    requires |items| == n
    ensures DecodeItems(view, h, data, since, n, elem) == Some(items) <==> ItemsAt(view, h, data, since, items, elem)
    decreases n
  {
    hide LayoutOf, RawLayout, FromPtr, ItemAddress, ItemAt;
    if n > 0 {
      var init := items[..n - 1];
      ItemsRead(view, h, data, since, n - 1, elem, init);
      ItemPlace(data, since + n - 1, elem);
      assert items == init + [items[n - 1]];
      assert FoundAt(view, h, data, since, n, elem)[..n - 1] == FoundAt(view, h, data, since, n - 1, elem);
      MoreItems(FoundAt(view, h, data, since, n, elem), init, items[n - 1]);
      hide AllFound;
      OneMore(DecodeItems(view, h, data, since, n - 1, elem),
              FromPtr(view, h, ItemAddress(data, since + n - 1, elem), elem), init, items[n - 1]);
    }
  }

  lemma OneMore(before: Option<seq<Value>>, last: Option<Value>, init: seq<Value>, v: Value)
    ensures before.Some? && last.Some? && before.value + [last.value] == init + [v] && |before.value| == |init| <==>
      before == Some(init) && last == Some(v)
  {
    if before.Some? && last.Some? && before.value + [last.value] == init + [v] && |before.value| == |init| {
      assert before.value == (before.value + [last.value])[..|init|];
      assert init == (init + [v])[..|init|];
      assert (before.value + [last.value])[|init|] == last.value && (init + [v])[|init|] == v;
    }
  }

  lemma ArrayDecoded(view: View, h: Heap, p: Address, elem: Ty)
    requires Has(h, p, 24)
    ensures var slot := Read(h, p, 24);
            FromPtr(view, h, p, Array(elem)) == ArrayFrom(view, h, FromLE(slot[..8]), FromLE(slot[8..12]),
                                                          FromLE(slot[12..16]), FromLE(slot[16..20]), elem)
  {
    hide LayoutOf, RawLayout, FromLE, Read, Has, ArrayFrom;
    ArraySize(elem);
    assert FromPtr(view, h, p, Array(elem)) == DecodeArray(view, h, Read(h, p, 24), elem);
  }

  /** An array of some elements: its header is the address of a buffer, the first and the end index, and the
      capacity, and the elements lie between the two. */
  lemma ArrayRead(view: View, h: Heap, p: Address, elem: Ty, items: seq<Value>)
    requires Has(h, p, 24) && items != []
    ensures var slot := Read(h, p, 24);
            var data, since, until := FromLE(slot[..8]), FromLE(slot[8..12]), FromLE(slot[12..16]);
            FromPtr(view, h, p, Array(elem)) == Some(ArrayV(items)) <==>
              && data != 0 && until == since + |items| && ItemsAt(view, h, data, since, items, elem)
              && (view == AsCompiled ==>
                    until <= FromLE(slot[16..20]) && Has(h, data, LayoutOf(elem).size * FromLE(slot[16..20])))
  {
    hide LayoutOf, RawLayout, FromLE, Read, Has, DecodeItems, ItemsAt;
    ArraySize(elem);
    var slot := Read(h, p, 24);
    var data, since, until := FromLE(slot[..8]), FromLE(slot[8..12]), FromLE(slot[12..16]);
    ArrayDecoded(view, h, p, elem);
    if until == since + |items| {
      ItemsRead(view, h, data, since, |items|, elem, items);
    }
  }

  /** A dictionary: a pointer to a header, and in its buffer the values at the places of their keys. */
  lemma DictRead(view: View, h: Heap, p: Address, elem: Ty, entries: map<nat, Value>)
    requires Has(h, p, 8) && FromLE(Read(h, p, 8)) in h.dicts
    requires h.dicts[FromLE(Read(h, p, 8))].layout == LayoutOf(elem)
    ensures var d := h.dicts[FromLE(Read(h, p, 8))];
            FromPtr(view, h, p, Felt252Dict(elem)) == Some(DictV(entries)) <==>
              && entries.Keys == d.mappings.Keys
              && forall k :: k in entries ==>
                   FromPtr(view, h, ItemAt(d.elements, d.mappings[k], elem), elem) == Some(entries[k])
  {
    PlainLayout(Felt252Dict(elem), 8, 8);
    hide LayoutOf, RawLayout, FromLE, Read, Has, FromPtr, ItemAt, EntryAddress;
    var d := h.dicts[FromLE(Read(h, p, 8))];
    DictDecoded(view, h, p, elem);
    forall k | k in d.mappings
      ensures EntryAddress(d, d.mappings[k]) == ItemAt(d.elements, d.mappings[k], elem)
    {
      EntryPlace(d, d.mappings[k], elem);
    }
    DictHas(view, h, d, elem, entries);
  }

  lemma DictDecoded(view: View, h: Heap, p: Address, elem: Ty)
    requires LayoutOf(Felt252Dict(elem)) == Layout(8, 8) && Has(h, p, 8) && FromLE(Read(h, p, 8)) in h.dicts
    ensures FromPtr(view, h, p, Felt252Dict(elem)) == DecodeDict(view, h, h.dicts[FromLE(Read(h, p, 8))], elem)
  {
    hide LayoutOf, RawLayout, FromLE, Read, Has, DecodeDict;
  }

  lemma EntryPlace(d: FeltDict, index: nat, elem: Ty)
    requires d.layout == LayoutOf(elem)
    ensures EntryAddress(d, index) == ItemAt(d.elements, index, elem)
  {
    Unpadded(elem);
    AlignPositive(elem);
    hide LayoutOf, RawLayout, PadToAlign;
    NthIs(d.elements, LayoutOf(elem).size, index);
  }

  lemma AlignPositive(ty: Ty)
    ensures LayoutOf(ty).align > 0
  {
  }
}
