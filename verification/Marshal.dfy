/** Writing values into arena memory so that they read back as the same values. */
module Marshal {
  import opened Options
  import opened Bytes
  import opened Layouts
  import opened Memory
  import opened Values
  import opened Scalars

  datatype Error = OutOfMemory | UnexpectedValue | BoundedIntOutOfRange | IntegerConversion | NativePanic

  datatype Result = Ok(p: Address) | Err(error: Error)

  /** A snapshot is looked through once. */
  function Resolve(ty: Ty): Ty {
    if ty.Snapshot? then ty.inner else ty
  }

  /** What the writer takes for granted: field types hold (felts below the prime, integers in their
      width), scalars are only written to slots of their type, structs have all their fields, and a
      bounded integer carries its type's range. Any other mismatch is an error it reports. */
  ghost predicate Shaped(v: Value, ty: Ty)
    decreases ty
  {
    var t := Resolve(ty);
    if t.Nullable? then v.Null? || Shaped(v, t.inner)
    else if t.Box? then Shaped(v, t.inner)
    else
      match v
      case BoundedV(felt, lower, upper) => felt < PRIME && (t.BoundedInt? ==> lower == t.lower && upper == t.upper)
      case ArrayV(items) => t.Array? ==> forall i :: 0 <= i < |items| ==> Shaped(items[i], t.elem)
      case StructV(fields) =>
        t.Struct? ==> |fields| == |t.members| && forall i :: 0 <= i < |fields| ==> Shaped(fields[i], t.members[i])
      case EnumV(tag, payload) => t.Enum? && tag < |t.variants| ==> Shaped(payload, t.variants[tag])
      case DictV(entries) => t.Felt252Dict? ==> forall k :: k in entries ==> Shaped(entries[k], t.elem)
      case IntRangeV(x, y) => t.IntRange? ==> Shaped(x, t.inner) && Shaped(y, t.inner)
      case Null => true
      case _ => ScalarSlot(ty) && WellTyped(v, ty)
  }

  /** At `p` there is now a value of a type, made of nothing that was there before. */
  ghost predicate Holds(h0: Heap, h: Heap, p: Address, v: Value, ty: Ty) {
    && 0 < p < ADDRESS_LIMIT && Multiple(p, LayoutOf(ty).align)
    && FromPtr(AsCompiled, Beyond(h, h0), p, ty) == Some(v)
  }

  /** The outcome of writing a value: what was there before still is, a value of the type was
      written, and no value of the type fails for anything but memory. */
  ghost predicate Written(h0: Heap, h: Heap, v: Value, ty: Ty, r: Result) {
    && Within(h0, h) && ValidHeap(h)
    && (r.Ok? ==> WellTyped(v, ty) && Holds(h0, h, r.p, v, ty))
    && (WellTyped(v, ty) ==> r.Ok? || r.error.OutOfMemory?)
  }

  // ----- copies -----

  /** The bytes of a value, copied to room of their own, are the value again. */
  lemma CopyHolds(h0: Heap, h1: Heap, h: Heap, p: Address, bytes: seq<Byte>, v: Value, ty: Ty)
    requires Within(h0, h1) && Within(h1, h)
    requires FromPtr(AsCompiled, Beyond(h1, h0), p, ty) == Some(v)
    requires Has(h1, p, LayoutOf(ty).size) && bytes == Read(h1, p, LayoutOf(ty).size)
    ensures Decode(AsCompiled, Beyond(h, h0), bytes, ty) == Some(v)
  {
    hide LayoutOf, Decode;
    BeyondWithin(h1, h0);
    ReadWithin(Beyond(h1, h0), h1, p, LayoutOf(ty).size);
    BeyondMonotone(h1, h0, h, h0);
    DecodeStable(AsCompiled, Beyond(h1, h0), Beyond(h, h0), bytes, ty);
  }

  /** A value that was written can be read whole. */
  lemma HasValue(h0: Heap, h: Heap, p: Address, v: Value, ty: Ty)
    requires FromPtr(AsCompiled, Beyond(h, h0), p, ty) == Some(v)
    ensures Has(h, p, LayoutOf(ty).size) && Has(Beyond(h, h0), p, LayoutOf(ty).size)
    ensures Read(h, p, LayoutOf(ty).size) == Read(Beyond(h, h0), p, LayoutOf(ty).size)
  {
    hide LayoutOf, Decode;
    BeyondWithin(h, h0);
    ReadWithin(Beyond(h, h0), h, p, LayoutOf(ty).size);
  }

  lemma ReadBeyond(h0: Heap, h: Heap, p: Address, n: nat)
    requires Has(Beyond(h, h0), p, n)
    ensures Has(h, p, n) && Read(Beyond(h, h0), p, n) == Read(h, p, n)
  {
    BeyondWithin(h, h0);
    ReadWithin(Beyond(h, h0), h, p, n);
  }

  // ----- scalars, boxes and nullables -----

  method ScalarToPtr(arena: Arena, v: Value, ty: Ty) returns (r: Result)
    requires IsScalar(v) && ScalarSlot(ty) && WellTyped(v, ty)
    requires ValidHeap(arena.heap) && !arena.exhausted
    modifies arena
    ensures arena.exhausted <==> r == Err(OutOfMemory)
    ensures Written(old(arena.heap), arena.heap, v, ty, r)
  {
    hide LayoutOf, Decode, WellTyped, ToLE;
    ghost var h0 := arena.heap;
    ScalarShape(v, ty);
    var l := LayoutOf(ScalarTy(v));
    var p := arena.AllocWith(l, ScalarBytes(v));
    if p == 0 {
      return Err(OutOfMemory);
    }
    ScalarHolds(h0, arena.heap, p, v, ty);
    return Ok(p);
  }

  lemma ScalarShape(v: Value, ty: Ty)
    requires IsScalar(v) && ScalarSlot(ty) && WellTyped(v, ty)
    ensures |ScalarBytes(v)| <= LayoutOf(ScalarTy(v)).size
  {
    hide LayoutOf, ToLE, ScalarBytes;
    var slot := seq(LayoutOf(ty).size, _ => 0 as Byte);
    ScalarThrough(AsCompiled, Heap(map[], map[]), v, ty, slot);
    ScalarLength(v);
    SlotSize(v);
  }

  lemma ScalarLength(v: Value)
    requires IsScalar(v) && WellTyped(v, ScalarTy(v))
    ensures v.Bytes31V? ==> |v.bytes| == 31
  {
  }

  lemma ScalarHolds(h0: Heap, h: Heap, p: Address, v: Value, ty: Ty)
    requires IsScalar(v) && ScalarSlot(ty) && WellTyped(v, ty)
    requires 0 < p < ADDRESS_LIMIT && Multiple(p, LayoutOf(ScalarTy(v)).align)
    requires Within(h0, h) && Has(Beyond(h, h0), p, LayoutOf(ScalarTy(v)).size)
    requires Has(h, p, |ScalarBytes(v)|) && Read(h, p, |ScalarBytes(v)|) == ScalarBytes(v)
    ensures Holds(h0, h, p, v, ty)
  {
    hide LayoutOf, Decode, WellTyped, ToLE, Within, ScalarBytes, ScalarTy, Beyond, Has, Read;
    ScalarShape(v, ty);
    var n := LayoutOf(ty).size;
    var any := seq(n, _ => 0 as Byte);
    ScalarThrough(AsCompiled, Beyond(h, h0), v, ty, any);
    var slot := Read(Beyond(h, h0), p, n);
    ReadBeyond(h0, h, p, n);
    ReadSlice(h, p, n, 0, |ScalarBytes(v)|);
    assert slot[..|ScalarBytes(v)|] == slot[0..|ScalarBytes(v)|];
    ScalarDecodes(AsCompiled, Beyond(h, h0), v, slot);
    ScalarThrough(AsCompiled, Beyond(h, h0), v, ty, slot);
  }

  /** What a later allocation holds is beyond everything before it. */
  lemma FreshRead(h0: Heap, h1: Heap, h2: Heap, h: Heap, p: Address, n: nat)
    requires Within(h0, h1) && Within(h2, h) && Has(Beyond(h2, h1), p, n)
    ensures Has(Beyond(h, h0), p, n) && Has(h2, p, n) && Read(Beyond(h, h0), p, n) == Read(h2, p, n)
  {
    BeyondMonotone(h2, h0, h, h1);
    ReadWithin(Beyond(h2, h1), Beyond(h, h0), p, n);
    ReadBeyond(h1, h2, p, n);
  }

  lemma PointerSize(ty: Ty)
    requires ty.Box? || ty.Nullable? || ty.Felt252Dict?
    ensures LayoutOf(ty) == Layout(8, 8)
  {
    PlainLayout(ty, 8, 8);
  }

  lemma PointerRoundTrip(p: Address)
    requires p < ADDRESS_LIMIT
    ensures FromLE(ToLE(p, 8)) == p
  {
    hide Pow2, ToLE, FromLE;
    Pow2Values();
    FromToLE(p, 8);
  }

  method NullToPtr(arena: Arena, ty: Ty) returns (r: Result)
    requires ty.Nullable?
    requires ValidHeap(arena.heap) && !arena.exhausted
    modifies arena
    ensures arena.exhausted <==> r == Err(OutOfMemory)
    ensures Written(old(arena.heap), arena.heap, Null, ty, r)
  {
    hide ToLE, FromLE, LayoutOf, RawLayout;
    ghost var h0 := arena.heap;
    var slot := arena.AllocWith(ADDRESS_LAYOUT, ToLE(0, 8));
    if slot == 0 {
      return Err(OutOfMemory);
    }
    PointerSize(ty);
    PointerRoundTrip(0);
    ReadBeyond(h0, arena.heap, slot, 8);
    assert Decode(AsCompiled, Beyond(arena.heap, h0), ToLE(0, 8), ty) == Some(Null);
    return Ok(slot);
  }

  /** The payload is written, then moved to room of its own, then pointed to. */
  method BoxToPtr(arena: Arena, v: Value, ty: Ty) returns (r: Result)
    requires ty.Box? || (ty.Nullable? && !v.Null?)
    requires Shaped(v, ty.inner)
    requires ValidHeap(arena.heap) && !arena.exhausted
    modifies arena
    ensures arena.exhausted <==> r == Err(OutOfMemory)
    ensures Written(old(arena.heap), arena.heap, v, ty, r)
    decreases ty.inner, 2
  {
    hide ToLE, FromLE, LayoutOf, RawLayout, Holds, Within, Beyond, Has, Read;
    ghost var h0 := arena.heap;
    var inner := ty.inner;
    r := ToPtr(arena, v, inner);
    if r.Err? {
      return;
    }
    ghost var h1 := arena.heap;
    var p := r.p;
    WrittenHas(h0, h1, p, v, inner);
    var payload := arena.AllocCopy(LayoutOf(inner), p);
    if payload == 0 {
      return Err(OutOfMemory);
    }
    ghost var h2 := arena.heap;
    var slot := arena.AllocWith(ADDRESS_LAYOUT, ToLE(payload, 8));
    if slot == 0 {
      WithinTrans(h0, h1, h2);
      return Err(OutOfMemory);
    }
    BoxHolds(h0, h1, h2, arena.heap, p, payload, slot, v, ty);
    WithinTrans(h0, h1, h2);
    WithinTrans(h0, h2, arena.heap);
    return Ok(slot);
  }

  lemma WrittenHas(h0: Heap, h: Heap, p: Address, v: Value, ty: Ty)
    requires Holds(h0, h, p, v, ty)
    ensures Has(h, p, LayoutOf(ty).size)
  {
    HasValue(h0, h, p, v, ty);
  }

  lemma BoxHolds(h0: Heap, h1: Heap, h2: Heap, h: Heap, p: Address, payload: Address, slot: Address, v: Value, ty: Ty)
    requires ty.Box? || (ty.Nullable? && !v.Null?)
    requires Within(h0, h1) && Within(h1, h2) && Within(h2, h) && Holds(h0, h1, p, v, ty.inner)
    requires 0 < payload < ADDRESS_LIMIT && 0 < slot < ADDRESS_LIMIT && slot % 8 == 0
    requires var n := LayoutOf(ty.inner).size;
             && Has(h1, p, n) && Has(Beyond(h2, h1), payload, n)
             && Has(h2, payload, n) && Read(h2, payload, n) == Read(h1, p, n)
    requires Has(Beyond(h, h2), slot, 8) && Has(h, slot, 8) && Read(h, slot, 8) == ToLE(payload, 8)
    ensures Holds(h0, h, slot, v, ty)
  {
    hide ToLE, FromLE, LayoutOf, RawLayout, Within, Beyond, Has, Read;
    var n := LayoutOf(ty.inner).size;
    WithinTrans(h0, h1, h2);
    WithinTrans(h1, h2, h);
    WithinSame(h);
    CopyHolds(h0, h1, h, p, Read(h1, p, n), v, ty.inner);
    FreshRead(h0, h1, h2, h, payload, n);
    FreshRead(h0, h2, h, h, slot, 8);
    PointerSize(ty);
    PointerRoundTrip(payload);
    assert FromPtr(AsCompiled, Beyond(h, h0), payload, ty.inner) == Some(v);
    assert Decode(AsCompiled, Beyond(h, h0), ToLE(payload, 8), ty) == Some(v);
  }

  lemma WithinSame(h: Heap)
    ensures Within(h, h)
  {
  }

  // ----- bounded integers -----

  method BoundedToPtr(arena: Arena, felt: nat, lower: int, upper: int, ty: Ty) returns (r: Result)
    requires felt < PRIME && (ty.BoundedInt? ==> lower == ty.lower && upper == ty.upper)
    requires ValidHeap(arena.heap) && !arena.exhausted
    modifies arena
    ensures arena.exhausted <==> r == Err(OutOfMemory)
    ensures ty.BoundedInt? ==> Written(old(arena.heap), arena.heap, BoundedV(felt, lower, upper), ty, r)
    ensures r == Err(BoundedIntOutOfRange) <==>
      lower >= upper || (ty.BoundedInt? && (felt - lower) % PRIME >= upper - lower)
    ensures r == Err(UnexpectedValue) <==> lower < upper && !ty.BoundedInt?
    ensures r.Err? ==> arena.heap == old(arena.heap)
  {
    hide LayoutOf, RawLayout, ReprBits, ToLE, FromLE, Pow2;
    ghost var h0 := arena.heap;
    if lower >= upper {
      return Err(BoundedIntOutOfRange);
    }
    if !ty.BoundedInt? {
      return Err(UnexpectedValue);
    }
    if !InRange(felt, lower, upper) {
      return Err(BoundedIntOutOfRange);
    }
    ReprFits(lower, upper);
    var p := arena.AllocWith(LayoutOf(ty), BoundedBytes(felt, lower, upper));
    if p == 0 {
      return Err(OutOfMemory);
    }
    BoundedHolds(h0, arena.heap, p, felt, ty);
    return Ok(p);
  }

  lemma BoundedHolds(h0: Heap, h: Heap, p: Address, felt: nat, ty: Ty)
    requires ty.BoundedInt? && felt < PRIME && InRange(felt, ty.lower, ty.upper)
    requires 0 < p < ADDRESS_LIMIT && Multiple(p, LayoutOf(ty).align)
    requires Within(h0, h) && Has(Beyond(h, h0), p, LayoutOf(ty).size)
    requires Has(h, p, BoundedSize(ty.lower, ty.upper))
    requires Read(h, p, BoundedSize(ty.lower, ty.upper)) == BoundedBytes(felt, ty.lower, ty.upper)
    ensures Holds(h0, h, p, BoundedV(felt, ty.lower, ty.upper), ty)
  {
    hide LayoutOf, RawLayout, BoundedBytes, DecodeBounded, Within, Beyond, Has, Read, BoundedSize, ReprBits;
    var n, m := LayoutOf(ty).size, BoundedSize(ty.lower, ty.upper);
    ReprFits(ty.lower, ty.upper);
    var slot := Read(Beyond(h, h0), p, n);
    ReadBeyond(h0, h, p, n);
    ReadSlice(h, p, n, 0, m);
    assert slot[..m] == slot[0..m];
    BoundedRoundTrip(felt, ty.lower, ty.upper, slot);
    assert Decode(AsCompiled, Beyond(h, h0), slot, ty) == Some(BoundedV(felt, ty.lower, ty.upper));
  }

  // ----- elements of a buffer -----

  /** The element with an index is in its place, and is made of nothing in `base`. */
  ghost predicate ItemWritten(h: Heap, base: Heap, data: Address, elem: Ty, j: nat, v: Value) {
    var n := LayoutOf(elem).size;
    Has(h, Nth(data, n, j), n) && Decode(AsCompiled, Beyond(h, base), Read(h, Nth(data, n, j), n), elem) == Some(v)
  }

  ghost predicate ItemsWritten(h: Heap, base: Heap, data: Address, elem: Ty, values: seq<Value>) {
    forall j :: 0 <= j < |values| ==> ItemWritten(h, base, data, elem, j, values[j])
  }

  ghost predicate Grown(h: Heap, h': Heap) {
    h.mem.Keys <= h'.mem.Keys && h.dicts.Keys <= h'.dicts.Keys
  }

  /** A buffer for `total` elements that was allocated between `h0` and `h1`. */
  ghost predicate Buffer(h0: Heap, h1: Heap, data: Address, elem: Ty, total: nat) {
    Has(h1, data, LayoutOf(elem).size * total) && Unused(h0, data, LayoutOf(elem).size * total)
  }

  /** While a buffer is being filled: its first elements are in place. */
  ghost predicate Filling(h0: Heap, h1: Heap, h: Heap, data: Address, elem: Ty, total: nat, values: seq<Value>) {
    && Within(h0, h) && Grown(h0, h1) && Grown(h1, h)
    && Buffer(h0, h1, data, elem, total)
    && ItemsWritten(h, h1, data, elem, values)
  }

  lemma InBuffer(data: Address, n: nat, j: nat, total: nat)
    requires j < total
    ensures data <= Nth(data, n, j) && Nth(data, n, j) + n <= data + n * total
  {
    NthIs(data, n, j);
    NextCopy(n, j, total);
    assert 0 <= n * j;
  }

  lemma {:induction false} ApartInBuffer(data: Address, n: nat, i: nat, j: nat)
    requires i < j
    ensures Nth(data, n, i) + n <= Nth(data, n, j)
  {
    if i + 1 < j {
      ApartInBuffer(data, n, i, j - 1);
    }
  }

  lemma WriteOutside(h0: Heap, h: Heap, p: Address, bytes: seq<Byte>)
    requires Within(h0, h) && Unused(h0, p, |bytes|)
    ensures Within(h0, Write(h, p, bytes))
  {
  }

  lemma WriteInside(base: Heap, h: Heap, p: Address, bytes: seq<Byte>)
    requires Grown(base, h) && Has(base, p, |bytes|)
    ensures Grown(base, Write(h, p, bytes)) && Beyond(Write(h, p, bytes), base) == Beyond(h, base)
  {
    assert Beyond(Write(h, p, bytes), base).mem == Beyond(h, base).mem;
  }

  lemma PartOfBuffer(h0: Heap, h1: Heap, data: Address, elem: Ty, j: nat, total: nat)
    requires j < total && Buffer(h0, h1, data, elem, total)
    ensures var n := LayoutOf(elem).size; Has(h1, Nth(data, n, j), n) && Unused(h0, Nth(data, n, j), n)
  {
    hide LayoutOf;
    InBuffer(data, LayoutOf(elem).size, j, total);
  }

  lemma GrownWithin(base: Heap, h: Heap, h': Heap)
    requires Grown(base, h) && Within(h, h')
    ensures Grown(base, h')
  {
  }

  /** Elements in place stay in place when something is allocated and the next one is copied. */
  lemma ItemKept(base: Heap, hA: Heap, hB: Heap, data: Address, elem: Ty, j: nat, v: Value, idx: nat, bytes: seq<Byte>)
    requires j < idx && ItemWritten(hA, base, data, elem, j, v)
    requires Grown(base, hA) && Within(hA, hB) && |bytes| == LayoutOf(elem).size
    requires Has(base, Nth(data, LayoutOf(elem).size, idx), LayoutOf(elem).size)
    ensures ItemWritten(Write(hB, Nth(data, LayoutOf(elem).size, idx), bytes), base, data, elem, j, v)
  {
    hide LayoutOf, RawLayout, Decode, Within, Beyond, Has, Read, Nth, Write;
    var n := LayoutOf(elem).size;
    ReadWithin(hA, hB, Nth(data, n, j), n);
    ApartInBuffer(data, n, j, idx);
    ReadElsewhere(hB, Nth(data, n, idx), bytes, Nth(data, n, j), n);
    GrownWithin(base, hA, hB);
    WriteInside(base, hB, Nth(data, n, idx), bytes);
    BeyondMonotone(hA, base, hB, base);
    DecodeStable(AsCompiled, Beyond(hA, base), Beyond(hB, base), Read(hA, Nth(data, n, j), n), elem);
  }

  /** The element just copied is in place. */
  lemma ItemPlaced(base: Heap, hA: Heap, hB: Heap, data: Address, elem: Ty, v: Value, idx: nat, p: Address)
    requires Grown(base, hA) && Within(hA, hB) && Holds(hA, hB, p, v, elem)
    requires Has(base, Nth(data, LayoutOf(elem).size, idx), LayoutOf(elem).size)
    requires Has(hB, p, LayoutOf(elem).size)
    ensures ItemWritten(Write(hB, Nth(data, LayoutOf(elem).size, idx), Read(hB, p, LayoutOf(elem).size)), base, data,
                        elem, idx, v)
  {
    hide LayoutOf, RawLayout, Decode, Within, Beyond, Has, Read, Nth, Write;
    var n := LayoutOf(elem).size;
    var bytes := Read(hB, p, n);
    HasValue(hA, hB, p, v, elem);
    GrownWithin(base, hA, hB);
    WithinSame(hB);
    BeyondMonotone(hB, base, hB, hA);
    DecodeStable(AsCompiled, Beyond(hB, hA), Beyond(hB, base), bytes, elem);
    WriteInside(base, hB, Nth(data, n, idx), bytes);
    ReadStored(hB, Nth(data, n, idx), bytes);
  }

  lemma FillStep(h0: Heap, h1: Heap, hA: Heap, hB: Heap, data: Address, elem: Ty, total: nat, values: seq<Value>,
                 p: Address, v: Value)
    requires Filling(h0, h1, hA, data, elem, total, values) && |values| < total
    requires Within(hA, hB) && Holds(hA, hB, p, v, elem) && Has(hB, p, LayoutOf(elem).size)
    ensures var n := LayoutOf(elem).size;
            Filling(h0, h1, Write(hB, Nth(data, n, |values|), Read(hB, p, n)), data, elem, total, values + [v])
  {
    hide LayoutOf, RawLayout, Decode, Within, Beyond, Has, Read, Nth, Write, Holds, ItemWritten, Buffer, Grown;
    var n, idx := LayoutOf(elem).size, |values|;
    var bytes := Read(hB, p, n);
    PartOfBuffer(h0, h1, data, elem, idx, total);
    WithinTrans(h0, hA, hB);
    WriteOutside(h0, hB, Nth(data, n, idx), bytes);
    GrownWithin(h1, hA, hB);
    WriteInside(h1, hB, Nth(data, n, idx), bytes);
    forall j | 0 <= j < |values| + 1
      ensures ItemWritten(Write(hB, Nth(data, n, idx), bytes), h1, data, elem, j, (values + [v])[j])
    {
      if j < idx {
        ItemKept(h1, hA, hB, data, elem, j, values[j], idx, bytes);
      } else {
        ItemPlaced(h1, hA, hB, data, elem, v, idx, p);
      }
    }
  }

  /** An element in place can be read from what is beyond the start, whatever is allocated later. */
  lemma ItemReadable(h0: Heap, h1: Heap, hC: Heap, h: Heap, data: Address, elem: Ty, j: nat, total: nat, v: Value)
    requires Grown(h0, h1) && Buffer(h0, h1, data, elem, total) && Grown(h1, hC) && j < total
    requires ItemWritten(hC, h1, data, elem, j, v) && Within(hC, h)
    ensures FromPtr(AsCompiled, Beyond(h, h0), Nth(data, LayoutOf(elem).size, j), elem) == Some(v)
  {
    hide LayoutOf, RawLayout, Decode, Within, Read, Nth, Buffer;
    var n := LayoutOf(elem).size;
    var a := Nth(data, n, j);
    PartOfBuffer(h0, h1, data, elem, j, total);
    ReadWithin(hC, h, a, n);
    assert Has(Beyond(h, h0), a, n);
    ReadBeyond(h0, h, a, n);
    BeyondMonotone(hC, h0, h, h1);
    DecodeStable(AsCompiled, Beyond(hC, h1), Beyond(h, h0), Read(hC, a, n), elem);
  }

  // ----- arrays -----

  lemma HeaderDecodes(data: Address, until: nat)
    requires data < ADDRESS_LIMIT && until < U32_LIMIT
    ensures var bytes := ArrayHeader(data, 0, until, until);
            && FromLE(bytes[..8]) == data && FromLE(bytes[8..12]) == 0
            && FromLE(bytes[12..16]) == FromLE(bytes[16..20]) == until
  {
    hide ToLE, FromLE, Pow2;
    var bytes := ArrayHeader(data, 0, until, until);
    assert bytes[..8] == ToLE(data, 8) && bytes[8..12] == ToLE(0, 4) && bytes[12..16] == ToLE(until, 4);
    assert bytes[16..20] == ToLE(until, 4);
    Pow2Values();
    FromToLE(data, 8);
    FromToLE(0, 4);
    FromToLE(until, 4);
  }

  lemma {:induction false} ItemsDecode(h0: Heap, h1: Heap, hC: Heap, h: Heap, data: Address, elem: Ty,
                                       items: seq<Value>,
                                       k: nat)
    requires Filling(h0, h1, hC, data, elem, |items|, items) && Within(hC, h) && k <= |items|
    ensures DecodeItems(AsCompiled, Beyond(h, h0), data, 0, k, elem) == Some(items[..k])
  {
    hide LayoutOf, RawLayout, Within, ItemWritten, Buffer, Grown, Beyond, FromPtr, PadToAlign;
    if k > 0 {
      ItemsDecode(h0, h1, hC, h, data, elem, items, k - 1);
      ItemReadable(h0, h1, hC, h, data, elem, k - 1, |items|, items[k - 1]);
      Unpadded(elem);
      assert items[..k] == items[..k - 1] + [items[k - 1]];
    }
  }

  /** A header of an array of `n` elements that fills a buffer of its own. */
  ghost predicate Headed(h0: Heap, h: Heap, p: Address, n: nat, elem: Ty) {
    && Has(h, p, 24)
    && var slot := Read(h, p, 24);
       && FromLE(slot[8..12]) == 0 && FromLE(slot[12..16]) == n && FromLE(slot[16..20]) == n
       && (FromLE(slot[..8]) == 0 <==> n == 0)
       && Has(h, FromLE(slot[..8]), LayoutOf(elem).size * n)
       && Unused(h0, FromLE(slot[..8]), LayoutOf(elem).size * n)
  }

  lemma HeaderRead(h0: Heap, h: Heap, p: Address)
    requires Has(Beyond(h, h0), p, 24)
    ensures Has(h, p, 24) && Read(h, p, 24) == Read(Beyond(h, h0), p, 24)
  {
    ReadBeyond(h0, h, p, 24);
  }

  lemma BufferOwned(h0: Heap, h1: Heap, hC: Heap, h: Heap, data: Address, elem: Ty, items: seq<Value>)
    requires Filling(h0, h1, hC, data, elem, |items|, items) && Within(hC, h) && (data == 0 <==> items == [])
    ensures HasRoom(AsCompiled, Beyond(h, h0), data, |items|, |items|, elem)
    ensures Has(h, data, LayoutOf(elem).size * |items|) && Unused(h0, data, LayoutOf(elem).size * |items|)
  {
    hide LayoutOf, RawLayout, ItemsWritten;
  }

  lemma ArrayHolds(h0: Heap, h1: Heap, hC: Heap, h: Heap, data: Address, target: Address, elem: Ty, items: seq<Value>)
    requires Filling(h0, h1, hC, data, elem, |items|, items) && Within(hC, h)
    requires |items| < U32_LIMIT && data < ADDRESS_LIMIT && (data == 0 <==> items == [])
    requires 0 < target < ADDRESS_LIMIT && target % 8 == 0
    requires Has(Beyond(h, hC), target, 24) && Has(h, target, 20)
    requires Read(h, target, 20) == ArrayHeader(data, 0, |items|, |items|)
    ensures Holds(h0, h, target, ArrayV(items), Array(elem))
    ensures Headed(h0, h, target, |items|, elem)
  {
    hide LayoutOf, RawLayout, Within, ItemsWritten, Buffer, Grown, Beyond, DecodeItems, Has, Read, ToLE, FromLE,
         ArrayHeader, HasRoom, Unused;
    ArraySize(elem);
    BufferOwned(h0, h1, hC, h, data, elem, items);
    WithinSame(h);
    FreshRead(h0, hC, h, h, target, 24);
    var slot := Read(Beyond(h, h0), target, 24);
    ReadSlice(h, target, 24, 0, 20);
    SliceOfSlice(slot, ArrayHeader(data, 0, |items|, |items|));
    HeaderDecodes(data, |items|);
    ItemsDecode(h0, h1, hC, h, data, elem, items, |items|);
    HeaderRead(h0, h, target);
    assert items[..|items|] == items;
    assert ArrayFrom(AsCompiled, Beyond(h, h0), data, 0, |items|, |items|, elem) == Some(ArrayV(items));
    assert DecodeArray(AsCompiled, Beyond(h, h0), slot, elem) == Some(ArrayV(items));
    assert Decode(AsCompiled, Beyond(h, h0), slot, Array(elem)) == Some(ArrayV(items));
  }

  lemma SliceOfSlice(slot: seq<Byte>, header: seq<Byte>)
    requires |slot| == 24 && |header| == 20 && slot[0..20] == header
    ensures slot[..8] == header[..8] && slot[8..12] == header[8..12] && slot[12..16] == header[12..16]
    ensures slot[16..20] == header[16..20]
  {
    assert slot[8..12] == slot[0..20][8..12];
    assert slot[12..16] == slot[0..20][12..16];
    assert slot[16..20] == slot[0..20][16..20];
  }

  /** The buffer first, then each element: written, and copied to its place; then the header. */
  method ArrayToPtr(arena: Arena, items: seq<Value>, elem: Ty) returns (r: Result)
    requires forall i :: 0 <= i < |items| ==> Shaped(items[i], elem)
    requires ValidHeap(arena.heap) && !arena.exhausted
    modifies arena
    ensures arena.exhausted <==> r == Err(OutOfMemory)
    ensures Written(old(arena.heap), arena.heap, ArrayV(items), Array(elem), r)
    ensures r.Ok? ==> Headed(old(arena.heap), arena.heap, r.p, |items|, elem)
    decreases elem, 3
  {
    hide LayoutOf, RawLayout, Within, Filling, Beyond, Has, Read, Write, Nth, ArrayHeader, Holds, ValidHeap, Shaped,
         Headed, Unused;
    ghost var h0 := arena.heap;
    WithinSame(h0);
    if |items| >= U32_LIMIT {
      return Err(IntegerConversion);
    }
    var n, data := LayoutOf(elem).size, 0;
    if items != [] {
      data := arena.Alloc(Layout(n * |items|, LayoutOf(elem).align));
      if data == 0 {
        return Err(OutOfMemory);
      }
    }
    ghost var h1 := arena.heap;
    BufferReady(h0, h1, data, elem, |items|);
    r := ItemsToPtr(arena, items, elem, data, h0, h1);
    if r.Err? {
      return;
    }
    ghost var hC := arena.heap;
    FillingWithin(h0, h1, hC, data, elem, |items|, items);
    var target := arena.AllocWith(Layout(24, 8), ArrayHeader(data, 0, |items|, |items|));
    if target == 0 {
      return Err(OutOfMemory);
    }
    ArrayHolds(h0, h1, hC, arena.heap, data, target, elem, items);
    WithinTrans(h0, hC, arena.heap);
    return Ok(target);
  }

  method ItemsToPtr(arena: Arena, items: seq<Value>, elem: Ty, data: Address, ghost h0: Heap, ghost h1: Heap)
    returns (r: Result)
    requires forall i :: 0 <= i < |items| ==> Shaped(items[i], elem)
    requires ValidHeap(arena.heap) && !arena.exhausted
    requires Filling(h0, h1, arena.heap, data, elem, |items|, [])
    modifies arena
    ensures arena.exhausted <==> r == Err(OutOfMemory)
    ensures ValidHeap(arena.heap) && Within(h0, arena.heap)
    ensures r.Ok? ==> Filling(h0, h1, arena.heap, data, elem, |items|, items)
    ensures r.Ok? ==> forall i :: 0 <= i < |items| ==> WellTyped(items[i], elem)
    ensures (forall i :: 0 <= i < |items| ==> WellTyped(items[i], elem)) ==> r.Ok? || r.error.OutOfMemory?
    decreases elem, 2
  {
    hide *;
    var n, idx := LayoutOf(elem).size, 0;
    assert items[..0] == [];
    while idx < |items|
      invariant 0 <= idx <= |items| && ValidHeap(arena.heap) && !arena.exhausted
      invariant Filling(h0, h1, arena.heap, data, elem, |items|, items[..idx])
      invariant forall i :: 0 <= i < idx ==> WellTyped(items[i], elem)
    {
      ghost var hA := arena.heap;
      r := ToPtr(arena, items[idx], elem);
      WrittenMeans(hA, arena.heap, items[idx], elem, r);
      if r.Err? {
        FillingWithin(h0, h1, hA, data, elem, |items|, items[..idx]);
        WithinTrans(h0, hA, arena.heap);
        return;
      }
      WrittenHas(hA, arena.heap, r.p, items[idx], elem);
      FillStep(h0, h1, hA, arena.heap, data, elem, |items|, items[..idx], r.p, items[idx]);
      arena.Copy(r.p, Nth(data, n, idx), n);
      assert items[..idx] + [items[idx]] == items[..idx + 1];
      idx := idx + 1;
    }
    assert items[..idx] == items;
    FillingWithin(h0, h1, arena.heap, data, elem, |items|, items);
    r := Ok(0);
  }

  lemma BufferReady(h0: Heap, h1: Heap, data: Address, elem: Ty, total: nat)
    requires Within(h0, h1)
    requires total > 0 ==> var n := LayoutOf(elem).size * total; Unused(h0, data, n) && Has(h1, data, n)
    ensures Filling(h0, h1, h1, data, elem, total, [])
  {
    hide LayoutOf, RawLayout;
    if total == 0 {
      assert LayoutOf(elem).size * total == 0;
    }
  }

  // ----- values inline in a bigger one -----

  /** The bytes of a value that was written after `h0`. */
  ghost predicate Part(h0: Heap, h: Heap, p: Address, bytes: seq<Byte>, v: Value, ty: Ty) {
    && |bytes| == LayoutOf(ty).size
    && Has(h, p, LayoutOf(ty).size) && Read(h, p, LayoutOf(ty).size) == bytes
    && Decode(AsCompiled, Beyond(h, h0), bytes, ty) == Some(v)
  }

  lemma PartKept(h0: Heap, h: Heap, h': Heap, p: Address, bytes: seq<Byte>, v: Value, ty: Ty)
    requires Part(h0, h, p, bytes, v, ty) && Within(h, h')
    ensures Part(h0, h', p, bytes, v, ty)
  {
    hide LayoutOf, RawLayout, Decode, Within, Beyond, Has, Read;
    ReadWithin(h, h', p, LayoutOf(ty).size);
    BeyondMonotoneSame(h, h', h0);
    DecodeStable(AsCompiled, Beyond(h, h0), Beyond(h', h0), bytes, ty);
  }

  lemma BeyondMonotoneSame(h: Heap, h': Heap, h0: Heap)
    requires Within(h, h')
    ensures Within(Beyond(h, h0), Beyond(h', h0))
  {
  }

  lemma BeyondEarlier(h: Heap, h0: Heap, h1: Heap)
    requires Within(h0, h1)
    ensures Within(Beyond(h, h1), Beyond(h, h0))
  {
  }

  lemma PartNew(h0: Heap, hA: Heap, hB: Heap, p: Address, v: Value, ty: Ty)
    requires Within(h0, hA) && Holds(hA, hB, p, v, ty)
    ensures Has(hB, p, LayoutOf(ty).size) && Part(h0, hB, p, Read(hB, p, LayoutOf(ty).size), v, ty)
  {
    hide LayoutOf, RawLayout, Decode, Within, Beyond, Has, Read;
    HasValue(hA, hB, p, v, ty);
    BeyondEarlier(hB, h0, hA);
    DecodeStable(AsCompiled, Beyond(hB, hA), Beyond(hB, h0), Read(hB, p, LayoutOf(ty).size), ty);
  }

  /** The room after `base` where a bigger value is put together. */
  ghost predicate Room(base: Heap, h: Heap, p: Address, n: nat) {
    Within(base, h) && Has(h, p, n) && Unused(base, p, n)
  }

  lemma RoomBeyond(base: Heap, h: Heap, p: Address, n: nat, h0: Heap)
    requires Room(base, h, p, n) && Within(h0, base)
    ensures Within(h0, h) && Has(Beyond(h, h0), p, n) && Read(Beyond(h, h0), p, n) == Read(h, p, n)
  {
    WithinTrans(h0, base, h);
    ReadBeyond(h0, h, p, n);
  }

  /** Writing somewhere in the room. */
  lemma RoomWrite(base: Heap, h: Heap, p: Address, n: nat, q: Address, bytes: seq<Byte>)
    requires Room(base, h, p, n) && p <= q && q + |bytes| <= p + n
    ensures Room(base, Write(h, q, bytes), p, n)
    ensures Has(Write(h, q, bytes), q, |bytes|) && Read(Write(h, q, bytes), q, |bytes|) == bytes
  {
    WriteOutside(base, h, q, bytes);
    ReadStored(h, q, bytes);
  }

  method IntRangeToPtr(arena: Arena, x: Value, y: Value, inner: Ty) returns (r: Result)
    requires Shaped(x, inner) && Shaped(y, inner)
    requires ValidHeap(arena.heap) && !arena.exhausted
    modifies arena
    ensures arena.exhausted <==> r == Err(OutOfMemory)
    ensures Written(old(arena.heap), arena.heap, IntRangeV(x, y), IntRange(inner), r)
    decreases inner, 3
  {
    hide LayoutOf, RawLayout, Within, Beyond, Has, Read, Write, Holds, ValidHeap, Part, Extend, Room, PadToAlign,
         WellTyped, Shaped, IsAlign;
    ghost var h0 := arena.heap;
    RangeWellTyped(x, y, inner);
    var py;
    ghost var xb, yb;
    r, py, xb, yb := BoundsToPtr(arena, x, y, inner);
    if r.Err? {
      return;
    }
    ghost var h2 := arena.heap;
    var px, n := r.p, LayoutOf(inner).size;
    PartHas(h0, h2, px, xb, x, inner);
    PartHas(h0, h2, py, yb, y, inner);
    IntRangeFits(inner);
    IntRangeWhole(inner);
    var (whole, offset) := Extend(LayoutOf(inner), LayoutOf(inner));
    var p := AllocPair(arena, PadToAlign(whole), px, py, n, offset);
    WithinTrans(h0, h2, arena.heap);
    if p == 0 {
      return Err(OutOfMemory);
    }
    ghost var h := arena.heap;
    PartKept(h0, h2, h, px, xb, x, inner);
    PartKept(h0, h2, h, py, yb, y, inner);
    IntRangeHolds(h0, h2, h, p, px, xb, x, py, yb, y, inner);
    return Ok(p);
  }

  lemma RangeWellTyped(x: Value, y: Value, inner: Ty)
    ensures WellTyped(IntRangeV(x, y), IntRange(inner)) <==> WellTyped(x, inner) && WellTyped(y, inner)
  {
  }

  /** Both bounds of a range, one after the other. */
  method BoundsToPtr(arena: Arena, x: Value, y: Value, inner: Ty)
    returns (r: Result, py: Address, ghost xb: seq<Byte>, ghost yb: seq<Byte>)
    requires Shaped(x, inner) && Shaped(y, inner)
    requires ValidHeap(arena.heap) && !arena.exhausted
    modifies arena
    ensures arena.exhausted <==> r == Err(OutOfMemory)
    ensures Within(old(arena.heap), arena.heap) && ValidHeap(arena.heap)
    ensures r.Ok? ==> WellTyped(x, inner) && Part(old(arena.heap), arena.heap, r.p, xb, x, inner)
    ensures r.Ok? ==> WellTyped(y, inner) && Part(old(arena.heap), arena.heap, py, yb, y, inner)
    ensures WellTyped(x, inner) && WellTyped(y, inner) ==> r.Ok? || r.error.OutOfMemory?
    decreases inner, 2
  {
    hide LayoutOf, RawLayout, Within, Beyond, Has, Read, Holds, ValidHeap, Shaped, Part, WellTyped;
    ghost var h0 := arena.heap;
    py, xb, yb := 0, [], [];
    r := ToPtr(arena, x, inner);
    if r.Err? {
      return;
    }
    ghost var h1 := arena.heap;
    var px := r.p;
    WithinSame(h0);
    PartNew(h0, h0, h1, px, x, inner);
    xb := Read(h1, px, LayoutOf(inner).size);
    r := ToPtr(arena, y, inner);
    ghost var h2 := arena.heap;
    WithinTrans(h0, h1, h2);
    if r.Err? {
      return;
    }
    py := r.p;
    PartKept(h0, h1, h2, px, xb, x, inner);
    PartNew(h0, h1, h2, py, y, inner);
    yb := Read(h2, py, LayoutOf(inner).size);
    r := Ok(px);
  }

  /** Room for two values side by side, and copies of both. */
  method AllocPair(arena: Arena, l: Layout, px: Address, py: Address, n: nat, offset: nat) returns (p: Address)
    requires l.align > 0 && l.size == 2 * n && offset == n
    requires Has(arena.heap, px, n) && Has(arena.heap, py, n) && ValidHeap(arena.heap) && !arena.exhausted
    modifies arena
    ensures arena.exhausted <==> p == 0
    ensures ValidHeap(arena.heap) && Within(old(arena.heap), arena.heap)
    ensures p != 0 ==> Multiple(p, l.align) && p < ADDRESS_LIMIT && Room(old(arena.heap), arena.heap, p, 2 * n)
    ensures p != 0 ==> Has(arena.heap, p, n) && Read(arena.heap, p, n) == Read(old(arena.heap), px, n)
    ensures p != 0 ==> Has(arena.heap, p + n, n) && Read(arena.heap, p + n, n) == Read(old(arena.heap), py, n)
  {
    hide Within, Has, Read, Write, ValidHeap, Unused;
    ghost var h2 := arena.heap;
    WithinSame(h2);
    p := arena.Alloc(l);
    if p == 0 {
      return;
    }
    ghost var h3 := arena.heap;
    ReadWithin(h2, h3, px, n);
    RoomWrite(h2, h3, p, 2 * n, p, Read(h2, px, n));
    arena.Copy(px, p, n);
    ghost var h4 := arena.heap;
    ReadWithin(h2, h4, py, n);
    RoomWrite(h2, h4, p, 2 * n, p + n, Read(h2, py, n));
    ReadElsewhere(h4, p + n, Read(h2, py, n), p, n);
    arena.Copy(py, p + offset, n);
  }

  lemma PartHas(h0: Heap, h: Heap, p: Address, bytes: seq<Byte>, v: Value, ty: Ty)
    requires Part(h0, h, p, bytes, v, ty)
    ensures |bytes| == LayoutOf(ty).size && Has(h, p, LayoutOf(ty).size) && Read(h, p, LayoutOf(ty).size) == bytes
  {
    hide LayoutOf, RawLayout, Decode, Beyond, Has, Read;
  }

  lemma IntRangeWhole(inner: Ty)
    ensures PadToAlign(Extend(LayoutOf(inner), LayoutOf(inner)).0) == LayoutOf(IntRange(inner))
  {
    hide PadToAlign, Extend;
  }

  lemma IntRangeHolds(h0: Heap, base: Heap, h: Heap, p: Address, px: Address, xb: seq<Byte>, x: Value,
                      py: Address, yb: seq<Byte>, y: Value, inner: Ty)
    requires 0 < p < ADDRESS_LIMIT && Multiple(p, LayoutOf(IntRange(inner)).align)
    requires Within(h0, base) && Room(base, h, p, 2 * LayoutOf(inner).size)
    requires Part(h0, h, px, xb, x, inner) && Part(h0, h, py, yb, y, inner)
    requires var n := LayoutOf(inner).size;
             && Has(h, p, n) && Read(h, p, n) == xb && Has(h, p + n, n) && Read(h, p + n, n) == yb
    ensures Holds(h0, h, p, IntRangeV(x, y), IntRange(inner))
  {
    hide LayoutOf, RawLayout, Within, Beyond, Has, Read, Room, Extend, Decode, FromPtr;
    var n := LayoutOf(inner).size;
    IntRangeFits(inner);
    RoomBeyond(base, h, p, 2 * n, h0);
    RoomHas(base, h, p, 2 * n);
    var slot := Read(Beyond(h, h0), p, 2 * n);
    ReadSlice(h, p, 2 * n, 0, n);
    ReadSlice(h, p, 2 * n, n, n);
    assert slot[..n] == slot[0..n];
    BoundsDecode(Beyond(h, h0), slot, x, y, inner);
    SlotFound(Beyond(h, h0), p, IntRange(inner), IntRangeV(x, y));
  }

  lemma BoundsDecode(h: Heap, slot: seq<Byte>, x: Value, y: Value, inner: Ty)
    requires |slot| == LayoutOf(IntRange(inner)).size == 2 * LayoutOf(inner).size
    requires var n := LayoutOf(inner).size;
             && Decode(AsCompiled, h, slot[..n], inner) == Some(x)
             && Decode(AsCompiled, h, slot[n..n + n], inner) == Some(y)
    ensures Decode(AsCompiled, h, slot, IntRange(inner)) == Some(IntRangeV(x, y))
  {
    hide LayoutOf, RawLayout, Extend;
    IntRangeFits(inner);
    assert DecodeIntRange(AsCompiled, h, slot, inner) == Some(IntRangeV(x, y));
  }

  lemma SlotFound(h: Heap, p: Address, ty: Ty, v: Value)
    requires Has(h, p, LayoutOf(ty).size) && Decode(AsCompiled, h, Read(h, p, LayoutOf(ty).size), ty) == Some(v)
    ensures FromPtr(AsCompiled, h, p, ty) == Some(v)
  {
    hide LayoutOf, Decode, Read, Has;
  }

  lemma RoomHas(base: Heap, h: Heap, p: Address, n: nat)
    requires Room(base, h, p, n)
    ensures Has(h, p, n)
  {
  }

  // ----- enums -----

  /** The tag fills its slot exactly, and is found again under the mask. */
  lemma TagRoundTrip(tag: nat, count: nat, slot: seq<Byte>)
    requires tag < count && TagBits(count) <= 64
    requires TagLayout(count).size <= |slot| && slot[..TagLayout(count).size] == ToLE(tag, TagLayout(count).size)
    ensures DecodeTag(slot, count) == Some(tag)
  {
    hide ToLE, FromLE, Pow2, TagBits;
    if count > 1 {
      var bits, size := TagBits(count), TagLayout(count).size;
      TagBitsEnough(count);
      TagSize(count);
      Pow2Monotone(bits, 8 * size);
      FromToLE(tag, size);
      QuotientIs(tag, Pow2(bits), 0, tag);
    }
  }

  lemma TagSize(count: nat)
    requires TagBits(count) <= 64
    ensures var size := TagLayout(count).size;
            TagBits(count) <= 8 * size && size <= 8 && (count > 1 ==> size == 1 || size == 2 || size == 4 || size == 8)
  {
  }

  /** The tags that have a slot. */
  lemma TagHasSlot(count: nat)
    ensures var size := TagLayout(count).size;
            size == 0 || size == 1 || size == 2 || size == 4 || size == 8 <==> TagBits(count) <= 64
  {
  }

  method EnumToPtr(arena: Arena, tag: nat, payload: Value, variants: seq<Ty>) returns (r: Result)
    requires tag < |variants| ==> Shaped(payload, variants[tag])
    requires ValidHeap(arena.heap) && !arena.exhausted
    modifies arena
    ensures arena.exhausted <==> r == Err(OutOfMemory)
    ensures Written(old(arena.heap), arena.heap, EnumV(tag, payload), Enum(variants), r)
    decreases variants, 1
  {
    hide LayoutOf, RawLayout, Within, Beyond, Has, Read, Write, Holds, ValidHeap, Shaped, Part, TagBits, TagLayout,
         PayloadOffset, Room;
    ghost var h0 := arena.heap;
    WithinSame(h0);
    if tag >= |variants| {
      return Err(NativePanic);
    }
    r := ToPtr(arena, payload, variants[tag]);
    if r.Err? {
      return;
    }
    ghost var h1 := arena.heap;
    var from := r.p;
    var count, n := |variants|, LayoutOf(variants[tag]).size;
    PartNew(h0, h0, h1, from, payload, variants[tag]);
    PartHas(h0, h1, from, Read(h1, from, n), payload, variants[tag]);
    TagHasSlot(count);
    TagFits(variants);
    PayloadDisjoint(variants, tag);
    var offset := PayloadOffset(variants, tag);
    var p, fits := AllocTagged(arena, LayoutOf(Enum(variants)), tag, TagLayout(count).size, from, n, offset);
    WithinTrans(h0, h1, arena.heap);
    if p == 0 {
      return Err(OutOfMemory);
    }
    if !fits {
      return Err(NativePanic);
    }
    PartKept(h0, h1, arena.heap, from, Read(h1, from, n), payload, variants[tag]);
    EnumHolds(h0, h1, arena.heap, p, from, Read(h1, from, n), tag, payload, variants);
    return Ok(p);
  }

  /** Room for an enum, its tag if there is a tag slot of that size, and a copy of its payload. */
  method AllocTagged(arena: Arena, l: Layout, tag: nat, tagSize: nat, from: Address, n: nat, offset: nat)
    returns (p: Address, fits: bool)
    requires l.align > 0 && tagSize <= offset && offset + n <= l.size
    requires Has(arena.heap, from, n) && ValidHeap(arena.heap) && !arena.exhausted
    modifies arena
    ensures arena.exhausted <==> p == 0
    ensures ValidHeap(arena.heap) && Within(old(arena.heap), arena.heap)
    ensures fits <==> tagSize == 0 || tagSize == 1 || tagSize == 2 || tagSize == 4 || tagSize == 8
    ensures p != 0 ==> Multiple(p, l.align) && p < ADDRESS_LIMIT && Room(old(arena.heap), arena.heap, p, l.size)
    ensures p != 0 && fits ==> Has(arena.heap, p, tagSize) && Read(arena.heap, p, tagSize) == ToLE(tag, tagSize)
    ensures p != 0 && fits ==>
      Has(arena.heap, p + offset, n) && Read(arena.heap, p + offset, n) == Read(old(arena.heap), from, n)
  {
    hide Within, Has, Read, Write, ValidHeap, Unused, ToLE;
    ghost var h1 := arena.heap;
    WithinSame(h1);
    fits := tagSize == 0 || tagSize == 1 || tagSize == 2 || tagSize == 4 || tagSize == 8;
    p := arena.Alloc(l);
    if p == 0 || !fits {
      return;
    }
    ghost var h2 := arena.heap;
    RoomWrite(h1, h2, p, l.size, p, ToLE(tag, tagSize));
    arena.Put(p, ToLE(tag, tagSize));
    ghost var h3 := arena.heap;
    ReadWithin(h1, h3, from, n);
    RoomWrite(h1, h3, p, l.size, p + offset, Read(h1, from, n));
    ReadElsewhere(h3, p + offset, Read(h1, from, n), p, tagSize);
    arena.Copy(from, p + offset, n);
  }

  lemma EnumHolds(h0: Heap, base: Heap, h: Heap, p: Address, from: Address, bytes: seq<Byte>, tag: nat, payload: Value,
                  variants: seq<Ty>)
    requires tag < |variants| && TagBits(|variants|) <= 64
    requires 0 < p < ADDRESS_LIMIT && Multiple(p, LayoutOf(Enum(variants)).align)
    requires Within(h0, base) && Room(base, h, p, LayoutOf(Enum(variants)).size)
    requires Part(h0, h, from, bytes, payload, variants[tag])
    requires var size := TagLayout(|variants|).size; Has(h, p, size) && Read(h, p, size) == ToLE(tag, size)
    requires var n := LayoutOf(variants[tag]).size;
             var at := p + PayloadOffset(variants, tag);
             Has(h, at, n) && Read(h, at, n) == bytes
    ensures Holds(h0, h, p, EnumV(tag, payload), Enum(variants))
  {
    hide LayoutOf, RawLayout, Within, Beyond, Has, Read, Room, Extend, TagLayout, PayloadOffset, ToLE, DecodeTag;
    var whole, n, size := LayoutOf(Enum(variants)).size, LayoutOf(variants[tag]).size, TagLayout(|variants|).size;
    var offset := PayloadOffset(variants, tag);
    TagFits(variants);
    PayloadDisjoint(variants, tag);
    RoomBeyond(base, h, p, whole, h0);
    RoomHas(base, h, p, whole);
    var slot := Read(Beyond(h, h0), p, whole);
    ReadSlice(h, p, whole, 0, size);
    ReadSlice(h, p, whole, offset, n);
    assert slot[..size] == slot[0..size];
    TagRoundTrip(tag, |variants|, slot);
    assert DecodeEnum(AsCompiled, Beyond(h, h0), slot, variants) == Some(EnumV(tag, payload));
    assert Decode(AsCompiled, Beyond(h, h0), slot, Enum(variants)) == Some(EnumV(tag, payload));
  }

  // ----- structs -----

  /** A member that was written and waits for the struct to be put together. */
  datatype Pending = Pending(layout: Layout, offset: nat, p: Address)

  ghost predicate PendingFor(h0: Heap, h: Heap, members: seq<Ty>, j: nat, m: Pending, bytes: seq<Byte>, v: Value)
    requires j < |members|
  {
    m.layout == LayoutOf(members[j]) && m.offset == MemberOffset(members, j) && Part(h0, h, m.p, bytes, v, members[j])
  }

  ghost predicate AllPending(h0: Heap, h: Heap, members: seq<Ty>, data: seq<Pending>, parts: seq<seq<Byte>>,
                             fields: seq<Value>)
  {
    && |data| == |parts| == |fields| <= |members|
    && forall j :: 0 <= j < |data| ==> PendingFor(h0, h, members, j, data[j], parts[j], fields[j])
  }

  lemma PendingKept(h0: Heap, h: Heap, h': Heap, members: seq<Ty>, data: seq<Pending>, parts: seq<seq<Byte>>,
                    fields: seq<Value>)
    requires AllPending(h0, h, members, data, parts, fields) && Within(h, h')
    ensures AllPending(h0, h', members, data, parts, fields)
  {
    hide LayoutOf, RawLayout, Within, Part, MemberOffset;
    forall j | 0 <= j < |data| ensures PendingFor(h0, h', members, j, data[j], parts[j], fields[j]) {
      PartKept(h0, h, h', data[j].p, parts[j], fields[j], members[j]);
    }
  }

  lemma PendingOne(h0: Heap, h: Heap, members: seq<Ty>, data: seq<Pending>, parts: seq<seq<Byte>>, fields: seq<Value>,
                   m: Pending, bytes: seq<Byte>, v: Value)
    requires AllPending(h0, h, members, data, parts, fields) && |data| < |members|
    requires PendingFor(h0, h, members, |data|, m, bytes, v)
    ensures AllPending(h0, h, members, data + [m], parts + [bytes], fields + [v])
  {
    hide PendingFor;
  }

  /** Every member in turn, with its layout and its offset. */
  method MembersToPtr(arena: Arena, fields: seq<Value>, members: seq<Ty>)
    returns (r: Result, data: seq<Pending>, whole: Layout, ghost parts: seq<seq<Byte>>)
    requires |fields| == |members| && forall i :: 0 <= i < |fields| ==> Shaped(fields[i], members[i])
    requires ValidHeap(arena.heap) && !arena.exhausted
    modifies arena
    ensures arena.exhausted <==> r == Err(OutOfMemory)
    ensures Within(old(arena.heap), arena.heap) && ValidHeap(arena.heap)
    ensures r.Ok? ==> AllPending(old(arena.heap), arena.heap, members, data, parts, fields)
    ensures r.Ok? ==> whole == StructLayout(members)
    ensures r.Ok? ==> forall i :: 0 <= i < |fields| ==> WellTyped(fields[i], members[i])
    ensures (forall i :: 0 <= i < |fields| ==> WellTyped(fields[i], members[i])) ==> r.Ok? || r.error.OutOfMemory?
    decreases members, 1
  {
    hide LayoutOf, RawLayout, Within, Beyond, Has, Read, Holds, ValidHeap, Shaped, PendingFor, WellTyped, Extend,
         StructLayout, MemberOffset, Part;
    ghost var h0 := arena.heap;
    WithinSame(h0);
    data, whole, parts := [], Layout(0, 1), [];
    NoMembers(members);
    var i := 0;
    while i < |members|
      invariant !arena.exhausted
      invariant 0 <= i <= |members| && |data| == i && ValidHeap(arena.heap) && Within(h0, arena.heap)
      invariant whole == StructLayout(members[..i])
      invariant AllPending(h0, arena.heap, members, data, parts, fields[..i])
      invariant forall j :: 0 <= j < i ==> WellTyped(fields[j], members[j])
    {
      ghost var hA := arena.heap;
      NextMember(members, i);
      var (longer, offset) := Extend(whole, LayoutOf(members[i]));
      whole := longer;
      r := ToPtr(arena, fields[i], members[i]);
      WithinTrans(h0, hA, arena.heap);
      if r.Err? {
        return;
      }
      ghost var h := arena.heap;
      PartNew(h0, hA, h, r.p, fields[i], members[i]);
      PendingKept(h0, hA, h, members, data, parts, fields[..i]);
      ghost var bytes := Read(h, r.p, LayoutOf(members[i]).size);
      var m := Pending(LayoutOf(members[i]), offset, r.p);
      PendingIs(h0, h, members, i, m, bytes, fields[i]);
      PendingOne(h0, h, members, data, parts, fields[..i], m, bytes, fields[i]);
      data, parts := data + [m], parts + [bytes];
      assert fields[..i] + [fields[i]] == fields[..i + 1];
      i := i + 1;
    }
    assert fields[..i] == fields && members[..i] == members;
    r := Ok(0);
  }

  lemma PendingIs(h0: Heap, h: Heap, members: seq<Ty>, j: nat, m: Pending, bytes: seq<Byte>, v: Value)
    requires j < |members| && m.layout == LayoutOf(members[j]) && m.offset == MemberOffset(members, j)
    requires Part(h0, h, m.p, bytes, v, members[j])
    ensures PendingFor(h0, h, members, j, m, bytes, v)
  {
  }

  lemma NoMembers(members: seq<Ty>)
    ensures StructLayout(members[..0]) == Layout(0, 1)
  {
  }

  lemma NextMember(members: seq<Ty>, i: nat)
    requires i < |members|
    ensures Extend(StructLayout(members[..i]), LayoutOf(members[i]))
         == (StructLayout(members[..i + 1]), MemberOffset(members, i))
  {
    hide LayoutOf, RawLayout, Extend;
    assert members[..i + 1][..i] == members[..i];
  }

  /** The first members are in their places. */
  ghost predicate Copied(h: Heap, p: Address, data: seq<Pending>, parts: seq<seq<Byte>>, count: nat) {
    count <= |data| == |parts| && forall j :: 0 <= j < count ==> CopiedOne(h, p, data[j], parts[j])
  }

  ghost predicate CopiedOne(h: Heap, p: Address, m: Pending, bytes: seq<Byte>) {
    |bytes| == m.layout.size && Has(h, p + m.offset, |bytes|) && Read(h, p + m.offset, |bytes|) == bytes
  }

  lemma CopyNext(h: Heap, p: Address, members: seq<Ty>, data: seq<Pending>, parts: seq<seq<Byte>>, i: nat)
    requires Copied(h, p, data, parts, i) && i < |data| <= |members| && |parts[i]| == data[i].layout.size
    requires forall j :: 0 <= j <= i ==>
      data[j].layout == LayoutOf(members[j]) && data[j].offset == MemberOffset(members, j)
    ensures Copied(Write(h, p + data[i].offset, parts[i]), p, data, parts, i + 1)
  {
    hide LayoutOf, RawLayout, MemberOffset, Has, Read, Write;
    var h' := Write(h, p + data[i].offset, parts[i]);
    forall j | 0 <= j < i + 1 ensures CopiedOne(h', p, data[j], parts[j]) {
      if j < i {
        MembersDisjoint(members, j, i);
        ReadElsewhere(h, p + data[i].offset, parts[i], p + data[j].offset, |parts[j]|);
      } else {
        ReadStored(h, p + data[i].offset, parts[i]);
      }
    }
  }

  /** Room for the struct, and every member copied to its offset. */
  method AllocStruct(arena: Arena, l: Layout, data: seq<Pending>, ghost members: seq<Ty>, ghost parts: seq<seq<Byte>>)
    returns (p: Address)
    requires ValidHeap(arena.heap) && !arena.exhausted && |data| == |members| == |parts| &&
             l == LayoutOf(Struct(members))
    requires forall j :: 0 <= j < |data| ==>
      data[j].layout == LayoutOf(members[j]) && data[j].offset == MemberOffset(members, j)
    requires forall j :: 0 <= j < |data| ==> ReadsAs(arena.heap, data[j], parts[j])
    modifies arena
    ensures arena.exhausted <==> p == 0
    ensures ValidHeap(arena.heap) && Within(old(arena.heap), arena.heap)
    ensures p != 0 ==> Multiple(p, l.align) && p < ADDRESS_LIMIT && Room(old(arena.heap), arena.heap, p, l.size)
    ensures p != 0 ==> Copied(arena.heap, p, data, parts, |data|)
  {
    hide LayoutOf, RawLayout, Within, Has, Read, Write, ValidHeap, Unused, MemberOffset, ReadsAs, CopiedOne;
    ghost var base := arena.heap;
    WithinSame(base);
    p := arena.Alloc(l);
    if p == 0 {
      return;
    }
    var i := 0;
    while i < |data|
      invariant 0 <= i <= |data| && ValidHeap(arena.heap) && !arena.exhausted
      invariant Room(base, arena.heap, p, l.size) && Copied(arena.heap, p, data, parts, i)
    {
      ghost var h := arena.heap;
      ReadsLater(base, h, data[i], parts[i]);
      MemberInStruct(members, i);
      RoomWrite(base, h, p, l.size, p + data[i].offset, parts[i]);
      CopyNext(h, p, members, data, parts, i);
      arena.Copy(data[i].p, p + data[i].offset, data[i].layout.size);
      i := i + 1;
    }
  }

  ghost predicate ReadsAs(h: Heap, m: Pending, bytes: seq<Byte>) {
    |bytes| == m.layout.size && Has(h, m.p, |bytes|) && Read(h, m.p, |bytes|) == bytes
  }

  lemma ReadsLater(base: Heap, h: Heap, m: Pending, bytes: seq<Byte>)
    requires ReadsAs(base, m, bytes) && Within(base, h)
    ensures |bytes| == m.layout.size && Has(h, m.p, m.layout.size) && Read(h, m.p, m.layout.size) == bytes
  {
    ReadWithin(base, h, m.p, |bytes|);
  }

  lemma PendingReads(h0: Heap, h: Heap, members: seq<Ty>, data: seq<Pending>, parts: seq<seq<Byte>>, fields: seq<Value>)
    requires AllPending(h0, h, members, data, parts, fields)
    ensures forall j :: 0 <= j < |data| ==> ReadsAs(h, data[j], parts[j])
    ensures forall j :: 0 <= j < |data| ==>
      data[j].layout == LayoutOf(members[j]) && data[j].offset == MemberOffset(members, j)
  {
    hide LayoutOf, RawLayout, MemberOffset, Part;
    forall j | 0 <= j < |data|
      ensures ReadsAs(h, data[j], parts[j])
      ensures data[j].layout == LayoutOf(members[j]) && data[j].offset == MemberOffset(members, j)
    {
      assert PendingFor(h0, h, members, j, data[j], parts[j], fields[j]);
      PartHas(h0, h, data[j].p, parts[j], fields[j], members[j]);
    }
  }

  lemma {:induction false} FieldsDecode(h0: Heap, base: Heap, h: Heap, p: Address, members: seq<Ty>, data: seq<Pending>,
                                        parts: seq<seq<Byte>>, fields: seq<Value>, k: nat)
    requires AllPending(h0, h, members, data, parts, fields) && |data| == |members| && k <= |members|
    requires Within(h0, base) && Room(base, h, p, LayoutOf(Struct(members)).size)
    requires Copied(h, p, data, parts, |data|)
    requires Has(Beyond(h, h0), p, LayoutOf(Struct(members)).size)
    ensures DecodeFields(AsCompiled, Beyond(h, h0), Read(Beyond(h, h0), p, LayoutOf(Struct(members)).size), members, k)
         == Some(fields[..k])
  {
    hide LayoutOf, RawLayout, Within, Room, MemberOffset, Beyond, Has, Read, Decode;
    if k > 0 {
      var j := k - 1;
      FieldsDecode(h0, base, h, p, members, data, parts, fields, j);
      MemberInStruct(members, j);
      assert PendingFor(h0, h, members, j, data[j], parts[j], fields[j]);
      assert CopiedOne(h, p, data[j], parts[j]);
      MemberDecodes(h0, base, h, p, members, data[j], parts[j], fields[j], j);
      assert fields[..k] == fields[..j] + [fields[j]];
    }
  }

  lemma MemberDecodes(h0: Heap, base: Heap, h: Heap, p: Address, members: seq<Ty>, m: Pending, bytes: seq<Byte>,
                      v: Value,
                      j: nat)
    requires j < |members| && PendingFor(h0, h, members, j, m, bytes, v) && CopiedOne(h, p, m, bytes)
    requires Within(h0, base) && Room(base, h, p, LayoutOf(Struct(members)).size)
    requires Has(Beyond(h, h0), p, LayoutOf(Struct(members)).size)
    ensures var slot := Read(Beyond(h, h0), p, LayoutOf(Struct(members)).size);
            var (offset, n) := (MemberOffset(members, j), LayoutOf(members[j]).size);
            offset + n <= |slot| && Decode(AsCompiled, Beyond(h, h0), slot[offset..offset + n], members[j]) == Some(v)
  {
    hide LayoutOf, RawLayout, Within, Room, MemberOffset, Beyond, Has, Read, Decode;
    MemberInStruct(members, j);
    var whole := LayoutOf(Struct(members)).size;
    RoomBeyond(base, h, p, whole, h0);
    RoomHas(base, h, p, whole);
    ReadSlice(h, p, whole, m.offset, |bytes|);
  }

  lemma StructHolds(h0: Heap, base: Heap, h: Heap, p: Address, members: seq<Ty>, data: seq<Pending>,
                    parts: seq<seq<Byte>>, fields: seq<Value>)
    requires AllPending(h0, h, members, data, parts, fields) && |data| == |members|
    requires 0 < p < ADDRESS_LIMIT && Multiple(p, LayoutOf(Struct(members)).align)
    requires Within(h0, base) && Room(base, h, p, LayoutOf(Struct(members)).size)
    requires Copied(h, p, data, parts, |data|)
    ensures Holds(h0, h, p, StructV(fields), Struct(members))
  {
    hide LayoutOf, RawLayout, Within, Room, Beyond, Has, Read, Copied, PendingFor, DecodeFields;
    var whole := LayoutOf(Struct(members)).size;
    RoomBeyond(base, h, p, whole, h0);
    FieldsDecode(h0, base, h, p, members, data, parts, fields, |members|);
    assert fields[..|members|] == fields;
    var slot := Read(Beyond(h, h0), p, whole);
    assert Decode(AsCompiled, Beyond(h, h0), slot, Struct(members)) == Some(StructV(fields));
  }

  method StructToPtr(arena: Arena, fields: seq<Value>, members: seq<Ty>) returns (r: Result)
    requires |fields| == |members| && forall i :: 0 <= i < |fields| ==> Shaped(fields[i], members[i])
    requires ValidHeap(arena.heap) && !arena.exhausted
    modifies arena
    ensures arena.exhausted <==> r == Err(OutOfMemory)
    ensures Written(old(arena.heap), arena.heap, StructV(fields), Struct(members), r)
    decreases members, 2
  {
    hide LayoutOf, RawLayout, Within, Beyond, Has, Read, Holds, ValidHeap, Shaped, PendingFor, WellTyped, Room, Copied,
         StructLayout, MemberOffset, Part, ReadsAs;
    ghost var h0 := arena.heap;
    StructWellTyped(fields, members);
    var data, whole;
    ghost var parts;
    r, data, whole, parts := MembersToPtr(arena, fields, members);
    if r.Err? {
      return;
    }
    ghost var base := arena.heap;
    PendingReads(h0, base, members, data, parts, fields);
    StructPadded(members);
    var p := AllocStruct(arena, PadToAlign(whole), data, members, parts);
    WithinTrans(h0, base, arena.heap);
    if p == 0 {
      return Err(OutOfMemory);
    }
    PendingKept(h0, base, arena.heap, members, data, parts, fields);
    StructHolds(h0, base, arena.heap, p, members, data, parts, fields);
    return Ok(p);
  }

  lemma StructWellTyped(fields: seq<Value>, members: seq<Ty>)
    requires |fields| == |members|
    ensures WellTyped(StructV(fields), Struct(members)) <==>
      forall i :: 0 <= i < |fields| ==> WellTyped(fields[i], members[i])
  {
  }

  lemma StructPadded(members: seq<Ty>)
    ensures PadToAlign(StructLayout(members)) == LayoutOf(Struct(members))
  {
  }

  // ----- dictionaries -----

  /** The entries written so far: each key has a place of its own, and `done` tells what is there. */
  ghost predicate Filled(d: FeltDict, entries: map<nat, Value>, todo: set<nat>, done: seq<Value>) {
    && d.mappings.Keys + todo == entries.Keys && d.mappings.Keys !! todo
    && |d.mappings| == |done| && Placed(d.mappings, entries, done)
  }

  ghost predicate Placed(places: map<nat, nat>, entries: map<nat, Value>, done: seq<Value>) {
    forall k :: k in places ==> k in entries && places[k] < |done| && done[places[k]] == entries[k]
  }

  lemma FilledNext(d: FeltDict, entries: map<nat, Value>, todo: set<nat>, done: seq<Value>, k: nat)
    requires Filled(d, entries, todo, done) && k in todo
    ensures k in entries
    ensures Filled(d.(mappings := d.mappings[k := |d.mappings|]), entries, todo - {k}, done + [entries[k]])
  {
    hide Placed;
    var next := d.mappings[k := |d.mappings|];
    MoreKeys(d.mappings, k, |d.mappings|);
    assert next.Keys == d.mappings.Keys + {k};
    assert k !in d.mappings && k in entries;
    assert next.Keys + (todo - {k}) == d.mappings.Keys + todo;
    PlacesKept(d.mappings, entries, done, k);
  }

  lemma PlacesKept(places: map<nat, nat>, entries: map<nat, Value>, done: seq<Value>, k: nat)
    requires k in entries && k !in places && Placed(places, entries, done)
    ensures Placed(places[k := |done|], entries, done + [entries[k]])
  {
  }

  lemma MoreKeys(m: map<nat, nat>, k: nat, v: nat)
    requires k !in m
    ensures |m[k := v]| == |m| + 1
  {
    var next := m[k := v];
    assert next.Keys == m.Keys + {k};
    assert |next.Keys| == |m.Keys| + 1;
    assert |m| == |m.Keys| && |next| == |next.Keys|;
  }

  lemma FillingPutDict(h0: Heap, h1: Heap, h: Heap, data: Address, elem: Ty, total: nat, values: seq<Value>,
                       header: Address, d: FeltDict)
    requires Filling(h0, h1, h, data, elem, total, values) && header in h1.dicts && header !in h0.dicts
    ensures Filling(h0, h1, h.(dicts := h.dicts[header := d]), data, elem, total, values)
  {
    hide LayoutOf, RawLayout, Decode, Nth;
    var h' := h.(dicts := h.dicts[header := d]);
    assert Beyond(h', h1).dicts == Beyond(h, h1).dicts;
    assert Beyond(h', h1) == Beyond(h, h1);
    forall j | 0 <= j < |values| ensures ItemWritten(h', h1, data, elem, j, values[j]) {
      var a, n := Nth(data, LayoutOf(elem).size, j), LayoutOf(elem).size;
      assert ItemWritten(h, h1, data, elem, j, values[j]);
      assert Read(h', a, n) == Read(h, a, n);
    }
  }

  lemma DictHolds(h0: Heap, h1: Heap, hC: Heap, h: Heap, slot: Address, header: Address, d: FeltDict, elem: Ty,
                  capacity: nat, entries: map<nat, Value>, done: seq<Value>)
    requires Filling(h0, h1, hC, d.elements, elem, capacity, done) && Within(hC, h) && |done| <= capacity
    requires Filled(d, entries, {}, done) && d.layout == LayoutOf(elem)
    requires header in hC.dicts && hC.dicts[header] == d && header !in h0.dicts && header < ADDRESS_LIMIT
    requires 0 < slot < ADDRESS_LIMIT && slot % 8 == 0
    requires Has(Beyond(h, hC), slot, 8) && Has(h, slot, 8) && Read(h, slot, 8) == ToLE(header, 8)
    ensures Holds(h0, h, slot, DictV(entries), Felt252Dict(elem))
  {
    hide LayoutOf, RawLayout, Has, Read, ToLE, FromLE, Filling, Filled, DecodeDict;
    HeaderBeyond(h0, hC, h, header);
    hide Within, Beyond;
    FillingWithin(h0, h1, hC, d.elements, elem, capacity, done);
    WithinSame(h);
    FreshRead(h0, hC, h, h, slot, 8);
    PointerSize(Felt252Dict(elem));
    PointerRoundTrip(header);
    DictDecodes(h0, h1, hC, h, d, elem, capacity, entries, done);
    assert Decode(AsCompiled, Beyond(h, h0), ToLE(header, 8), Felt252Dict(elem)) == Some(DictV(entries));
    hide Decode, FromPtr;
    SlotFound(Beyond(h, h0), slot, Felt252Dict(elem), DictV(entries));
  }

  lemma FillingWithin(h0: Heap, h1: Heap, h: Heap, data: Address, elem: Ty, total: nat, values: seq<Value>)
    requires Filling(h0, h1, h, data, elem, total, values)
    ensures Within(h0, h)
  {
  }

  lemma HeaderBeyond(h0: Heap, hC: Heap, h: Heap, header: Address)
    requires Within(hC, h) && header in hC.dicts && header !in h0.dicts
    ensures header in Beyond(h, h0).dicts && Beyond(h, h0).dicts[header] == hC.dicts[header]
  {
  }

  lemma DictDecodes(h0: Heap, h1: Heap, hC: Heap, h: Heap, d: FeltDict, elem: Ty, capacity: nat,
                    entries: map<nat, Value>, done: seq<Value>)
    requires Filling(h0, h1, hC, d.elements, elem, capacity, done) && Within(hC, h) && |done| <= capacity
    requires Filled(d, entries, {}, done) && d.layout == LayoutOf(elem)
    ensures DecodeDict(AsCompiled, Beyond(h, h0), d, elem) == Some(DictV(entries))
  {
    hide LayoutOf, RawLayout, Within, Beyond, FromPtr, ItemWritten, Buffer, Grown, PadToAlign, Nth, DecodeDict;
    Unpadded(elem);
    assert d.mappings.Keys == entries.Keys;
    forall k | k in entries
      ensures FromPtr(AsCompiled, Beyond(h, h0), EntryAddress(d, d.mappings[k]), elem) == Some(entries[k])
    {
      ItemReadable(h0, h1, hC, h, d.elements, elem, d.mappings[k], capacity, done[d.mappings[k]]);
    }
    DictHas(AsCompiled, Beyond(h, h0), d, elem, entries);
  }

  /** A header with an empty map, and a buffer for the elements that is at least big enough. */
  method AllocDict(arena: Arena, count: nat, elem: Ty) returns (header: Address, d: FeltDict, ghost capacity: nat)
    requires ValidHeap(arena.heap) && !arena.exhausted
    modifies arena
    ensures arena.exhausted <==> header == 0
    ensures ValidHeap(arena.heap) && Within(old(arena.heap), arena.heap)
    ensures header != 0 ==> header < ADDRESS_LIMIT && header in arena.heap.dicts && arena.heap.dicts[header] == d
    ensures header != 0 ==> header !in old(arena.heap).dicts && header in arena.heap.mem
    ensures header != 0 ==> d.mappings == map[] && d.layout == LayoutOf(elem) && count <= capacity
    ensures header != 0 ==> Filling(old(arena.heap), arena.heap, arena.heap, d.elements, elem, capacity, [])
  {
    hide LayoutOf, RawLayout, Read, Nth, ValidHeap, Within, Filling, Has, Unused;
    ghost var h0 := arena.heap;
    WithinSame(h0);
    d, capacity := FeltDict(map[], LayoutOf(elem), 0), count;
    header := arena.Alloc(DICT_LAYOUT);
    if header == 0 {
      return;
    }
    HeaderIsNew(h0, arena.heap, header);
    PutDictWithin(h0, arena.heap, header, d);
    arena.PutDict(header, d);
    ghost var hA := arena.heap;
    if count > 0 {
      var slack: int := *;
      var reserved := if slack > 0 then count + slack else count;
      capacity := reserved;
      var n := LayoutOf(elem).size * reserved;
      var elements := arena.Alloc(Layout(n, LayoutOf(elem).align));
      if elements == 0 {
        header := 0;
        return;
      }
      WithinTrans(h0, hA, arena.heap);
      d := d.(elements := elements);
      BufferLater(h0, hA, elements, n);
    }
    ghost var hB := arena.heap;
    if count > 0 { WithinMem(hA, hB, header); }
    PutDictWithin(h0, hB, header, d);
    arena.PutDict(header, d);
    if capacity > 0 { PutDictHas(hB, header, d, d.elements, LayoutOf(elem).size * capacity); }
    BufferReady(h0, arena.heap, d.elements, elem, capacity);
  }

  lemma HeaderIsNew(h0: Heap, h: Heap, header: Address)
    requires ValidHeap(h0) && Unused(h0, header, DICT_LAYOUT.size) && Has(h, header, DICT_LAYOUT.size)
    ensures header in h.mem && header !in h0.mem && header !in h0.dicts
  {
  }

  lemma PutDictWithin(h0: Heap, h: Heap, header: Address, d: FeltDict)
    requires Within(h0, h) && header !in h0.dicts
    ensures Within(h0, h.(dicts := h.dicts[header := d]))
  {
  }

  lemma PutDictHas(h: Heap, header: Address, d: FeltDict, p: Address, n: nat)
    requires Has(h, p, n)
    ensures Has(h.(dicts := h.dicts[header := d]), p, n)
  {
  }

  lemma WithinMem(h: Heap, h': Heap, p: Address)
    requires Within(h, h') && p in h.mem
    ensures p in h'.mem
  {
  }

  lemma BufferLater(h0: Heap, hA: Heap, p: Address, n: nat)
    requires Within(h0, hA) && Unused(hA, p, n)
    ensures Unused(h0, p, n)
  {
  }

  /** The header first, then each entry in whatever order the map gives them: written, entered in the
      index, and copied to its place. */
  method DictToPtr(arena: Arena, entries: map<nat, Value>, elem: Ty) returns (r: Result)
    requires forall k :: k in entries ==> Shaped(entries[k], elem)
    requires ValidHeap(arena.heap) && !arena.exhausted
    modifies arena
    ensures arena.exhausted <==> r == Err(OutOfMemory)
    ensures Written(old(arena.heap), arena.heap, DictV(entries), Felt252Dict(elem), r)
    decreases elem, 3
  {
    hide LayoutOf, RawLayout, Within, Beyond, Has, Read, Holds, ValidHeap, Shaped, Filling, Filled, WellTyped, ToLE;
    ghost var h0 := arena.heap;
    DictWellTyped(entries, elem);
    var header, d;
    ghost var capacity;
    header, d, capacity := AllocDict(arena, |entries|, elem);
    if header == 0 {
      return Err(OutOfMemory);
    }
    ghost var h1 := arena.heap;
    ghost var done;
    r, d, done := EntriesToPtr(arena, entries, elem, header, d, h0, h1, capacity);
    if r.Err? {
      return;
    }
    ghost var hC := arena.heap;
    var slot := arena.AllocWith(ADDRESS_LAYOUT, ToLE(header, 8));
    WithinTrans(h0, hC, arena.heap);
    if slot == 0 {
      return Err(OutOfMemory);
    }
    DoneFits(d, entries, done);
    DictHolds(h0, h1, hC, arena.heap, slot, header, d, elem, capacity, entries, done);
    return Ok(slot);
  }

  lemma DictWellTyped(entries: map<nat, Value>, elem: Ty)
    ensures WellTyped(DictV(entries), Felt252Dict(elem)) <==> forall k :: k in entries ==> WellTyped(entries[k], elem)
  {
  }

  lemma DoneFits(d: FeltDict, entries: map<nat, Value>, done: seq<Value>)
    requires Filled(d, entries, {}, done)
    ensures |done| == |entries|
  {
    assert d.mappings.Keys == entries.Keys;
    assert |d.mappings| == |d.mappings.Keys| && |entries| == |entries.Keys|;
  }

  lemma DoneHasRoom(d: FeltDict, entries: map<nat, Value>, todo: set<nat>, done: seq<Value>, k: nat)
    requires Filled(d, entries, todo, done) && k in todo
    ensures |done| < |entries|
  {
    assert |d.mappings| == |d.mappings.Keys| && |entries| == |entries.Keys|;
    assert |d.mappings.Keys + todo| == |d.mappings.Keys| + |todo|;
  }

  lemma ValidHeader(h: Heap, header: Address)
    requires ValidHeap(h) && header in h.dicts
    ensures header in h.mem
  {
  }

  lemma WrittenMeans(h0: Heap, h: Heap, v: Value, ty: Ty, r: Result)
    requires Written(h0, h, v, ty, r)
    ensures Within(h0, h) && ValidHeap(h)
    ensures r.Ok? ==> WellTyped(v, ty) && Holds(h0, h, r.p, v, ty)
    ensures WellTyped(v, ty) ==> r.Ok? || r.error.OutOfMemory?
  {
  }

  method EntriesToPtr(arena: Arena, entries: map<nat, Value>, elem: Ty, header: Address, empty: FeltDict,
                      ghost h0: Heap, ghost h1: Heap, ghost capacity: nat)
    returns (r: Result, d: FeltDict, ghost done: seq<Value>)
    requires forall k :: k in entries ==> Shaped(entries[k], elem)
    requires ValidHeap(arena.heap) && !arena.exhausted && header in arena.heap.dicts &&
             arena.heap.dicts[header] == empty
    requires header in h1.dicts && header !in h0.dicts && empty.mappings == map[] && |entries| <= capacity
    requires Filling(h0, h1, arena.heap, empty.elements, elem, capacity, [])
    modifies arena
    ensures arena.exhausted <==> r == Err(OutOfMemory)
    ensures ValidHeap(arena.heap) && Within(h0, arena.heap)
    ensures r.Ok? ==> header in arena.heap.dicts && arena.heap.dicts[header] == d && d.layout == empty.layout
    ensures r.Ok? ==> Filling(h0, h1, arena.heap, d.elements, elem, capacity, done) && Filled(d, entries, {}, done)
    ensures r.Ok? ==> forall k :: k in entries ==> WellTyped(entries[k], elem)
    ensures (forall k :: k in entries ==> WellTyped(entries[k], elem)) ==> r.Ok? || r.error.OutOfMemory?
    decreases elem, 2
  {
    hide *;
    d, done := empty, [];
    NothingStored(h0, h1, arena.heap, header, d, entries, elem, capacity);
    var todo := entries.Keys;
    while todo != {}
      invariant !arena.exhausted && ValidHeap(arena.heap) && d.layout == empty.layout && todo <= entries.Keys
      invariant Stored(h0, h1, arena.heap, header, d, entries, todo, done, elem, capacity)
      invariant forall k :: k in entries && k !in todo ==> WellTyped(entries[k], elem)
      decreases |todo|
    {
      var k :| k in todo;
      ghost var hA := arena.heap;
      r := ToPtr(arena, entries[k], elem);
      ghost var hB := arena.heap;
      WrittenMeans(hA, hB, entries[k], elem, r);
      if r.Err? {
        StoredWithin(h0, h1, hA, header, d, entries, todo, done, elem, capacity);
        WithinTrans(h0, hA, hB);
        return;
      }
      var n, index := LayoutOf(elem).size, |d.mappings|;
      EntryStored(h0, h1, hA, hB, header, d, entries, todo, done, k, r.p, elem, capacity);
      arena.Copy(r.p, Nth(d.elements, n, index), n);
      ValidHeader(arena.heap, header);
      done := done + [entries[k]];
      d := d.(mappings := d.mappings[k := index]);
      arena.PutDict(header, d);
      todo := todo - {k};
    }
    StoredWithin(h0, h1, arena.heap, header, d, entries, todo, done, elem, capacity);
    r := Ok(0);
  }

  ghost predicate Stored(h0: Heap, h1: Heap, h: Heap, header: Address, d: FeltDict, entries: map<nat, Value>,
                         todo: set<nat>, done: seq<Value>, elem: Ty, capacity: nat) {
    && header in h.dicts && h.dicts[header] == d
    && Filling(h0, h1, h, d.elements, elem, capacity, done) && Filled(d, entries, todo, done)
  }

  lemma NothingStored(h0: Heap, h1: Heap, h: Heap, header: Address, d: FeltDict, entries: map<nat, Value>, elem: Ty,
                      capacity: nat)
    requires header in h.dicts && h.dicts[header] == d && d.mappings == map[]
    requires Filling(h0, h1, h, d.elements, elem, capacity, [])
    ensures Stored(h0, h1, h, header, d, entries, entries.Keys, [], elem, capacity)
  {
    hide Filling, Filled;
    NothingFilled(d, entries);
  }

  lemma StoredWithin(h0: Heap, h1: Heap, h: Heap, header: Address, d: FeltDict, entries: map<nat, Value>,
                     todo: set<nat>, done: seq<Value>, elem: Ty, capacity: nat)
    requires Stored(h0, h1, h, header, d, entries, todo, done, elem, capacity)
    ensures header in h.dicts && h.dicts[header] == d && Within(h0, h)
    ensures Filling(h0, h1, h, d.elements, elem, capacity, done) && Filled(d, entries, todo, done)
  {
    hide Filling, Filled, Within;
    FillingWithin(h0, h1, h, d.elements, elem, capacity, done);
  }

  /** One entry more: copied to its place, and entered in the index. */
  lemma EntryStored(h0: Heap, h1: Heap, hA: Heap, hB: Heap, header: Address, d: FeltDict, entries: map<nat, Value>,
                    todo: set<nat>, done: seq<Value>, k: nat, p: Address, elem: Ty, capacity: nat)
    requires Stored(h0, h1, hA, header, d, entries, todo, done, elem, capacity)
    requires k in todo && k in entries && |entries| <= capacity && header in h1.dicts && header !in h0.dicts
    requires Within(hA, hB) && Holds(hA, hB, p, entries[k], elem)
    ensures Has(hB, p, LayoutOf(elem).size)
    ensures var n := LayoutOf(elem).size;
            var hC := Write(hB, Nth(d.elements, n, |d.mappings|), Read(hB, p, n));
            var next := d.(mappings := d.mappings[k := |d.mappings|]);
            var hD := hC.(dicts := hC.dicts[header := next]);
            && header in hC.dicts
            && Stored(h0, h1, hD, header, next, entries, todo - {k}, done + [entries[k]], elem, capacity)
  {
    hide LayoutOf, RawLayout, Within, Has, Read, Holds, Filling, Filled, Write, Nth;
    DoneHasRoom(d, entries, todo, done, k);
    IndexIsNext(d, entries, todo, done);
    WrittenHas(hA, hB, p, entries[k], elem);
    FillStep(h0, h1, hA, hB, d.elements, elem, capacity, done, p, entries[k]);
    WithinDict(hA, hB, header);
    var n := LayoutOf(elem).size;
    var hC := Write(hB, Nth(d.elements, n, |done|), Read(hB, p, n));
    WriteKeepsDicts(hB, Nth(d.elements, n, |done|), Read(hB, p, n));
    FilledNext(d, entries, todo, done, k);
    var next := d.(mappings := d.mappings[k := |d.mappings|]);
    FillingPutDict(h0, h1, hC, d.elements, elem, capacity, done + [entries[k]], header, next);
  }

  lemma NothingFilled(d: FeltDict, entries: map<nat, Value>)
    requires d.mappings == map[]
    ensures Filled(d, entries, entries.Keys, [])
  {
  }

  lemma IndexIsNext(d: FeltDict, entries: map<nat, Value>, todo: set<nat>, done: seq<Value>)
    requires Filled(d, entries, todo, done)
    ensures |d.mappings| == |done|
  {
  }

  lemma WriteKeepsDicts(h: Heap, p: Address, bytes: seq<Byte>)
    ensures Write(h, p, bytes).dicts == h.dicts
  {
  }

  // ----- any value -----

  lemma {:induction false} ScalarSlotScalar(v: Value, ty: Ty)
    requires ScalarSlot(ty) && WellTyped(v, ty)
    ensures IsScalar(v)
    decreases ty
  {
    match ty {
      case Snapshot(inner) => ScalarSlotScalar(v, inner);
      case NonZero(inner) => ScalarSlotScalar(v, inner);
      case _ =>
    }
  }

  /** Values that are not scalars belong to a type as they belong to what it resolves to. */
  lemma ResolvedTyped(v: Value, ty: Ty)
    requires !Resolve(ty).Snapshot? && !Resolve(ty).NonZero?
    ensures WellTyped(v, ty) <==> WellTyped(v, Resolve(ty))
  {
  }

  lemma ResolvedHolds(h0: Heap, h: Heap, p: Address, v: Value, ty: Ty)
    requires Holds(h0, h, p, v, Resolve(ty))
    ensures Holds(h0, h, p, v, ty)
  {
    hide LayoutOf, RawLayout, Beyond, Has, Read;
    if ty.Snapshot? {
      SameLayout(ty.inner);
      assert Decode(AsCompiled, Beyond(h, h0), Read(Beyond(h, h0), p, LayoutOf(ty).size), ty) == Some(v);
    }
  }

  lemma ResolvedWritten(h0: Heap, h: Heap, v: Value, ty: Ty, r: Result)
    requires !Resolve(ty).Snapshot? && !Resolve(ty).NonZero? && Written(h0, h, v, Resolve(ty), r)
    ensures Written(h0, h, v, ty, r)
  {
    hide Within, ValidHeap, Holds, WellTyped, Resolve;
    ResolvedTyped(v, ty);
    if r.Ok? {
      ResolvedHolds(h0, h, r.p, v, ty);
    }
  }

  /** Values that are neither scalars nor of the kind the resolved type is of belong nowhere. */
  lemma Mismatch(v: Value, ty: Ty)
    requires !IsScalar(v) && !Resolve(ty).Box? && !Resolve(ty).Nullable?
    requires v.BoundedV? ==> !Resolve(ty).BoundedInt?
    requires v.ArrayV? ==> !Resolve(ty).Array?
    requires v.StructV? ==> !Resolve(ty).Struct?
    requires v.EnumV? ==> !Resolve(ty).Enum?
    requires v.DictV? ==> !Resolve(ty).Felt252Dict?
    requires v.IntRangeV? ==> !Resolve(ty).IntRange?
    ensures !WellTyped(v, ty)
  {
    if WellTyped(v, ty) {
      if ty.NonZero? {
        ScalarSlotScalar(v, ty.inner);
      } else if ty.Snapshot? && (ty.inner.Snapshot? || ty.inner.NonZero?) {
        ScalarSlotScalar(v, ty.inner);
      }
    }
  }

  lemma NothingWritten(h: Heap, v: Value, ty: Ty, e: Error)
    requires ValidHeap(h) && !WellTyped(v, ty)
    ensures Written(h, h, v, ty, Err(e))
  {
  }

  /** Writes a value for a type: with room enough, exactly the values of the type are written, and
      what was written reads back as the value however much is written afterwards. */
  method ToPtr(arena: Arena, v: Value, ty: Ty) returns (r: Result)
    requires Shaped(v, ty)
    requires ValidHeap(arena.heap) && !arena.exhausted
    modifies arena
    ensures arena.exhausted <==> r == Err(OutOfMemory)
    ensures Written(old(arena.heap), arena.heap, v, ty, r)
    ensures r.Ok? && v.ArrayV? && Resolve(ty).Array? ==>
      Headed(old(arena.heap), arena.heap, r.p, |v.items|, Resolve(ty).elem)
    decreases ty, 1
  {
    hide LayoutOf, RawLayout, Written, WellTyped, ValidHeap, Headed;
    ghost var h0 := arena.heap;
    var t := Resolve(ty);
    if t.Nullable? && v.Null? {
      r := NullToPtr(arena, t);
      ResolvedWritten(h0, arena.heap, v, ty, r);
    } else if t.Box? || t.Nullable? {
      r := BoxToPtr(arena, v, t);
      ResolvedWritten(h0, arena.heap, v, ty, r);
    } else if IsScalar(v) {
      r := ScalarToPtr(arena, v, ty);
    } else {
      r := WholeToPtr(arena, v, ty, t);
    }
  }

  /** Values that are not scalars, by what they are. */
  method WholeToPtr(arena: Arena, v: Value, ty: Ty, t: Ty) returns (r: Result)
    requires t == Resolve(ty) && !t.Box? && !t.Nullable? && !IsScalar(v) && Shaped(v, ty)
    requires ValidHeap(arena.heap) && !arena.exhausted
    modifies arena
    ensures arena.exhausted <==> r == Err(OutOfMemory)
    ensures Written(old(arena.heap), arena.heap, v, ty, r)
    ensures r.Ok? && v.ArrayV? && Resolve(ty).Array? ==>
      Headed(old(arena.heap), arena.heap, r.p, |v.items|, Resolve(ty).elem)
    decreases ty, 0
  {
    hide LayoutOf, RawLayout, Written, WellTyped, ValidHeap, Headed;
    ghost var h0 := arena.heap;
    match v {
      case BoundedV(felt, lower, upper) =>
        r := BoundedToPtr(arena, felt, lower, upper, t);
        if !t.BoundedInt? {
          Mismatch(v, ty);
          NothingWritten(h0, v, ty, r.error);
          return;
        }
      case ArrayV(items) =>
        if !t.Array? {
          Mismatch(v, ty);
          NothingWritten(h0, v, ty, UnexpectedValue);
          return Err(UnexpectedValue);
        }
        r := ArrayToPtr(arena, items, t.elem);
      case StructV(fields) =>
        if !t.Struct? {
          Mismatch(v, ty);
          NothingWritten(h0, v, ty, UnexpectedValue);
          return Err(UnexpectedValue);
        }
        r := StructToPtr(arena, fields, t.members);
      case EnumV(tag, payload) =>
        if !t.Enum? {
          Mismatch(v, ty);
          NothingWritten(h0, v, ty, UnexpectedValue);
          return Err(UnexpectedValue);
        }
        r := EnumToPtr(arena, tag, payload, t.variants);
      case DictV(entries) =>
        if !t.Felt252Dict? {
          Mismatch(v, ty);
          NothingWritten(h0, v, ty, UnexpectedValue);
          return Err(UnexpectedValue);
        }
        r := DictToPtr(arena, entries, t.elem);
      case IntRangeV(x, y) =>
        if !t.IntRange? {
          Mismatch(v, ty);
          NothingWritten(h0, v, ty, NativePanic);
          return Err(NativePanic);
        }
        r := IntRangeToPtr(arena, x, y, t.inner);
      case Null =>
        Mismatch(v, ty);
        NothingWritten(h0, v, ty, NativePanic);
        return Err(NativePanic);
    }
    ResolvedWritten(h0, arena.heap, v, ty, r);
  }

  /** The round trip: a value that was written reads back as itself, in every heap that grew since, be it by
      the runtime's reader or by compiled code. */
  lemma ReadsBack(h0: Heap, h: Heap, later: Heap, p: Address, v: Value, ty: Ty)
    requires Written(h0, h, v, ty, Ok(p)) && Within(h, later)
    ensures forall view :: FromPtr(view, later, p, ty) == Some(v)
  {
    hide LayoutOf, RawLayout, FromPtr, Beyond, Within, WellTyped;
    BeyondWithin(h, h0);
    WithinTrans(Beyond(h, h0), h, later);
    FromPtrStable(AsCompiled, Beyond(h, h0), later, p, ty);
    ReaderReads(later, p, ty);
    forall view ensures FromPtr(view, later, p, ty) == Some(v) {
      assert view == AsReader || view == AsCompiled;
    }
  }

}
