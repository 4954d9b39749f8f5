/** Composite arguments: flattened into scalars and pointers, and understood again by their type. */
module Arguments {
  import opened Options
  import opened Bytes
  import opened Layouts
  import opened Memory
  import opened Values
  import opened Scalars
  import opened Marshal
  import opened Abi
  import Arrays

  function Word(p: nat): Scalar {
    Int(W64, p)
  }

  /** The scalars that are passed as they are. */
  function Plain(v: Value): Scalar
    requires IsScalar(v)
  {
    match v
    case FeltV(felt) => Field(felt)
    case UintV(w, uint) => Int(w, uint)
    case SintV(w, sint) => Signed(w, sint)
    case Bytes31V(bytes) => Bytes(bytes)
  }

  function PlainValue(s: Scalar): Option<Value> {
    match s
    case Field(felt) => Some(FeltV(felt))
    case Int(w, uint) => Some(UintV(w, uint))
    case Signed(w, sint) => Some(SintV(w, sint))
    case Bytes(bytes) => Some(Bytes31V(bytes))
    case Bool(_) => None
  }

  predicate PlainTy(ty: Ty) {
    ty.Felt252? || ty.Uint? || ty.Sint? || ty.Bytes31?
  }

  /** Passed as a pointer: to what is inside, to a dictionary, or to the value itself. */
  predicate PointedTy(ty: Ty) {
    ty.Box? || ty.Nullable? || ty.Felt252Dict? || IsMemoryAllocated(ty)
  }

  /** The values that can be arguments of a type. Snapshots and non-zero wrappers do not matter, however
      deep; bounded integers and ranges are not supported. */
  ghost predicate Passable(v: Value, ty: Ty)
    decreases ty
  {
    match ty
    case Snapshot(inner) => Passable(v, inner)
    case NonZero(inner) => Passable(v, inner)
    case Struct(members) =>
      if IsMemoryAllocated(ty) then WellTyped(v, ty)
      else v.StructV? && |v.fields| == |members| && forall i :: 0 <= i < |members| ==> Passable(v.fields[i], members[i])
    case Enum(variants) =>
      if IsMemoryAllocated(ty) then WellTyped(v, ty)
      else v.EnumV? && v.tag < |variants| && Passable(v.payload, variants[v.tag])
    case BoundedInt(_, _) => false
    case IntRange(_) => false
    case _ => WellTyped(v, ty)
  }

  /** What the writer takes for granted about an argument. */
  ghost predicate ShapedArg(v: Value, ty: Ty)
    decreases ty
  {
    match ty
    case Snapshot(inner) => ShapedArg(v, inner)
    case NonZero(inner) => ShapedArg(v, inner)
    case Struct(members) =>
      if IsMemoryAllocated(ty) then Shaped(v, ty)
      else v.StructV? ==> |v.fields| == |members| && forall i :: 0 <= i < |members| ==>
          ShapedArg(v.fields[i], members[i])
    case Enum(variants) =>
      if IsMemoryAllocated(ty) then Shaped(v, ty)
      else v.EnumV? && v.tag < |variants| ==> ShapedArg(v.payload, variants[v.tag])
    case Felt252 => v.FeltV? ==> WellTyped(v, ty)
    case Uint(w) => v.UintV? && v.width == w ==> WellTyped(v, ty)
    case Sint(w) => v.SintV? && v.width == w ==> WellTyped(v, ty)
    case Bytes31 => v.Bytes31V? ==> WellTyped(v, ty)
    case _ => Shaped(v, ty)
  }

  // ----- understanding scalars -----

  /** The value of a type that scalars begin with, and the scalars after it. */
  ghost function Understood(h: Heap, ss: seq<Scalar>, ty: Ty): Option<(Value, seq<Scalar>)>
    decreases ty, 0, 0
  {
    match ty
    case Snapshot(inner) => Understood(h, ss, inner)
    case NonZero(inner) => Understood(h, ss, inner)
    case Array(elem) =>
      if |ss| < 4 || !ss[0].Int? || !ss[1].Int? || !ss[2].Int? || !ss[3].Int? then None
      else With(ArrayFrom(AsCompiled, h, ss[0].uint, ss[1].uint, ss[2].uint, ss[3].uint, elem), ss[4..])
    case Struct(members) =>
      if IsMemoryAllocated(ty) then Pointed(h, ss, ty)
      else
        var fields := UnderstoodFields(h, ss, members, |members|);
        if fields.Some? then Some((StructV(fields.value.0), fields.value.1)) else None
    case Enum(variants) =>
      if IsMemoryAllocated(ty) then Pointed(h, ss, ty)
      else if |variants| != 1 then None
      else
        var payload := Understood(h, ss, variants[0]);
        if payload.Some? then Some((EnumV(0, payload.value.0), payload.value.1)) else None
    case _ =>
      if PlainTy(ty) then if ss == [] then None else With(PlainValue(ss[0]), ss[1..])
      else if PointedTy(ty) then Pointed(h, ss, ty)
      else None
  }

  function With(v: Option<Value>, rest: seq<Scalar>): Option<(Value, seq<Scalar>)> {
    if v.Some? then Some((v.value, rest)) else None
  }

  ghost function Pointed(h: Heap, ss: seq<Scalar>, ty: Ty): Option<(Value, seq<Scalar>)> {
    if ss == [] || !ss[0].Int? then None
    else With(Target(h, ss[0].uint, ty), ss[1..])
  }

  ghost function Target(h: Heap, p: Address, ty: Ty): Option<Value> {
    match ty
    case Box(inner) => if p == 0 then None else FromPtr(AsCompiled, h, p, inner)
    case Nullable(inner) => if p == 0 then Some(Null) else FromPtr(AsCompiled, h, p, inner)
    case Felt252Dict(elem) => if p in h.dicts then DecodeDict(AsCompiled, h, h.dicts[p], elem) else None
    case _ => FromPtr(AsCompiled, h, p, ty)
  }

  ghost function UnderstoodFields(h: Heap, ss: seq<Scalar>, members: seq<Ty>,
                                  k: nat): (r: Option<(seq<Value>, seq<Scalar>)>)
    requires k <= |members|
    ensures r.Some? ==> |r.value.0| == k
    decreases members, 0, k
  {
    if k == 0 then Some(([], ss))
    else
      var init := UnderstoodFields(h, ss, members, k - 1);
      if init.None? then None
      else
        var last := Understood(h, init.value.1, members[k - 1]);
        if last.Some? then Some((init.value.0 + [last.value.0], last.value.1)) else None
  }

  /** The kinds of the scalars that a value of a type is passed as: the type alone decides. */
  ghost function FlatKinds(ty: Ty): seq<Kind>
    decreases ty, 0, 0
  {
    match ty
    case Snapshot(inner) => FlatKinds(inner)
    case NonZero(inner) => FlatKinds(inner)
    case Array(_) => [UintK(W64), UintK(W32), UintK(W32), UintK(W32)]
    case Struct(members) => if IsMemoryAllocated(ty) then [UintK(W64)] else FieldKinds(members, |members|)
    case Enum(variants) =>
      if IsMemoryAllocated(ty) then [UintK(W64)] else if |variants| == 1 then FlatKinds(variants[0]) else []
    case Felt252 => [FeltK]
    case Uint(w) => [UintK(w)]
    case Sint(w) => [SintK(w)]
    case Bytes31 => [Bytes31K]
    case _ => if PointedTy(ty) then [UintK(W64)] else []
  }

  ghost function FieldKinds(members: seq<Ty>, k: nat): seq<Kind>
    requires k <= |members|
    decreases members, 0, k
  {
    if k == 0 then [] else FieldKinds(members, k - 1) + FlatKinds(members[k - 1])
  }

  lemma LastKinds(members: seq<Ty>, k: nat)
    requires k < |members|
    ensures FieldKinds(members, k + 1) == FieldKinds(members, k) + FlatKinds(members[k]) && FieldKinds(members, 0) == []
  {
    hide FlatKinds;
  }

  lemma {:induction false} KindsInOrder(first: Ty, rest: seq<Ty>, k: nat)
    requires k <= |rest|
    ensures FieldKinds([first] + rest, k + 1) == FlatKinds(first) + FieldKinds(rest, k)
  {
    hide FlatKinds, FieldKinds;
    var members := [first] + rest;
    LastKinds(members, k);
    LastKinds(members, 0);
    if k == 0 {
      NoKinds(rest);
      assert [] + FlatKinds(first) == FlatKinds(first) + [];
    } else {
      KindsInOrder(first, rest, k - 1);
      LastKinds(rest, k - 1);
      assert members[k] == rest[k - 1];
      assert FlatKinds(first) + FieldKinds(rest, k - 1) + FlatKinds(rest[k - 1])
          == FlatKinds(first) + (FieldKinds(rest, k - 1) + FlatKinds(rest[k - 1]));
    }
  }

  lemma NoKinds(members: seq<Ty>)
    ensures FieldKinds(members, 0) == []
  {
  }

  /** Members are understood one after the other, each from where the one before it ends. */
  lemma {:induction false} FieldsInOrder(h: Heap, ss: seq<Scalar>, first: Ty, rest: seq<Ty>, k: nat)
    requires k <= |rest|
    ensures var a := Understood(h, ss, first);
            if a.None? then UnderstoodFields(h, ss, [first] + rest, k + 1) == None
            else
              var b := UnderstoodFields(h, a.value.1, rest, k);
              UnderstoodFields(h, ss, [first] + rest, k + 1) ==
              if b.None? then None else Some(([a.value.0] + b.value.0, b.value.1))
    decreases k
  {
    hide Understood;
    var members := [first] + rest;
    if k == 0 {
      assert UnderstoodFields(h, ss, members, 0) == Some(([], ss)) && members[0] == first;
      if Understood(h, ss, first).Some? {
        assert [] + [Understood(h, ss, first).value.0] == [Understood(h, ss, first).value.0] + [];
      }
    } else {
      FieldsInOrder(h, ss, first, rest, k - 1);
      assert members[k] == rest[k - 1];
      LastField(h, ss, members, k);
      var a := Understood(h, ss, first);
      if a.Some? {
        LastField(h, a.value.1, rest, k - 1);
        hide UnderstoodFields;
        var b := UnderstoodFields(h, a.value.1, rest, k - 1);
        if b.Some? && Understood(h, b.value.1, rest[k - 1]).Some? {
          var last := Understood(h, b.value.1, rest[k - 1]).value.0;
          assert [a.value.0] + b.value.0 + [last] == [a.value.0] + (b.value.0 + [last]);
        }
      }
    }
  }

  lemma LastField(h: Heap, ss: seq<Scalar>, members: seq<Ty>, k: nat)
    requires k < |members|
    ensures var init := UnderstoodFields(h, ss, members, k);
            UnderstoodFields(h, ss, members, k + 1) ==
            if init.None? then None
            else
              var last := Understood(h, init.value.1, members[k]);
              if last.None? then None else Some((init.value.0 + [last.value.0], last.value.1))
  {
    hide Understood;
  }

  /** What the scalars of a struct's members, or of its only variant, say of the whole. */
  lemma WholeUnderstood(h: Heap, ss: seq<Scalar>, members: seq<Ty>, only: Ty)
    ensures !IsMemoryAllocated(Struct(members)) ==>
      && FlatKinds(Struct(members)) == FieldKinds(members, |members|)
      && var fields := UnderstoodFields(h, ss, members, |members|);
         Understood(h, ss, Struct(members)) ==
         if fields.None? then None else Some((StructV(fields.value.0), fields.value.1))
    ensures !IsMemoryAllocated(Enum([only])) ==>
      && FlatKinds(Enum([only])) == FlatKinds(only)
      && var payload := Understood(h, ss, only);
         Understood(h, ss, Enum([only])) ==
         if payload.None? then None else Some((EnumV(0, payload.value.0), payload.value.1))
    ensures IsMemoryAllocated(Struct(members)) ==>
      FlatKinds(Struct(members)) == [UintK(W64)] &&
      forall p: nat, more :: Understood(h, [Int(W64, p)] + more, Struct(members)) ==
        var v := FromPtr(AsCompiled, h, p, Struct(members)); if v.None? then None else Some((v.value, more))
  {
    hide IsMemoryAllocated, FromPtr, UnderstoodFields;
    forall p: nat, more: seq<Scalar>
      ensures ([Int(W64, p)] + more)[0] == Int(W64, p) && ([Int(W64, p)] + more)[1..] == more
    {
    }
  }

  // ----- later allocations -----

  lemma UnderstoodStable(h: Heap, h': Heap, ss: seq<Scalar>, ty: Ty)
    requires Within(h, h') && Understood(h, ss, ty).Some?
    ensures Understood(h', ss, ty) == Understood(h, ss, ty)
    decreases ty, 0, 0
  {
    hide Within, Pointed, UnderstoodFields, ArrayFrom, PointedTy, PlainTy, IsMemoryAllocated, FromPtr, DecodeItems,
         DecodeDict;
    match ty {
      case Snapshot(inner) => UnderstoodStable(h, h', ss, inner);
      case NonZero(inner) => UnderstoodStable(h, h', ss, inner);
      case Array(elem) => 
        ArrayFromStable(AsCompiled, h, h', ss[0].uint, ss[1].uint, ss[2].uint, ss[3].uint, elem);
      case Struct(members) =>
        if IsMemoryAllocated(ty) {
          PointedStable(h, h', ss, ty);
        } else {
          UnderstoodFieldsStable(h, h', ss, members, |members|);
        }
      case Enum(variants) =>
        if IsMemoryAllocated(ty) { PointedStable(h, h', ss, ty); } else { UnderstoodStable(h, h', ss, variants[0]); }
      case _ =>
        if !PlainTy(ty) { PointedStable(h, h', ss, ty); }
    }
  }

  lemma PointedStable(h: Heap, h': Heap, ss: seq<Scalar>, ty: Ty)
    requires Within(h, h') && Pointed(h, ss, ty).Some?
    ensures Pointed(h', ss, ty) == Pointed(h, ss, ty)
  {
    hide Within, FromPtr, DecodeDict;
    var p := ss[0].uint;
    match ty {
      case Box(inner) => FromPtrStable(AsCompiled, h, h', p, inner);
      case Nullable(inner) => if p != 0 { FromPtrStable(AsCompiled, h, h', p, inner); }
      case Felt252Dict(elem) =>
        WithinDict(h, h', p);
        DictStable(AsCompiled, h, h', h.dicts[p], elem);
      case _ => FromPtrStable(AsCompiled, h, h', p, ty);
    }
  }

  lemma UnderstoodFieldsStable(h: Heap, h': Heap, ss: seq<Scalar>, members: seq<Ty>, k: nat)
    requires k <= |members| && Within(h, h') && UnderstoodFields(h, ss, members, k).Some?
    ensures UnderstoodFields(h', ss, members, k) == UnderstoodFields(h, ss, members, k)
    decreases members, 0, k
  {
    hide Within, Understood;
    if k > 0 {
      UnderstoodFieldsStable(h, h', ss, members, k - 1);
      UnderstoodStable(h, h', UnderstoodFields(h, ss, members, k - 1).value.1, members[k - 1]);
    }
  }

  // ----- flattening -----

  /** Scalars of the type's kinds that stand for a value, whatever follows them. */
  ghost predicate StandFor(h: Heap, ss: seq<Scalar>, v: Value, ty: Ty) {
    && Kinds(ss) == FlatKinds(ty)
    && (forall s :: s in ss ==> Valid(s))
    && forall rest: seq<Scalar> :: Understood(h, ss + rest, ty) == Some((v, rest))
  }

  /** The outcome of passing a value. */
  ghost predicate Passed(h0: Heap, h: Heap, v: Value, ty: Ty, ss: seq<Scalar>, error: Option<Error>) {
    && Within(h0, h) && ValidHeap(h)
    && (error.None? ==> Passable(v, ty) && StandFor(h, ss, v, ty))
    && (Passable(v, ty) ==> error.None? || error == Some(OutOfMemory))
  }

  /** The pointer that is passed for a value that was written. */
  ghost predicate PassedPointer(h: Heap, p: Address, ty: Ty, q: nat) {
    if ty.Box? || ty.Nullable? || ty.Felt252Dict? then Has(h, p, 8) && q == FromLE(Read(h, p, 8)) else q == p
  }

  lemma PointerFound(h0: Heap, h: Heap, p: Address, v: Value, ty: Ty)
    requires Written(h0, h, v, ty, Ok(p))
    ensures FromPtr(AsCompiled, h, p, ty) == Some(v) && p < ADDRESS_LIMIT
    ensures Has(h, p, LayoutOf(ty).size)
  {
    hide FromPtr, LayoutOf, RawLayout, Within;
    WithinSame(h);
    ReadsBack(h0, h, h, p, v, ty);
    FoundHas(h, p, ty);
  }

  lemma FoundHas(h: Heap, p: Address, ty: Ty)
    requires FromPtr(AsCompiled, h, p, ty).Some?
    ensures Has(h, p, LayoutOf(ty).size)
  {
    hide LayoutOf, RawLayout, Decode;
  }

  lemma TargetFound(h: Heap, p: Address, v: Value, ty: Ty, q: nat)
    requires FromPtr(AsCompiled, h, p, ty) == Some(v) && PassedPointer(h, p, ty, q) && p < ADDRESS_LIMIT
    ensures Target(h, q, ty) == Some(v) && q < Pow2(64)
  {
    hide LayoutOf, RawLayout, Pow2, FromLE, DecodeDict;
    if ty.Box? || ty.Nullable? || ty.Felt252Dict? {
      PointerSize(ty);
      FromLEBound(Read(h, p, 8));
      assert Decode(AsCompiled, h, Read(h, p, 8), ty) == Some(v);
    } else {
      Pow2Values();
    }
  }

  lemma PointerStands(h: Heap, p: Address, v: Value, ty: Ty, q: nat)
    requires FromPtr(AsCompiled, h, p, ty) == Some(v) && PassedPointer(h, p, ty, q) && p < ADDRESS_LIMIT
    requires ty.Box? || ty.Nullable? || ty.Felt252Dict? || ((ty.Struct? || ty.Enum?) && IsMemoryAllocated(ty))
    ensures StandFor(h, [Word(q)], v, ty)
  {
    hide Target, FromPtr, Pow2, PassedPointer, Understood, FlatKinds, Valid, IsMemoryAllocated;
    TargetFound(h, p, v, ty, q);
    OneWord(q, ty);
    forall rest: seq<Scalar> ensures Understood(h, [Word(q)] + rest, ty) == Some((v, rest)) {
      WordUnderstood(h, q, v, ty, rest);
    }
  }

  lemma OneWord(q: nat, ty: Ty)
    requires ty.Box? || ty.Nullable? || ty.Felt252Dict? || ((ty.Struct? || ty.Enum?) && IsMemoryAllocated(ty))
    requires q < Pow2(64)
    ensures Valid(Word(q)) && Kinds([Word(q)]) == FlatKinds(ty)
  {
    hide Pow2, IsMemoryAllocated;
    assert Kinds([Word(q)]) == [UintK(W64)] == FlatKinds(ty);
  }

  lemma WordUnderstood(h: Heap, q: nat, v: Value, ty: Ty, rest: seq<Scalar>)
    requires ty.Box? || ty.Nullable? || ty.Felt252Dict? || ((ty.Struct? || ty.Enum?) && IsMemoryAllocated(ty))
    requires Target(h, q, ty) == Some(v)
    ensures Understood(h, [Word(q)] + rest, ty) == Some((v, rest))
  {
    hide Target, FromPtr, IsMemoryAllocated;
    FirstAndRest(Word(q), rest);
    assert Pointed(h, [Word(q)] + rest, ty) == Some((v, rest));
  }

  lemma FirstAndRest(s: Scalar, rest: seq<Scalar>)
    ensures ([s] + rest)[0] == s && ([s] + rest)[1..] == rest
  {
  }

  lemma PlainStands(h: Heap, v: Value, ty: Ty)
    requires PlainTy(ty) && WellTyped(v, ty)
    ensures IsScalar(v) && StandFor(h, [Plain(v)], v, ty)
  {
    assert Valid(Plain(v));
    assert Kinds([Plain(v)]) == [KindOf(Plain(v))] == FlatKinds(ty);
    forall rest: seq<Scalar> ensures Understood(h, [Plain(v)] + rest, ty) == Some((v, rest)) {
      FirstAndRest(Plain(v), rest);
    }
  }

  /** A value passed by pointer: written, and its pointer, or the pointer in its slot, is pushed. */
  method PointerToBytes(arena: Arena, buffer: Buffer, v: Value, ty: Ty)
    returns (error: Option<Error>, ghost ss: seq<Scalar>)
    requires ty.Box? || ty.Nullable? || ty.Felt252Dict? || ((ty.Struct? || ty.Enum?) && IsMemoryAllocated(ty))
    requires Shaped(v, ty) && ValidHeap(arena.heap) && !arena.exhausted
    modifies arena, buffer
    ensures Passed(old(arena.heap), arena.heap, v, ty, ss, error)
    ensures error.None? ==> buffer.bytes == Extended(buffer.arch, old(buffer.bytes), ss)
    ensures arena.exhausted <==> error == Some(OutOfMemory)
  {
    hide LayoutOf, RawLayout, Within, ValidHeap, StandFor, WellTyped, IsMemoryAllocated, Read, Has, FromPtr, Appended,
         Shaped, Holds;
    ghost var h0 := arena.heap;
    ss := [];
    PassableIsTyped(v, ty);
    var r := ToPtr(arena, v, ty);
    if r.Err? {
      return Some(r.error), [];
    }
    PointerFound(h0, arena.heap, r.p, v, ty);
    var q := r.p;
    if ty.Box? || ty.Nullable? || ty.Felt252Dict? {
      PointerSize(ty);
      q := FromLE(Read(arena.heap, r.p, 8));
    }
    PointerStands(arena.heap, r.p, v, ty, q);
    PushedOne(buffer, Word(q));
    buffer.Push(Word(q));
    return None, [Word(q)];
  }

  lemma PassableIsTyped(v: Value, ty: Ty)
    requires ty.Box? || ty.Nullable? || ty.Felt252Dict? || ty.Array? || PlainTy(ty) ||
             ((ty.Struct? || ty.Enum?) && IsMemoryAllocated(ty))
    ensures Passable(v, ty) <==> WellTyped(v, ty)
  {
    hide IsMemoryAllocated;
  }

  lemma PushedOne(buffer: Buffer, s: Scalar)
    ensures Extended(buffer.arch, buffer.bytes, [s]) == Appended(buffer.arch, buffer.bytes, s)
  {
    hide Appended;
    assert [s][..0] == [];
  }

  lemma ArrayStands(h: Heap, p: Address, v: Value, elem: Ty)
    requires FromPtr(AsCompiled, h, p, Array(elem)) == Some(v)
    ensures Has(h, p, 24)
    ensures var bytes := Read(h, p, 24);
            StandFor(h, [Word(FromLE(bytes[..8])), Int(W32, FromLE(bytes[8..12])), Int(W32, FromLE(bytes[12..16])),
                         Int(W32, FromLE(bytes[16..20]))], v, Array(elem))
  {
    hide LayoutOf, RawLayout, Pow2, FromLE, DecodeItems, Read, Has;
    ArraySize(elem);
    var bytes := Read(h, p, 24);
    assert Decode(AsCompiled, h, bytes, Array(elem)) == Some(v);
    assert DecodeArray(AsCompiled, h, bytes, elem) == Some(v);
    FromLEBound(bytes[..8]);
    FromLEBound(bytes[8..12]);
    FromLEBound(bytes[12..16]);
    FromLEBound(bytes[16..20]);
    var ss := [Word(FromLE(bytes[..8])), Int(W32, FromLE(bytes[8..12])), Int(W32, FromLE(bytes[12..16])),
               Int(W32, FromLE(bytes[16..20]))];
    assert Kinds(ss) == FlatKinds(Array(elem));
    forall rest: seq<Scalar> ensures Understood(h, ss + rest, Array(elem)) == Some((v, rest)) {
      assert (ss + rest)[4..] == rest;
    }
  }

  /** The four scalars of a new array: its buffer, which has just been allocated, where it begins and ends, and
      its capacity, which is the room that the buffer has. */
  ghost predicate PassedArray(h0: Heap, h: Heap, ss: seq<Scalar>, n: nat, elem: Ty) {
    && |ss| == 4 && ss[0].Int? && ss[0].width == W64
    && ss[1] == Int(W32, 0) && ss[2] == Int(W32, n) && ss[3] == Int(W32, n)
    && (ss[0].uint == 0 <==> n == 0)
    && Has(h, ss[0].uint, LayoutOf(elem).size * n) && Unused(h0, ss[0].uint, LayoutOf(elem).size * n)
  }

  lemma HeaderPassed(h0: Heap, h: Heap, p: Address, v: Value, elem: Ty)
    requires v.ArrayV? && Headed(h0, h, p, |v.items|, elem)
    ensures Has(h, p, 24)
    ensures var bytes := Read(h, p, 24);
            PassedArray(h0, h, [Word(FromLE(bytes[..8])), Int(W32, FromLE(bytes[8..12])),
                                Int(W32, FromLE(bytes[12..16])), Int(W32, FromLE(bytes[16..20]))], |v.items|, elem)
  {
    hide LayoutOf, RawLayout, FromLE, Read, Has, Unused;
  }

  /** The array that four scalars pass, its buffer being a block. */
  function PassedAbi(ss: seq<Scalar>, block: nat): Arrays.ArrayAbi
    requires |ss| == 4 && ss[0].Int? && ss[1].Int? && ss[2].Int? && ss[3].Int?
  {
    Arrays.ArrayAbi(if ss[0].uint == 0 then Arrays.Null else Arrays.At(block, 0), ss[1].uint, ss[2].uint, ss[3].uint)
  }

  /** An array passed as an argument owns its buffer, all of it, and shows its elements: compiled code may
      append to it in place as soon as there is room. */
  lemma PassedArrayOwns(h0: Heap, h: Heap, ss: seq<Scalar>, items: seq<Value>, elem: Ty, blocks: seq<seq<Value>>)
    requires PassedArray(h0, h, ss, |items|, elem) && |items| < U32_LIMIT
    ensures Arrays.OwnsAll(blocks + [items], PassedAbi(ss, |blocks|))
    ensures Arrays.Shows(blocks + [items], Arrays.Owner(PassedAbi(ss, |blocks|)), items)
  {
    hide Has, Unused, LayoutOf;
    if items != [] {
      Arrays.InputShows(blocks, items);
    }
  }

  method ArrayToBytes(arena: Arena, buffer: Buffer, v: Value, elem: Ty)
    returns (error: Option<Error>, ghost ss: seq<Scalar>)
    requires Shaped(v, Array(elem)) && ValidHeap(arena.heap) && !arena.exhausted
    modifies arena, buffer
    ensures Passed(old(arena.heap), arena.heap, v, Array(elem), ss, error)
    ensures error.None? ==> buffer.bytes == Extended(buffer.arch, old(buffer.bytes), ss)
    ensures error.None? ==> v.ArrayV? && PassedArray(old(arena.heap), arena.heap, ss, |v.items|, elem)
    ensures arena.exhausted <==> error == Some(OutOfMemory)
  {
    hide LayoutOf, RawLayout, Within, ValidHeap, StandFor, WellTyped, Read, Has, FromPtr, Extended, Shaped, Holds,
         Headed, Unused;
    ghost var h0 := arena.heap;
    ss := [];
    PassableIsTyped(v, Array(elem));
    var r := ToPtr(arena, v, Array(elem));
    if r.Err? {
      return Some(r.error), [];
    }
    PointerFound(h0, arena.heap, r.p, v, Array(elem));
    ArrayStands(arena.heap, r.p, v, elem);
    var bytes := Read(arena.heap, r.p, 24);
    var four := [Word(FromLE(bytes[..8])), Int(W32, FromLE(bytes[8..12])), Int(W32, FromLE(bytes[12..16])),
                 Int(W32, FromLE(bytes[16..20]))];
    ArrayOnly(v, Array(elem));
    HeaderPassed(h0, arena.heap, r.p, v, elem);
    buffer.PushAll(four);
    return None, four;
  }

  // ----- inline values -----

  lemma WrapperStands(h: Heap, ss: seq<Scalar>, v: Value, ty: Ty)
    requires ty.Snapshot? || ty.NonZero?
    ensures StandFor(h, ss, v, ty) <==> StandFor(h, ss, v, ty.inner)
  {
    forall rest: seq<Scalar> ensures Understood(h, ss + rest, ty) == Understood(h, ss + rest, ty.inner) {
    }
  }

  lemma SingleStands(h: Heap, ss: seq<Scalar>, payload: Value, variants: seq<Ty>)
    requires |variants| == 1 && !IsMemoryAllocated(Enum(variants)) && StandFor(h, ss, payload, variants[0])
    ensures StandFor(h, ss, EnumV(0, payload), Enum(variants))
  {
    hide IsMemoryAllocated, Valid;
    forall rest: seq<Scalar> ensures Understood(h, ss + rest, Enum(variants)) == Some((EnumV(0, payload), rest)) {
      assert Understood(h, ss + rest, variants[0]) == Some((payload, rest));
    }
  }

  /** Scalars that stand for the first fields. */
  ghost predicate FieldsStand(h: Heap, ss: seq<Scalar>, fields: seq<Value>, members: seq<Ty>) {
    && |fields| <= |members| && (forall s :: s in ss ==> Valid(s))
    && Kinds(ss) == FieldKinds(members, |fields|)
    && forall rest: seq<Scalar> :: UnderstoodFields(h, ss + rest, members, |fields|) == Some((fields, rest))
  }

  lemma KindsJoin(ss: seq<Scalar>, more: seq<Scalar>)
    ensures Kinds(ss + more) == Kinds(ss) + Kinds(more)
  {
  }

  lemma FieldsStandMore(h: Heap, h': Heap, ss: seq<Scalar>, fields: seq<Value>, members: seq<Ty>, more: seq<Scalar>,
                        v: Value)
    requires Within(h, h') && FieldsStand(h, ss, fields, members) && |fields| < |members|
    requires StandFor(h', more, v, members[|fields|])
    ensures FieldsStand(h', ss + more, fields + [v], members)
  {
    hide Within, Understood, Valid, FlatKinds;
    var n := |fields|;
    KindsJoin(ss, more);
    forall rest: seq<Scalar>
      ensures UnderstoodFields(h', ss + more + rest, members, n + 1) == Some((fields + [v], rest))
    {
      assert ss + more + rest == ss + (more + rest);
      assert UnderstoodFields(h, ss + (more + rest), members, n) == Some((fields, more + rest));
      UnderstoodFieldsStable(h, h', ss + (more + rest), members, n);
      assert Understood(h', more + rest, members[n]) == Some((v, rest));
    }
  }

  lemma StructStands(h: Heap, ss: seq<Scalar>, fields: seq<Value>, members: seq<Ty>)
    requires |fields| == |members| && !IsMemoryAllocated(Struct(members)) && FieldsStand(h, ss, fields, members)
    ensures StandFor(h, ss, StructV(fields), Struct(members))
  {
    hide IsMemoryAllocated, Valid, UnderstoodFields;
    forall rest: seq<Scalar> ensures Understood(h, ss + rest, Struct(members)) == Some((StructV(fields), rest)) {
      assert UnderstoodFields(h, ss + rest, members, |fields|) == Some((fields, rest));
    }
  }

  lemma NoFieldsStand(h: Heap, members: seq<Ty>)
    ensures FieldsStand(h, [], [], members)
  {
    forall rest: seq<Scalar> ensures UnderstoodFields(h, [] + rest, members, 0) == Some(([], rest)) {
      assert [] + rest == rest;
    }
  }

  method FieldsToBytes(arena: Arena, buffer: Buffer, fields: seq<Value>, members: seq<Ty>)
    returns (error: Option<Error>, ghost ss: seq<Scalar>)
    requires |fields| == |members| && forall i :: 0 <= i < |members| ==> ShapedArg(fields[i], members[i])
    requires ValidHeap(arena.heap) && !arena.exhausted
    modifies arena, buffer
    ensures Within(old(arena.heap), arena.heap) && ValidHeap(arena.heap)
    ensures error.None? ==> FieldsStand(arena.heap, ss, fields, members)
    ensures error.None? ==> forall i :: 0 <= i < |members| ==> Passable(fields[i], members[i])
    ensures (forall i :: 0 <= i < |members| ==> Passable(fields[i], members[i])) ==>
            error.None? || error == Some(OutOfMemory)
    ensures error.None? ==> buffer.bytes == Extended(buffer.arch, old(buffer.bytes), ss)
    ensures arena.exhausted <==> error == Some(OutOfMemory)
    decreases members, 0
  {
    hide Within, ValidHeap, StandFor, FieldsStand, Passable, Extended, ShapedArg, Understood;
    ghost var h0, before := arena.heap, buffer.bytes;
    ss := [];
    WithinSame(h0);
    NoFieldsStand(h0, members);
    NothingPushed(buffer);
    var i := 0;
    while i < |members|
      invariant 0 <= i <= |members| && ValidHeap(arena.heap) && Within(h0, arena.heap) && !arena.exhausted
      invariant FieldsStand(arena.heap, ss, fields[..i], members)
      invariant buffer.bytes == Extended(buffer.arch, before, ss)
      invariant forall j :: 0 <= j < i ==> Passable(fields[j], members[j])
    {
      ghost var h := arena.heap;
      ghost var more;
      error, more := ToBytes(arena, buffer, fields[i], members[i]);
      WithinTrans(h0, h, arena.heap);
      if error.Some? {
        return;
      }
      FieldsStandMore(h, arena.heap, ss, fields[..i], members, more, fields[i]);
      ExtendedTwice(buffer.arch, before, ss, more);
      assert fields[..i] + [fields[i]] == fields[..i + 1];
      ss := ss + more;
      i := i + 1;
    }
    assert fields[..i] == fields;
    error := None;
  }

  lemma NothingPushed(buffer: Buffer)
    ensures Extended(buffer.arch, buffer.bytes, []) == buffer.bytes
  {
  }

  /** Passes a value: what is pushed is enough to understand it again, on either architecture. */
  method ToBytes(arena: Arena, buffer: Buffer, v: Value, ty: Ty) returns (error: Option<Error>, ghost ss: seq<Scalar>)
    requires ShapedArg(v, ty) && ValidHeap(arena.heap) && !arena.exhausted
    modifies arena, buffer
    ensures Passed(old(arena.heap), arena.heap, v, ty, ss, error)
    ensures error.None? ==> buffer.bytes == Extended(buffer.arch, old(buffer.bytes), ss)
    ensures error.None? && ty.Array? ==> v.ArrayV? && PassedArray(old(arena.heap), arena.heap, ss, |v.items|, ty.elem)
    ensures arena.exhausted <==> error == Some(OutOfMemory)
    decreases ty, 1
  {
    hide Within, ValidHeap, StandFor, Extended, Understood, WellTyped, Shaped, IsMemoryAllocated, PassedArray;
    ghost var h0 := arena.heap;
    WithinSame(h0);
    ss := [];
    match ty {
      case Snapshot(inner) =>
        error, ss := ToBytes(arena, buffer, v, inner);
        WrapperStands(arena.heap, ss, v, ty);
      case NonZero(inner) =>
        error, ss := ToBytes(arena, buffer, v, inner);
        WrapperStands(arena.heap, ss, v, ty);
      case Box(_) => error, ss := PointerToBytes(arena, buffer, v, ty);
      case Nullable(_) => error, ss := PointerToBytes(arena, buffer, v, ty);
      case Felt252Dict(_) =>
        if v.DictV? {
          error, ss := PointerToBytes(arena, buffer, v, ty);
        } else {
          error := Some(NativePanic);
          DictOnly(v, ty);
        }
      case Array(elem) =>
        if v.ArrayV? {
          error, ss := ArrayToBytes(arena, buffer, v, elem);
        } else {
          error := Some(NativePanic);
          ArrayOnly(v, ty);
        }
      case Struct(members) => error, ss := StructToBytes(arena, buffer, v, members);
      case Enum(variants) => error, ss := EnumToBytes(arena, buffer, v, variants);
      case BoundedInt(_, _) => error := Some(NativePanic);
      case IntRange(_) => error := Some(NativePanic);
      case Guarantee =>
        error := Some(NativePanic);
        NoGuarantees(v);
      case _ => error, ss := PlainToBytes(arena, buffer, v, ty);
    }
  }

  lemma DictOnly(v: Value, ty: Ty)
    requires ty.Felt252Dict? && !v.DictV?
    ensures !WellTyped(v, ty)
  {
  }

  lemma ArrayOnly(v: Value, ty: Ty)
    requires ty.Array?
    ensures WellTyped(v, ty) ==> v.ArrayV?
  {
  }

  lemma NoGuarantees(v: Value)
    ensures !WellTyped(v, Guarantee)
  {
  }

  /** Does the kind of scalar match the type? */
  predicate KindMatches(v: Value, ty: Ty) {
    match ty
    case Felt252 => v.FeltV?
    case Uint(w) => v.UintV? && v.width == w
    case Sint(w) => v.SintV? && v.width == w
    case Bytes31 => v.Bytes31V?
    case _ => false
  }

  method PlainToBytes(arena: Arena, buffer: Buffer, v: Value, ty: Ty)
      returns (error: Option<Error>, ghost ss: seq<Scalar>)
    requires PlainTy(ty) && ShapedArg(v, ty) && ValidHeap(arena.heap) && !arena.exhausted
    modifies arena, buffer
    ensures Passed(old(arena.heap), arena.heap, v, ty, ss, error)
    ensures error.None? ==> buffer.bytes == Extended(buffer.arch, old(buffer.bytes), ss)
    ensures arena.exhausted <==> error == Some(OutOfMemory)
  {
    hide Within, ValidHeap, StandFor, Appended, Understood;
    WithinSame(arena.heap);
    PassableIsTyped(v, ty);
    if !KindMatches(v, ty) {
      return Some(NativePanic), [];
    }
    PlainStands(arena.heap, v, ty);
    PushedOne(buffer, Plain(v));
    buffer.Push(Plain(v));
    return None, [Plain(v)];
  }

  method StructToBytes(arena: Arena, buffer: Buffer, v: Value, members: seq<Ty>)
    returns (error: Option<Error>, ghost ss: seq<Scalar>)
    requires ShapedArg(v, Struct(members)) && ValidHeap(arena.heap) && !arena.exhausted
    modifies arena, buffer
    ensures Passed(old(arena.heap), arena.heap, v, Struct(members), ss, error)
    ensures error.None? ==> buffer.bytes == Extended(buffer.arch, old(buffer.bytes), ss)
    ensures arena.exhausted <==> error == Some(OutOfMemory)
    decreases members, 1
  {
    hide Within, ValidHeap, StandFor, Extended, Understood, Shaped, IsMemoryAllocated;
    WithinSame(arena.heap);
    ss := [];
    if !v.StructV? {
      return Some(NativePanic), [];
    }
    if IsMemoryAllocated(Struct(members)) {
      error, ss := PointerToBytes(arena, buffer, v, Struct(members));
    } else {
      error, ss := FieldsToBytes(arena, buffer, v.fields, members);
      if error.None? {
        StructStands(arena.heap, ss, v.fields, members);
      }
    }
  }

  method EnumToBytes(arena: Arena, buffer: Buffer, v: Value, variants: seq<Ty>)
    returns (error: Option<Error>, ghost ss: seq<Scalar>)
    requires ShapedArg(v, Enum(variants)) && ValidHeap(arena.heap) && !arena.exhausted
    modifies arena, buffer
    ensures Passed(old(arena.heap), arena.heap, v, Enum(variants), ss, error)
    ensures error.None? ==> buffer.bytes == Extended(buffer.arch, old(buffer.bytes), ss)
    ensures arena.exhausted <==> error == Some(OutOfMemory)
    decreases variants, 1
  {
    hide Within, ValidHeap, StandFor, Extended, Understood, Shaped;
    ghost var h0 := arena.heap;
    WithinSame(h0);
    ss := [];
    if !v.EnumV? {
      return Some(NativePanic), [];
    }
    if IsMemoryAllocated(Enum(variants)) {
      error, ss := PointerToBytes(arena, buffer, v, Enum(variants));
    } else if v.tag >= |variants| {
      return Some(NativePanic), [];
    } else {
      assert |variants| == 1 && TagBits(1) == 0;
      hide IsMemoryAllocated;
      error, ss := ToBytes(arena, buffer, v.payload, variants[v.tag]);
      if error.None? {
        SingleStands(arena.heap, ss, v.payload, variants);
      }
    }
  }

  // ----- a whole call -----

  type Word64 = n: nat | n < ADDRESS_LIMIT

  /** A parameter of the function that is called: one that the caller's arguments do not fill (the return
      pointer, the gas, the address of the syscall handler or of the builtin costs, zero for any other
      builtin), or one that the next argument fills. */
  datatype Param = Given(word: Word64) | Argument(ty: Ty)

  /** The types of what is passed; arguments without a size are not. */
  function TypesOf(p: Param): seq<Ty> {
    match p
    case Given(_) => [Uint(W64)]
    case Argument(ty) => if IsZst(ty) then [] else [ty]
  }

  function Types(params: seq<Param>): seq<Ty> {
    if params == [] then [] else Types(params[..|params| - 1]) + TypesOf(params[|params| - 1])
  }

  /** How many arguments are used. */
  function Used(params: seq<Param>): nat {
    if params == [] then 0
    else
      var p := params[|params| - 1];
      Used(params[..|params| - 1]) + if p.Argument? && !IsZst(p.ty) then 1 else 0
  }

  function Arranged(params: seq<Param>, args: seq<Value>): (vs: seq<Value>)
    requires Used(params) <= |args|
    ensures |vs| == |Types(params)|
  {
    if params == [] then []
    else
      var init := params[..|params| - 1];
      Arranged(init, args) +
      match params[|params| - 1]
      case Given(word) => [UintV(W64, word)]
      case Argument(ty) => if IsZst(ty) then [] else [args[Used(init)]]
  }

  lemma {:induction false} TypesBefore(params: seq<Param>, i: nat)
    requires i <= |params|
    ensures Types(params[..i]) <= Types(params) && Used(params[..i]) <= Used(params)
    decreases |params|
  {
    if i == |params| {
      assert params[..i] == params;
    } else {
      var init := params[..|params| - 1];
      TypesBefore(init, i);
      assert init[..i] == params[..i];
    }
  }

  lemma OneParam(params: seq<Param>, i: nat)
    requires i < |params|
    ensures Types(params[..i + 1]) == Types(params[..i]) + TypesOf(params[i])
    ensures Used(params[..i + 1]) == Used(params[..i]) + if params[i].Argument? && !IsZst(params[i].ty) then 1 else 0
    ensures Types(params[..i + 1]) <= Types(params) && Used(params[..i + 1]) <= Used(params)
  {
    hide TypesOf, IsZst;
    assert params[..i + 1][..i] == params[..i] && params[..i + 1][i] == params[i];
    hide Types, Used;
    TypesBefore(params, i + 1);
  }

  lemma ArrangedMore(params: seq<Param>, i: nat, args: seq<Value>)
    requires i < |params| && Used(params[..i + 1]) <= |args|
    ensures Used(params[..i]) <= Used(params[..i + 1])
    ensures params[i].Argument? && !IsZst(params[i].ty) ==> Used(params[..i]) < |args|
    ensures Arranged(params[..i + 1], args) == Arranged(params[..i], args) +
      match params[i]
      case Given(word) => [UintV(W64, word)]
      case Argument(ty) => if IsZst(ty) then [] else [args[Used(params[..i])]]
  {
    assert params[..i + 1][..i] == params[..i];
  }

  /** What the called function finds: scalars by the kinds of its parameters, and values by their types. */
  ghost predicate Received(h: Heap, arch: Arch, bytes: seq<Byte>, types: seq<Ty>, values: seq<Value>) {
    var ss := Decoded(arch, bytes, FieldKinds(types, |types|));
    ss.Some? && UnderstoodFields(h, ss.value, types, |types|) == Some((values, []))
  }

  lemma StandReceived(h: Heap, arch: Arch, ss: seq<Scalar>, types: seq<Ty>, values: seq<Value>, padding: seq<Byte>)
    requires FieldsStand(h, ss, values, types) && |values| == |types|
    ensures Received(h, arch, Encoded(arch, ss) + padding, types, values)
  {
    hide Decoded, Encoded, Valid, UnderstoodFields, FieldKinds, Kinds;
    AllRoundTrip(arch, ss, padding);
    assert ss + [] == ss;
    assert UnderstoodFields(h, ss + [], types, |types|) == Some((values, []));
  }

  /** What the writer takes for granted about the arguments it gets to. */
  ghost predicate ShapedArgs(params: seq<Param>, args: seq<Value>) {
    forall i :: 0 <= i < |params| && params[i].Argument? && !IsZst(params[i].ty) && Used(params[..i]) < |args| ==>
      ShapedArg(args[Used(params[..i])], params[i].ty)
  }

  lemma WordShaped(word: Word64)
    ensures ShapedArg(UintV(W64, word), Uint(W64)) && Passable(UintV(W64, word), Uint(W64))
  {
    Pow2Values();
  }

  ghost predicate AllPassable(values: seq<Value>, types: seq<Ty>) {
    |values| <= |types| && forall i :: 0 <= i < |values| ==> Passable(values[i], types[i])
  }

  /** Passing all arguments of a call: on either architecture the called function, which knows only its
      parameters, finds every one of them. */
  method PassArguments(arena: Arena, arch: Arch, params: seq<Param>, args: seq<Value>)
    returns (error: Option<Error>, missing: bool, buffer: Buffer)
    requires ShapedArgs(params, args) && ValidHeap(arena.heap) && !arena.exhausted
    modifies arena
    ensures ValidHeap(arena.heap) && Within(old(arena.heap), arena.heap) && buffer.arch == arch
    ensures missing ==> error.None? && |args| < Used(params)
    ensures error.None? && !missing ==>
      && Used(params) <= |args|
      && Received(arena.heap, arch, buffer.bytes, Types(params), Arranged(params, args))
      && (|buffer.bytes| > arch.RegisterBytes() ==> (|buffer.bytes| - arch.RegisterBytes()) % 16 == 0)
    ensures error.None? && !missing ==> AllPassable(Arranged(params, args), Types(params))
    ensures Used(params) <= |args| && AllPassable(Arranged(params, args), Types(params)) ==>
      !missing && (error.None? || error == Some(OutOfMemory))
  {
    hide Within, ValidHeap, FieldsStand, Passable, Extended, ShapedArg, Received, StandFor, Understood, Arranged, Types,
         Used, IsZst;
    ghost var h0 := arena.heap;
    ghost var ss: seq<Scalar>, values: seq<Value> := [], [];
    var types := Types(params);
    buffer := new Buffer(arch);
    error, missing := None, false;
    WithinSame(h0);
    NoFieldsStand(h0, types);
    NothingPushed(buffer);
    NoParams(params, args);
    var i, used := 0, 0;
    while i < |params|
      invariant 0 <= i <= |params| && used == Used(params[..i]) <= |args| && fresh(buffer) && buffer.arch == arch
      invariant ValidHeap(arena.heap) && Within(h0, arena.heap) && !arena.exhausted && error.None?
      invariant values == Arranged(params[..i], args) && Types(params[..i]) <= types
      invariant FieldsStand(arena.heap, ss, values, types) && buffer.bytes == Extended(arch, [], ss)
      invariant AllPassable(values, types)
    {
      OneParam(params, i);
      if params[i].Argument? && IsZst(params[i].ty) {
        ArrangedMore(params, i, args);
        i := i + 1;
        continue;
      }
      if params[i].Argument? && used == |args| {
        missing := true;
        return;
      }
      ArrangedMore(params, i, args);
      ghost var h, more := arena.heap, [];
      var ty := if params[i].Given? then Uint(W64) else params[i].ty;
      var v := if params[i].Given? then UintV(W64, params[i].word) else args[used];
      if params[i].Given? { WordShaped(params[i].word); }
      error, more := ToBytes(arena, buffer, v, ty);
      WithinTrans(h0, h, arena.heap);
      if error.Some? {
        NotPassable(params, args, i, values, v);
        return;
      }
      FieldsStandMore(h, arena.heap, ss, values, types, more, v);
      ExtendedTwice(arch, [], ss, more);
      ss, values := ss + more, values + [v];
      used := used + if params[i].Given? then 0 else 1;
      i := i + 1;
    }
    assert params[..i] == params;
    ghost var before := buffer.bytes;
    buffer.Pad();
    StandReceived(arena.heap, arch, ss, types, values, buffer.bytes[|before|..]);
    assert before + buffer.bytes[|before|..] == buffer.bytes;
  }

  lemma NoParams(params: seq<Param>, args: seq<Value>)
    ensures Types(params[..0]) == [] && Used(params[..0]) == 0 && Arranged(params[..0], args) == []
  {
  }

  /** A value refused is one of those arranged. */
  lemma {:induction false} NotPassable(params: seq<Param>, args: seq<Value>, i: nat, values: seq<Value>, v: Value)
    requires i < |params| && Used(params) <= |args| ==> Used(params[..i + 1]) <= |args|
    requires i < |params| && Used(params[..i + 1]) <= |args| && Arranged(params[..i + 1], args) == values + [v]
    ensures Used(params) <= |args| ==> |values| < |Types(params)| && Arranged(params, args)[|values|] == v
    decreases |params| - i
  {
    if Used(params) <= |args| {
      ArrangedBefore(params, i + 1, args);
    }
  }

  lemma {:induction false} ArrangedBefore(params: seq<Param>, i: nat, args: seq<Value>)
    requires i <= |params| && Used(params) <= |args|
    ensures Used(params[..i]) <= Used(params) && Arranged(params[..i], args) <= Arranged(params, args)
    decreases |params|
  {
    if i == |params| {
      assert params[..i] == params;
    } else {
      var init := params[..|params| - 1];
      ArrangedBefore(init, i, args);
      assert init[..i] == params[..i];
    }
  }

  /** The parameters among the first `n` that are passed, and those that are given by the caller's list. */
  ghost function PassedBefore(params: seq<Param>, n: nat): set<nat>
    requires n <= |params|
  {
    set j | 0 <= j < n && (params[j].Given? || !IsZst(params[j].ty)) :: j
  }

  ghost function ListedBefore(params: seq<Param>, n: nat): set<nat>
    requires n <= |params|
  {
    set j | 0 <= j < n && params[j].Argument? && !IsZst(params[j].ty) :: j
  }

  lemma SetsBefore(params: seq<Param>, n: nat)
    requires 0 < n <= |params|
    ensures |ListedBefore(params, n)| == |ListedBefore(params, n - 1)| +
            if params[n - 1].Argument? && !IsZst(params[n - 1].ty) then 1 else 0
    ensures |PassedBefore(params, n)| == |PassedBefore(params, n - 1)| +
            if params[n - 1].Given? || !IsZst(params[n - 1].ty) then 1 else 0
  {
    hide IsZst;
    var listed, passed := ListedBefore(params, n - 1), PassedBefore(params, n - 1);
    assert n - 1 !in listed && n - 1 !in passed;
    assert ListedBefore(params, n) ==
           if params[n - 1].Argument? && !IsZst(params[n - 1].ty) then listed + {n - 1} else listed;
    assert PassedBefore(params, n) ==
           if params[n - 1].Given? || !IsZst(params[n - 1].ty) then passed + {n - 1} else passed;
  }

  lemma NoneBefore(params: seq<Param>)
    ensures ListedBefore(params, 0) == {} == PassedBefore(params, 0)
    ensures Used(params[..0]) == 0 && Types(params[..0]) == []
  {
  }

  lemma {:induction false} CountsBefore(params: seq<Param>, n: nat)
    requires n <= |params|
    ensures Used(params[..n]) == |ListedBefore(params, n)|
    ensures |Types(params[..n])| == |PassedBefore(params, n)|
  {
    hide IsZst, ListedBefore, PassedBefore, Used, Types;
    if n == 0 {
      NoneBefore(params);
    } else {
      CountsBefore(params, n - 1);
      OneParam(params, n - 1);
      SetsBefore(params, n);
    }
  }

  /** Each parameter that has a size gets its own word, or the next of the listed arguments; parameters
      without a size use up none. */
  lemma ArgumentPlace(params: seq<Param>, args: seq<Value>, i: nat)
    requires Used(params) <= |args| && i < |params|
    ensures var at, next := |PassedBefore(params, i)|, |ListedBefore(params, i)|;
            && (params[i].Given? ==>
                  at < |Types(params)| && Types(params)[at] == Uint(W64)
                  && Arranged(params, args)[at] == UintV(W64, params[i].word))
            && (params[i].Argument? && !IsZst(params[i].ty) ==>
                  at < |Types(params)| && Types(params)[at] == params[i].ty
                  && next < |args| && Arranged(params, args)[at] == args[next])
  {
    hide IsZst, Types, Used, Arranged;
    CountsBefore(params, i);
    OneParam(params, i);
    ArrangedBefore(params, i + 1, args);
    ArrangedMore(params, i, args);
  }
}
