/** Arena memory: bytes by address, and the dictionary headers kept beside them. */
module Memory {
  import opened Bytes
  import opened Layouts

  type Address = nat

  /** The header of a dictionary: where each key's element is, in elements of a layout. */
  datatype FeltDict = FeltDict(mappings: map<nat, nat>, layout: Layout, elements: Address)

  datatype Heap = Heap(mem: map<Address, Byte>, dicts: map<Address, FeltDict>)

  const ADDRESS_LIMIT: nat := 0x1_0000_0000_0000_0000
  const DICT_LAYOUT := Layout(80, 8)

  /** The address of an element in a buffer. */
  function Nth(base: Address, stride: nat, index: nat): Address {
    if index == 0 then base else Nth(base, stride, index - 1) + stride
  }

  lemma {:induction false} NthIs(base: Address, stride: nat, index: nat)
    ensures Nth(base, stride, index) == base + stride * index
  {
    if index > 0 {
      NthIs(base, stride, index - 1);
      MulSucc(index - 1, stride);
    }
  }

  /** All `n` bytes at `p` are allocated. */
  ghost predicate Has(h: Heap, p: Address, n: nat) {
    forall a :: p <= a < p + n ==> a in h.mem
  }

  ghost predicate Unused(h: Heap, p: Address, n: nat) {
    forall a :: p <= a < p + n ==> a !in h.mem
  }

  function Read(h: Heap, p: Address, n: nat): (bytes: seq<Byte>)
    requires Has(h, p, n)
    ensures |bytes| == n
  {
    seq(n, i requires 0 <= i < n => h.mem[p + i])
  }

  /** The addresses from `p` on, `n` of them. */
  function Span(p: Address, n: nat): (s: set<Address>)
    ensures forall a :: a in s <==> p <= a < p + n
  {
    if n == 0 then {} else Span(p, n - 1) + {p + n - 1}
  }

  function Stored(bytes: seq<Byte>, p: Address): map<Address, Byte> {
    map a: Address | a in Span(p, |bytes|) :: bytes[a - p]
  }

  /** Bytes of any kind at `n` addresses. */
  function Junk(bytes: Address -> Byte, p: Address, n: nat): (m: map<Address, Byte>)
    ensures forall a :: a in m <==> p <= a < p + n
  {
    map a | a in Span(p, n) :: bytes(a)
  }

  function Write(h: Heap, p: Address, bytes: seq<Byte>): Heap {
    h.(mem := h.mem + Stored(bytes, p))
  }

  /** Everything in `h` is in `h'`, unchanged. */
  ghost predicate Within(h: Heap, h': Heap) {
    && (forall a :: a in h.mem ==> a in h'.mem && h'.mem[a] == h.mem[a])
    && (forall a :: a in h.dicts ==> a in h'.dicts && h'.dicts[a] == h.dicts[a])
  }

  /** What `h` has at addresses that `h0` does not use. */
  ghost function Beyond(h: Heap, h0: Heap): Heap {
    Heap(h.mem - h0.mem.Keys, h.dicts - h0.dicts.Keys)
  }

  lemma WithinTrans(a: Heap, b: Heap, c: Heap)
    requires Within(a, b) && Within(b, c)
    ensures Within(a, c)
  {
  }

  lemma ReadWithin(h: Heap, h': Heap, p: Address, n: nat)
    requires Within(h, h') && Has(h, p, n)
    ensures Has(h', p, n) && Read(h', p, n) == Read(h, p, n)
  {
  }

  lemma BeyondWithin(h: Heap, h0: Heap)
    ensures Within(Beyond(h, h0), h)
  {
  }

  /** More beyond less is more. */
  lemma BeyondMonotone(h: Heap, h0: Heap, h': Heap, h1: Heap)
    requires Within(h, h') && h0.mem.Keys <= h1.mem.Keys && h0.dicts.Keys <= h1.dicts.Keys
    ensures Within(Beyond(h, h1), Beyond(h', h0))
  {
  }

  lemma ReadSlice(h: Heap, p: Address, n: nat, i: nat, m: nat)
    requires Has(h, p, n) && i + m <= n
    ensures Has(h, p + i, m) && Read(h, p + i, m) == Read(h, p, n)[i..i + m]
  {
  }

  lemma ReadStored(h: Heap, p: Address, bytes: seq<Byte>)
    ensures Has(Write(h, p, bytes), p, |bytes|) && Read(Write(h, p, bytes), p, |bytes|) == bytes
  {
    var h' := Write(h, p, bytes);
    assert forall a :: p <= a < p + |bytes| ==> a in h'.mem && h'.mem[a] == bytes[a - p];
  }

  lemma ReadElsewhere(h: Heap, p: Address, bytes: seq<Byte>, q: Address, n: nat)
    requires Has(h, q, n) && (q + n <= p || p + |bytes| <= q)
    ensures Has(Write(h, p, bytes), q, n) && Read(Write(h, p, bytes), q, n) == Read(h, q, n)
  {
  }

  /** Dictionary headers are where memory was allocated for them. */
  ghost predicate ValidHeap(h: Heap) {
    forall a :: a in h.dicts ==> a in h.mem
  }

  /** A bump arena. Where it finds room is up to it, as long as the room is aligned and unused;
      what the room holds at first is not defined. */
  class Arena {
    var heap: Heap
    /** Some allocation found no room. */
    var exhausted: bool

    constructor ()
      ensures heap == Heap(map[], map[]) && ValidHeap(heap) && !exhausted
    {
      heap := Heap(map[], map[]);
      exhausted := false;
    }

    /** Room for a layout, or none: then nothing changed. */
    method Alloc(l: Layout) returns (p: Address)
      requires l.align > 0
      modifies this
      ensures p == 0 ==> heap == old(heap) && exhausted
      ensures p != 0 ==> exhausted == old(exhausted)
      ensures ValidHeap(old(heap)) ==> ValidHeap(heap)
      ensures p != 0 ==> Multiple(p, l.align) && p < ADDRESS_LIMIT
      ensures p != 0 ==> Unused(old(heap), p, l.size) && Has(heap, p, l.size)
      ensures p != 0 ==> Within(old(heap), heap) && heap.dicts == old(heap).dicts
      ensures p != 0 ==> forall a :: a in heap.mem && a !in old(heap).mem ==> p <= a < p + l.size
    {
      var candidate: Address := *;
      if candidate == 0 || candidate >= ADDRESS_LIMIT || !Multiple(candidate, l.align)
        || !IsUnused(heap, candidate, l.size) {
        exhausted := true;
        return 0;
      }
      var junk: Address -> Byte := *;
      heap := heap.(mem := heap.mem + Junk(junk, candidate, l.size));
      return candidate;
    }

    method Put(p: Address, bytes: seq<Byte>)
      modifies this`heap
      ensures heap == Write(old(heap), p, bytes)
      ensures ValidHeap(old(heap)) ==> ValidHeap(heap)
    {
      heap := Write(heap, p, bytes);
    }

    /** Room for a layout with some bytes at its start. */
    method AllocWith(l: Layout, bytes: seq<Byte>) returns (p: Address)
      requires l.align > 0 && |bytes| <= l.size
      modifies this
      ensures p == 0 ==> heap == old(heap) && exhausted
      ensures p != 0 ==> exhausted == old(exhausted)
      ensures ValidHeap(old(heap)) ==> ValidHeap(heap)
      ensures p != 0 ==> Multiple(p, l.align) && p < ADDRESS_LIMIT
      ensures p != 0 ==> Within(old(heap), heap) && Has(Beyond(heap, old(heap)), p, l.size)
      ensures p != 0 ==> Has(heap, p, |bytes|) && Read(heap, p, |bytes|) == bytes
    {
      p := Alloc(l);
      if p != 0 {
        ReadStored(heap, p, bytes);
        Put(p, bytes);
      }
    }

    /** Room for a layout with a copy of as many bytes from elsewhere. */
    method AllocCopy(l: Layout, from: Address) returns (p: Address)
      requires l.align > 0 && Has(heap, from, l.size)
      modifies this
      ensures p == 0 ==> heap == old(heap) && exhausted
      ensures p != 0 ==> exhausted == old(exhausted)
      ensures ValidHeap(old(heap)) ==> ValidHeap(heap)
      ensures p != 0 ==> Multiple(p, l.align) && p < ADDRESS_LIMIT
      ensures p != 0 ==> Within(old(heap), heap) && Has(Beyond(heap, old(heap)), p, l.size)
      ensures p != 0 ==> Has(heap, p, l.size) && Read(heap, p, l.size) == Read(old(heap), from, l.size)
    {
      p := AllocWith(l, Read(heap, from, l.size));
    }

    /** Replaces the header of a dictionary. */
    method PutDict(p: Address, d: FeltDict)
      modifies this`heap
      ensures heap == old(heap).(dicts := old(heap).dicts[p := d])
      ensures ValidHeap(old(heap)) && p in old(heap).mem ==> ValidHeap(heap)
    {
      heap := heap.(dicts := heap.dicts[p := d]);
    }

    /** Copies `n` bytes that do not overlap. */
    method Copy(from: Address, to: Address, n: nat)
      requires Has(heap, from, n)
      modifies this`heap
      ensures heap == Write(old(heap), to, Read(old(heap), from, n))
      ensures ValidHeap(old(heap)) ==> ValidHeap(heap)
    {
      heap := Write(heap, to, Read(heap, from, n));
    }
  }

  predicate IsUnused(h: Heap, p: Address, n: nat)
    ensures IsUnused(h, p, n) <==> Unused(h, p, n)
  {
    forall a :: p <= a < p + n ==> a !in h.mem
  }
}
