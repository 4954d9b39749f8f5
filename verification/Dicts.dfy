/** Felt dictionaries: a map from keys to places in a growable element buffer. */
module Dicts {
  import opened Options
  import opened VarMaps

  type Felt = nat

  const U128_MAX: Felt := 0xFFFF_FFFF_FFFF_FFFF_FFFF_FFFF_FFFF_FFFF

  /** Subtraction that stops at zero. */
  function SaturatingSub(x: nat, y: nat): nat {
    if x < y then 0 else x - y
  }

  /** The keys in the order of their places: places and keys determine each other. */
  ghost predicate Indexes(mappings: map<Felt, nat>, keys: seq<Felt>) {
    && |mappings| == |keys|
    && (forall k :: k in mappings ==> mappings[k] < |keys| && keys[mappings[k]] == k)
    && (forall i :: 0 <= i < |keys| ==> keys[i] in mappings && mappings[keys[i]] == i)
  }

  lemma IndexesGrow(mappings: map<Felt, nat>, keys: seq<Felt>, k: Felt)
    requires Indexes(mappings, keys) && k !in mappings
    ensures Indexes(mappings[k := |mappings|], keys + [k])
  {
    var next := mappings[k := |mappings|];
    assert next.Keys == mappings.Keys + {k};
    assert |next| == |next.Keys| && |mappings| == |mappings.Keys|;
  }

  lemma SameSize(mappings: map<Felt, nat>, keys: seq<Felt>)
    requires Indexes(mappings, keys)
    ensures |mappings| == |keys|
  {
  }

  /** No two keys share a place, and every place below the number of keys is some key's. */
  lemma PlacesAreABijection(mappings: map<Felt, nat>, keys: seq<Felt>)
    requires Indexes(mappings, keys)
    ensures forall k, k' :: k in mappings && k' in mappings && mappings[k] == mappings[k'] ==> k == k'
    ensures forall k :: k in mappings ==> mappings[k] < |mappings|
    ensures forall i :: 0 <= i < |mappings| ==> Taken(mappings, i)
  {
    forall i | 0 <= i < |mappings| ensures Taken(mappings, i) {
      assert keys[i] in mappings && mappings[keys[i]] == i;
    }
  }

  ghost predicate Taken(mappings: map<Felt, nat>, i: nat) {
    exists k :: k in mappings && mappings[k] == i
  }

  /** What a sequence of reads and writes sees and leaves, on a plain map. */
  function Written<T>(m: map<Felt, T>, ops: seq<(Felt, T)>): map<Felt, T> {
    if ops == [] then m
    else Written(m, ops[..|ops| - 1])[ops[|ops| - 1].0 := ops[|ops| - 1].1]
  }

  function Seen<T>(m: map<Felt, T>, ops: seq<(Felt, T)>, zero: T): seq<T> {
    if ops == [] then []
    else
      var init := Written(m, ops[..|ops| - 1]);
      var k := ops[|ops| - 1].0;
      Seen(m, ops[..|ops| - 1], zero) + [if k in init then init[k] else zero]
  }

  lemma OneMore<T>(m: map<Felt, T>, ops: seq<(Felt, T)>, i: nat, zero: T)
    requires i < |ops|
    ensures var before, k := Written(m, ops[..i]), ops[i].0;
            && Written(m, ops[..i + 1]) == before[k := ops[i].1]
            && Seen(m, ops[..i + 1], zero) == Seen(m, ops[..i], zero) + [if k in before then before[k] else zero]
  {
    assert ops[..i + 1][..i] == ops[..i];
  }

  /** Among the first `n` accesses, number `j` is the latest to a key. */
  ghost predicate Latest<T>(ops: seq<(Felt, T)>, n: nat, k: Felt, j: nat) {
    j < n <= |ops| && ops[j].0 == k && forall l :: j < l < n ==> ops[l].0 != k
  }

  ghost predicate Untouched<T>(ops: seq<(Felt, T)>, n: nat, k: Felt) {
    n <= |ops| && forall l :: 0 <= l < n ==> ops[l].0 != k
  }

  lemma WrittenNext<T>(m: map<Felt, T>, ops: seq<(Felt, T)>, n: nat)
    requires 0 < n <= |ops|
    ensures Written(m, ops[..n]) == Written(m, ops[..n - 1])[ops[n - 1].0 := ops[n - 1].1]
    ensures Written(m, ops[..0]) == m
  {
    assert ops[..n][..n - 1] == ops[..n - 1];
  }

  lemma LatestNext<T>(ops: seq<(Felt, T)>, n: nat, k: Felt)
    requires 0 < n <= |ops|
    ensures Untouched(ops, n, k) ==> Untouched(ops, n - 1, k) && ops[n - 1].0 != k
    ensures forall j: nat :: Latest(ops, n, k, j) ==>
      if ops[n - 1].0 == k then j == n - 1 else Latest(ops, n - 1, k, j)
  {
  }

  /** A key is left with what was written to it last, or as it was. */
  lemma {:induction false} LastWriteStays<T>(m: map<Felt, T>, ops: seq<(Felt, T)>, n: nat, k: Felt)
    requires n <= |ops|
    ensures Untouched(ops, n, k) ==> (k in Written(m, ops[..n]) <==> k in m)
    ensures Untouched(ops, n, k) && k in m ==> k in Written(m, ops[..n]) && Written(m, ops[..n])[k] == m[k]
    ensures forall j: nat :: Latest(ops, n, k, j) ==>
      k in Written(m, ops[..n]) && Written(m, ops[..n])[k] == ops[j].1
  {
    if n > 0 {
      WrittenNext(m, ops, n);
      LatestNext(ops, n, k);
      hide Written, Untouched, Latest;
      LastWriteStays(m, ops, n - 1, k);
    } else {
      NothingWritten(m, ops, k);
    }
  }

  lemma NothingWritten<T>(m: map<Felt, T>, ops: seq<(Felt, T)>, k: Felt)
    ensures Written(m, ops[..0]) == m && forall j: nat :: !Latest(ops, 0, k, j)
  {
  }

  /** An access reads what was written to its key last, or what was there at first, or zero. */
  lemma SeesLastWrite<T>(m: map<Felt, T>, ops: seq<(Felt, T)>, zero: T, i: nat)
    requires i < |ops|
    ensures |Seen(m, ops, zero)| == |ops|
    ensures Untouched(ops, i, ops[i].0) ==>
      Seen(m, ops, zero)[i] == if ops[i].0 in m then m[ops[i].0] else zero
    ensures forall j: nat :: Latest(ops, i, ops[i].0, j) ==> Seen(m, ops, zero)[i] == ops[j].1
  {
    hide Seen, Written, Untouched, Latest;
    SeenAt(m, ops, zero, i);
    LastWriteStays(m, ops, i, ops[i].0);
  }

  lemma {:induction false} SeenAt<T>(m: map<Felt, T>, ops: seq<(Felt, T)>, zero: T, i: nat)
    requires i < |ops|
    ensures |Seen(m, ops, zero)| == |ops|
    ensures var before := Written(m, ops[..i]);
            Seen(m, ops, zero)[i] == if ops[i].0 in before then before[ops[i].0] else zero
    decreases |ops|
  {
    hide Written;
    var last := |ops| - 1;
    SeenLength(m, ops, zero);
    if i < last {
      SeenAt(m, ops[..last], zero, i);
      assert ops[..last][..i] == ops[..i];
    }
  }

  lemma {:induction false} SeenLength<T>(m: map<Felt, T>, ops: seq<(Felt, T)>, zero: T)
    ensures |Seen(m, ops, zero)| == |ops|
  {
    if ops != [] {
      SeenLength(m, ops[..|ops| - 1], zero);
    }
  }

  /** The keys that a sequence of accesses touches. */
  function Touched<T>(ops: seq<(Felt, T)>): set<Felt> {
    if ops == [] then {} else Touched(ops[..|ops| - 1]) + {ops[|ops| - 1].0}
  }

  lemma {:induction false} WrittenKeys<T>(m: map<Felt, T>, ops: seq<(Felt, T)>)
    ensures Written(m, ops).Keys == m.Keys + Touched(ops)
  {
    if ops != [] {
      WrittenKeys(m, ops[..|ops| - 1]);
    }
  }

  lemma {:induction false} TouchedAtMost<T>(ops: seq<(Felt, T)>)
    ensures |Touched(ops)| <= |ops|
  {
    if ops != [] {
      TouchedAtMost(ops[..|ops| - 1]);
    }
  }

  /** The accesses that a squash gives gas back for, when the dictionary began as `m`. */
  function Refunded<T>(m: map<Felt, T>, ops: seq<(Felt, T)>): nat {
    SaturatingSub(|ops|, |Written(m, ops)|)
  }

  /** The repeated accesses are given back exactly if every key that was there at the start is touched, or
      none is touched twice; otherwise it is less. */
  lemma RefundExact<T>(m: map<Felt, T>, ops: seq<(Felt, T)>)
    ensures Refunded(m, ops) <= |ops| - |Touched(ops)|
    ensures Refunded(m, ops) == |ops| - |Touched(ops)| <==> m.Keys <= Touched(ops) || |ops| == |Touched(ops)|
  {
    hide Written, Touched;
    WrittenKeys(m, ops);
    TouchedAtMost(ops);
    assert |Written(m, ops)| == |Written(m, ops).Keys|;
    AllKeys(m.Keys, Touched(ops));
  }

  lemma AllKeys(keys: set<Felt>, touched: set<Felt>)
    ensures |touched| <= |keys + touched|
    ensures |touched| == |keys + touched| <==> keys <= touched
  {
    SubsetSmaller(touched, keys + touched);
    if keys <= touched {
      assert keys + touched == touched;
    } else {
      var k :| k in keys && k !in touched;
      SubsetSmaller(touched + {k}, keys + touched);
      assert |touched + {k}| == |touched| + 1;
    }
  }

  /** One key of two is accessed twice: the repeated access is not given back. */
  lemma RefundStops<T>(a: T, b: T)
    ensures var m, ops := map[1 := a, 2 := b], [(1, b), (1, a)];
            Refunded(m, ops) == 0 && |ops| - |Touched(ops)| == 1
  {
    var m, ops := map[1 := a, 2 := b], [(1, b), (1, a)];
    assert Touched(ops[..1]) == {1} && Touched(ops) == {1};
    WrittenKeys(m, ops);
    assert |Written(m, ops)| == |Written(m, ops).Keys| && Written(m, ops).Keys == {1, 2};
  }

  /** Every key that is not taken out has its value in its place. */
  ghost predicate Stored<T>(buffer: seq<T>, mappings: map<Felt, nat>, model: map<Felt, T>, open: Option<Felt>) {
    && (open.Some? ==> open.value in mappings)
    && model.Keys <= mappings.Keys
    && (forall k :: k in mappings ==> mappings[k] < |buffer|)
    && (forall k :: k in mappings && open != Some(k) ==> k in model && buffer[mappings[k]] == model[k])
  }

  /** A key taken out, in a buffer that kept its first values. */
  lemma StoredGet<T>(buffer: seq<T>, buffer': seq<T>, mappings: map<Felt, nat>, keys: seq<Felt>, model: map<Felt, T>,
                     key: Felt)
    requires Indexes(mappings, keys) && Stored(buffer, mappings, model, None)
    requires |keys| <= |buffer| && |keys| <= |buffer'| && buffer'[..|keys|] == buffer[..|keys|]
    requires key in mappings || |keys| < |buffer'|
    ensures Stored(buffer', if key in mappings then mappings else mappings[key := |mappings|], model, Some(key))
    ensures key in mappings <==> key in model
    ensures key in mappings ==> mappings[key] < |buffer'| && buffer'[mappings[key]] == model[key]
  {
    forall k | k in mappings ensures mappings[k] < |buffer'| && buffer'[mappings[k]] == buffer[mappings[k]] {
      assert buffer'[..|keys|][mappings[k]] == buffer[..|keys|][mappings[k]];
    }
  }

  lemma StoredAdd<T>(buffer: seq<T>, mappings: map<Felt, nat>, keys: seq<Felt>, model: map<Felt, T>, key: Felt,
                     value: T)
    requires Indexes(mappings, keys) && Stored(buffer, mappings, model, None)
    requires key !in mappings && |mappings| < |buffer|
    ensures Stored(buffer[|mappings| := value], mappings[key := |mappings|], model[key := value], None)
  {
  }

  lemma HasRoom<T>(mappings: map<Felt, nat>, entries: map<Felt, T>, key: Felt)
    requires mappings.Keys <= entries.Keys && key in entries && key !in mappings
    ensures |mappings| < |entries|
  {
    var others := entries.Keys - {key};
    assert others + {key} == entries.Keys && mappings.Keys <= others;
    SubsetSmaller(mappings.Keys, others);
    assert |mappings| == |mappings.Keys| && |entries| == |entries.Keys|;
  }

  lemma {:induction false} SubsetSmaller(a: set<Felt>, b: set<Felt>)
    requires a <= b
    ensures |a| <= |b|
  {
    if a != {} {
      var x :| x in a;
      SubsetSmaller(a - {x}, b - {x});
    }
  }

  /** The key taken out is put back with a new value. */
  lemma StoredFinalize<T>(buffer: seq<T>, mappings: map<Felt, nat>, keys: seq<Felt>, model: map<Felt, T>, key: Felt,
                          value: T)
    requires Indexes(mappings, keys) && Stored(buffer, mappings, model, Some(key))
    ensures Stored(buffer[mappings[key] := value], mappings, model[key := value], None)
  {
  }

  /** Range checks of a squash, besides the two that are always used and one per repeated access. */
  function KeyChecks(keys: set<Felt>): nat {
    if forall k :: k in keys ==> k <= U128_MAX then 3 * |keys| else 2 * |keys| + 4 * (|keys| - 1)
  }

  /** The first key costs 3 range checks, but only 2 if it does not fit 128 bits. */
  lemma FirstKeyChecks(k: Felt)
    ensures KeyChecks({}) == 0
    ensures KeyChecks({k}) == if k < 0x1_0000_0000_0000_0000_0000_0000_0000_0000 then 3 else 2
  {
  }

  /** One more key that fits 128 bits, where all do, costs 3 more. */
  lemma SmallKeyChecks(keys: set<Felt>, k: Felt)
    requires k !in keys && forall x :: x in keys + {k} ==> x < 0x1_0000_0000_0000_0000_0000_0000_0000_0000
    ensures KeyChecks(keys + {k}) == KeyChecks(keys) + 3
  {
    assert |keys + {k}| == |keys| + 1;
  }

  /** One more key of any size, where one does not fit 128 bits, costs 6 more. */
  lemma BigKeyChecks(keys: set<Felt>, k: Felt, big: Felt)
    requires k !in keys && big in keys && big >= 0x1_0000_0000_0000_0000_0000_0000_0000_0000
    ensures KeyChecks(keys + {k}) == KeyChecks(keys) + 6
  {
    assert big in keys + {k} && |keys + {k}| == |keys| + 1;
    assert |keys - {big}| == |keys| - 1;
  }

  /** The gas for a number of accesses. */
  function GasFor(accesses: nat, refundPerAccess: nat): nat {
    accesses * refundPerAccess
  }

  /** A (key, first value, last value) tuple. */
  datatype Entry<T> = Entry(key: Felt, first: T, last: T)

  /** One entry per key, in the order of the keys. */
  ghost predicate Listed<T>(keys: seq<Felt>, entries: seq<Entry<T>>, zero: T, model: map<Felt, T>) {
    && |entries| == |keys|
    && forall i :: 0 <= i < |keys| ==> keys[i] in model && entries[i] == Entry(keys[i], zero, model[keys[i]])
  }

  lemma NoneListed<T>(keys: seq<Felt>, zero: T, model: map<Felt, T>)
    ensures Listed(keys[..0], [], zero, model)
  {
  }

  lemma InIdSet(keys: seq<Felt>, i: nat)
    requires i < |keys|
    ensures keys[i] in IdSet(keys)
  {
  }

  lemma OneListed<T>(keys: seq<Felt>, i: nat, entries: seq<Entry<T>>, zero: T, model: map<Felt, T>)
    requires i < |keys| && Listed(keys[..i], entries, zero, model) && keys[i] in model
    ensures Listed(keys[..i + 1], entries + [Entry(keys[i], zero, model[keys[i]])], zero, model)
  {
    assert keys[..i + 1] == keys[..i] + [keys[i]];
  }

  lemma AllListed<T>(keys: seq<Felt>, entries: seq<Entry<T>>, zero: T, model: map<Felt, T>)
    requires Listed(keys, entries, zero, model) && Increasing(keys) && IdSet(keys) == model.Keys
    ensures |entries| == |keys|
    ensures forall i, j :: 0 <= i < j < |entries| ==> entries[i].key < entries[j].key
    ensures forall i :: 0 <= i < |entries| ==>
      entries[i].key in model && entries[i] == Entry(entries[i].key, zero, model[entries[i].key])
    ensures forall k :: k in model ==> exists i :: 0 <= i < |entries| && entries[i].key == k
  {
    forall k | k in model ensures exists i :: 0 <= i < |entries| && entries[i].key == k {
      assert k in IdSet(keys);
      var i :| 0 <= i < |keys| && keys[i] == k;
      assert entries[i].key == k;
    }
  }

  class FeltDict<T(0)> {
    var mappings: map<Felt, nat>
    var capacity: nat
    var elements: array?<T>
    var count: nat
    /** The zero of the value type. */
    const zero: T
    ghost var keys: seq<Felt>
    /** The map that the dictionary stands for. */
    ghost var model: map<Felt, T>
    /** The key whose entry is taken out, between `Get` and `Finalize`. */
    ghost var open: Option<Felt>
    /** The keys the dictionary was made with. */
    ghost const given: nat

    ghost predicate Valid()
      reads this, elements
    {
      && Indexes(mappings, keys)
      && |keys| <= capacity
      && |Buffer()| == capacity && (capacity == 0 <==> elements == null)
      && Stored(Buffer(), mappings, model, open)
      && |keys| <= given + count
    }

    ghost function Buffer(): seq<T>
      reads this, elements
    {
      if elements == null then [] else elements[..]
    }

    /** An empty dictionary has neither room nor buffer. */
    constructor (zero: T)
      ensures Valid() && model == map[] && open == None && count == 0 && given == 0 && this.zero == zero
    {
      mappings, capacity, elements, count := map[], 0, null, 0;
      keys, model, open, given := [], map[], None, 0;
      this.zero := zero;
    }

    /** A dictionary passed in as an argument, with room for its entries or more: its keys get places in
        whatever order the map gives them, and are not counted as accesses. */
    constructor Given(zero: T, entries: map<Felt, T>)
      ensures Valid() && model == entries && open == None && count == 0 && given == |entries| && this.zero == zero
      ensures fresh(elements) || elements == null
    {
      mappings, capacity, elements, count := map[], 0, null, 0;
      keys, model, open, given := [], map[], None, |entries|;
      this.zero := zero;
      new;
      if |entries| > 0 {
        var room: nat :| |entries| <= room;
        capacity, elements := room, new T[room];
      }
      AddKeys(entries);
    }

    method AddKeys(entries: map<Felt, T>)
      requires Valid() && open == None && model == map[] && mappings == map[] && given == |entries| <= capacity
      modifies this`mappings, this`keys, this`model, elements
      ensures Valid() && model == entries
    {
      hide Valid, Indexes, Stored, Buffer;
      var todo := entries.Keys;
      while todo != {}
        invariant Valid()
        invariant mappings.Keys == model.Keys == entries.Keys - todo && todo <= entries.Keys
        invariant forall k :: k in model ==> model[k] == entries[k]
        decreases |todo|
      {
        var key :| key in todo;
        AddKey(key, entries);
        todo := todo - {key};
      }
      assert model == entries;
    }

    /** One more key, with its value from `entries`, in a buffer that has room for all of them. */
    method AddKey(key: Felt, entries: map<Felt, T>)
      requires Valid() && open == None && key in entries && key !in mappings
      requires mappings.Keys == model.Keys <= entries.Keys && given == |entries| <= capacity
      modifies this`mappings, this`keys, this`model, elements
      ensures Valid() && model == old(model)[key := entries[key]] && mappings.Keys == model.Keys
    {
      hide Indexes, Stored;
      HasRoom(mappings, entries, key);
      SameSize(mappings, keys);
      IndexesGrow(mappings, keys, key);
      StoredAdd(Buffer(), mappings, keys, model, key, entries[key]);
      ghost var before := Buffer();
      elements[|mappings|] := entries[key];
      assert Buffer() == before[|mappings| := entries[key]];
      mappings, keys := mappings[key := |mappings|], keys + [key];
      model := model[key := entries[key]];
    }

    /** The place of a key, whether it has one already or gets one now; the buffer grows along with the
        map, and what was in it is kept. */
    method Get(key: Felt) returns (present: bool, index: nat)
      requires Valid() && open == None
      modifies this
      ensures Valid() && open == Some(key) && model == old(model) && count == old(count) + 1
      ensures key in mappings && index == mappings[key] && (present <==> key in old(model))
      ensures elements != null && index < elements.Length && (present ==> elements[index] == model[key])
      ensures elements == old(elements) || fresh(elements)
      ensures mappings.Keys == old(mappings.Keys) + {key}
    {
      hide Indexes, Stored;
      var numMappings := |mappings|;
      var hasCapacity := numMappings != capacity;
      ghost var before, was, places := Buffer(), mappings, keys;
      present, index := Enter(key);
      if !present && !hasCapacity {
        var more: nat :| capacity < more;
        capacity := more;
        elements := Grow(elements, numMappings, capacity);
      }
      ghost var after := Buffer();
      assert |after| == capacity && after[..|places|] == before[..|places|];
      hide Buffer;
      StoredGet(before, after, was, places, model, key);
      count := count + 1;
      open := Some(key);
    }

    /** The map's own entry for a key, made when there is none. */
    method Enter(key: Felt) returns (present: bool, index: nat)
      requires Indexes(mappings, keys)
      modifies this`mappings, this`keys
      ensures Indexes(mappings, keys) && key in mappings && index == mappings[key]
      ensures present <==> key in old(mappings)
      ensures mappings == if present then old(mappings) else old(mappings)[key := |old(mappings)|]
      ensures keys == if present then old(keys) else old(keys) + [key]
      ensures |mappings| == |keys| && |old(mappings)| == |old(keys)|
    {
      hide Indexes;
      SameSize(mappings, keys);
      present := key in mappings;
      if present {
        index := mappings[key];
      } else {
        IndexesGrow(mappings, keys, key);
        index := |mappings|;
        mappings := mappings[key := index];
        keys := keys + [key];
        SameSize(mappings, keys);
      }
    }

    /** A bigger buffer with the first elements of the old one. */
    method Grow(from: array?<T>, live: nat, size: nat) returns (bigger: array<T>)
      requires live <= size && (from == null ==> live == 0) && (from != null ==> live <= from.Length)
      ensures fresh(bigger) && bigger.Length == size
      ensures from != null ==> bigger[..live] == from[..live]
    {
      bigger := new T[size];
      if from != null {
        forall i | 0 <= i < live {
          bigger[i] := from[i];
        }
      }
    }

    /** Puts a value in the place of the open entry. */
    method Finalize(index: nat, value: T)
      requires Valid() && open.Some? && index == mappings[open.value]
      modifies this`model, this`open, elements
      ensures Valid() && open == None && model == old(model)[old(open).value := value]
    {
      hide Indexes;
      StoredFinalize(Buffer(), mappings, keys, model, open.value, value);
      ghost var before := Buffer();
      elements[index] := value;
      assert Buffer() == before[index := value];
      hide Stored;
      model := model[open.value := value];
      open := None;
    }

    /** Any run of accesses, each reading a value and writing another, sees and leaves what a plain map
        would, and counts its accesses. */
    method Run(ops: seq<(Felt, T)>) returns (seen: seq<T>)
      requires Valid() && open == None && model.Keys == mappings.Keys
      modifies this, elements
      ensures Valid() && open == None && model == Written(old(model), ops) && seen == Seen(old(model), ops, zero)
      ensures count == old(count) + |ops| && model.Keys == mappings.Keys
      ensures elements == old(elements) || fresh(elements)
    {
      hide Valid, Buffer, Indexes, Stored;
      seen := [];
      ghost var start := model;
      var i := 0;
      while i < |ops|
        invariant 0 <= i <= |ops| && Valid() && open == None && model.Keys == mappings.Keys
        invariant model == Written(start, ops[..i]) && seen == Seen(start, ops[..i], zero)
        invariant count == old(count) + i
        invariant elements == old(elements) || fresh(elements)
      {
        OneMore(start, ops, i, zero);
        var present, index := Get(ops[i].0);
        var value := if present then elements[index] else zero;
        Finalize(index, ops[i].1);
        seen := seen + [value];
        i := i + 1;
      }
      assert ops[..i] == ops;
    }

    lemma SameKeys()
      requires Valid() && open == None
      ensures model.Keys == mappings.Keys
    {
    }

    lemma ValueAt(k: Felt)
      requires Valid() && open == None && k in mappings
      ensures elements != null && mappings[k] < elements.Length && k in model && elements[mappings[k]] == model[k]
    {
    }

    /** The entries as an array: in the order of the keys, each with zero and its value. */
    method IntoEntries() returns (entries: seq<Entry<T>>)
      requires Valid() && open == None && model.Keys == mappings.Keys
      ensures |entries| == |model|
      ensures forall i, j :: 0 <= i < j < |entries| ==> entries[i].key < entries[j].key
      ensures forall i :: 0 <= i < |entries| ==>
        entries[i].key in model && entries[i] == Entry(entries[i].key, zero, model[entries[i].key])
      ensures forall k :: k in model ==> exists i :: 0 <= i < |entries| && entries[i].key == k
    {
      hide Valid, Buffer, Indexes, Stored, Sorted, Increasing, Listed, IdSet;
      var sorted := Sorted(mappings.Keys);
      SortedKeeps(mappings.Keys);
      entries := [];
      NoneListed(sorted, zero, model);
      while |entries| < |sorted|
        invariant |entries| <= |sorted|
        invariant Listed(sorted[..|entries|], entries, zero, model)
      {
        var k := sorted[|entries|];
        InIdSet(sorted, |entries|);
        ValueAt(k);
        OneListed(sorted, |entries|, entries, zero, model);
        entries := entries + [Entry(k, zero, elements[mappings[k]])];
      }
      assert sorted[..|entries|] == sorted;
      assert |model| == |model.Keys| && |mappings| == |mappings.Keys|;
      AllListed(sorted, entries, zero, model);
    }

    /** Squashing gives back gas for repeated accesses and takes range checks for keys and accesses. */
    method Squash(rangeCheck: nat, gas: nat, refundPerAccess: nat) returns (rangeCheck': nat, gas': nat)
      requires Valid() && open == None && model.Keys == mappings.Keys
      ensures gas' == gas + GasFor(SaturatingSub(count, |model|), refundPerAccess)
      ensures rangeCheck' == rangeCheck + 2 + KeyChecks(model.Keys) + SaturatingSub(count, |model|)
      ensures count <= |model| ==> gas' == gas && rangeCheck' == rangeCheck + 2 + KeyChecks(model.Keys)
      ensures count > |model| ==> gas' == gas + (count - |model|) * refundPerAccess
      ensures count > |model| ==> rangeCheck' == rangeCheck + 2 + KeyChecks(model.Keys) + (count - |model|)
      ensures given == 0 ==> |model| <= count
      ensures given == 0 ==> gas' == gas + GasFor(count - |model|, refundPerAccess)
    {
      assert |model| == |model.Keys| && |mappings| == |mappings.Keys|;
      gas' := gas + SaturatingSub(count, |mappings|) * refundPerAccess;
      rangeCheck' := rangeCheck + 2;
      var noBigKeys := forall k :: k in mappings ==> k <= U128_MAX;
      var numberOfKeys := |mappings|;
      if noBigKeys {
        rangeCheck' := rangeCheck' + numberOfKeys;
      }
      rangeCheck' := rangeCheck' + 2 * numberOfKeys;
      if !noBigKeys && numberOfKeys > 1 {
        rangeCheck' := rangeCheck' + 4 * (numberOfKeys - 1);
      }
      rangeCheck' := rangeCheck' + SaturatingSub(count, |mappings|);
    }
  }

  lemma RefundedIs<T>(m: map<Felt, T>, ops: seq<(Felt, T)>)
    ensures Refunded(m, ops) == SaturatingSub(|ops|, |Written(m, ops)|)
    ensures KeyChecks(Written(m, ops).Keys) == KeyChecks(m.Keys + Touched(ops))
  {
    WrittenKeys(m, ops);
  }

  /** The life of a dictionary: made from given entries, accessed, and squashed. */
  method MadeAndSquashed<T(0)>(zero: T, entries: map<Felt, T>, ops: seq<(Felt, T)>, rangeCheck: nat, gas: nat,
                               refundPerAccess: nat)
    returns (seen: seq<T>, rangeCheck': nat, gas': nat)
    ensures seen == Seen(entries, ops, zero)
    ensures gas' == gas + GasFor(Refunded(entries, ops), refundPerAccess)
    ensures rangeCheck' == rangeCheck + 2 + KeyChecks(entries.Keys + Touched(ops)) + Refunded(entries, ops)
  {
    hide *;
    RefundedIs(entries, ops);
    var dict := new FeltDict.Given(zero, entries);
    dict.SameKeys();
    seen := dict.Run(ops);
    rangeCheck', gas' := dict.Squash(rangeCheck, gas, refundPerAccess);
  }
}
