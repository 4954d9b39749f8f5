/** Arrays: growable arena buffers that owners append to in place while snapshots and boxes keep
    pointing into them. */
module Arrays {

  const U32: nat := 0x1_0000_0000

  function Add32(x: nat, y: nat): nat {
    (x + y) % U32
  }

  function Sub32(x: nat, y: nat): nat {
    (x - y) % U32
  }

  lemma NoWrap(x: nat, y: nat)
    ensures x + y < U32 ==> Add32(x, y) == x + y
    ensures y <= x < U32 ==> Sub32(x, y) == x - y
  {
  }

  /** A pointer to an element of a buffer. */
  datatype Pointer = Null | At(block: nat, index: nat)

  function Offset(p: Pointer, k: nat): Pointer {
    if p.Null? then Null else At(p.block, p.index + k)
  }

  /** An array as a program holds it. The data pointer is null until the first append. */
  datatype ArrayAbi = ArrayAbi(ptr: Pointer, since: nat, until: nat, capacity: nat)

  /** Doubled, but at least 8, in 32 bits. */
  function NextCapacity(capacity: nat): nat {
    var doubled := 2 * capacity % U32;
    if doubled < 8 then 8 else doubled
  }

  /** The next capacity holds one more element exactly if doubling does not wrap. */
  lemma NextCapacityGrows(capacity: nat)
    requires capacity < U32
    ensures NextCapacity(capacity) < U32
    ensures NextCapacity(capacity) > capacity <==> capacity < U32 / 2
    ensures capacity < 0x8000_0000 ==> NextCapacity(capacity) == if capacity < 4 then 8 else 2 * capacity
  {
    if capacity < U32 / 2 {
      assert 2 * capacity % U32 == 2 * capacity;
    } else {
      assert 2 * capacity % U32 == 2 * capacity - U32;
    }
  }

  /** What a variable of the program can be, as far as arrays are concerned: the one owner of a
      growable array, a snapshot of one, or a box with elements. */
  datatype Slot = Owner(arr: ArrayAbi) | Snap(arr: ArrayAbi) | Boxed(ptr: Pointer, count: nat)
  {
    function Base(): Pointer {
      if Boxed? then ptr else arr.ptr
    }

    /** Indices from the pointer that the slot may look at. */
    function From(): nat {
      if Boxed? then 0 else arr.since
    }

    function To(): nat {
      if Boxed? then count else arr.until
    }
  }

  predicate Fits<T>(blocks: seq<seq<T>>, s: Slot) {
    && s.From() <= s.To() < U32
    && (s.Base().Null? ==> s.To() == 0)
    && (s.Base().At? ==> s.Base().block < |blocks| && s.Base().index + s.To() <= |blocks[s.Base().block]|)
    && (!s.Boxed? ==> s.arr.until <= s.arr.capacity < U32)
    && (s.Owner? ==> OwnsAll(blocks, s.arr))
  }

  /** An owner's capacity is the size of its buffer. */
  predicate OwnsAll<T>(blocks: seq<seq<T>>, a: ArrayAbi) {
    if a.ptr.Null? then a.capacity == 0
    else a.ptr.index == 0 && a.ptr.block < |blocks| && a.capacity == |blocks[a.ptr.block]|
  }

  /** The elements a slot stands for. */
  function Denote<T>(blocks: seq<seq<T>>, s: Slot): seq<T>
    requires Fits(blocks, s)
  {
    if s.Base().Null? then [] else blocks[s.Base().block][s.Base().index + s.From()..s.Base().index + s.To()]
  }

  ghost predicate Shows<T>(blocks: seq<seq<T>>, s: Slot, items: seq<T>) {
    Fits(blocks, s) && Denote(blocks, s) == items
  }

  /** `y` stays clear of what the owner `x` may still write. */
  predicate Clear(x: Slot, y: Slot) {
    x.Owner? && x.Base().At? && y.Base().At? && x.Base().block == y.Base().block ==>
      !y.Owner? && y.Base().index + y.To() <= x.arr.until
  }

  /** Every variable stands for what it is said to, and out of reach of the owners. */
  ghost predicate Sound<T>(blocks: seq<seq<T>>, vars: map<nat, Slot>, denotes: map<nat, seq<T>>) {
    && vars.Keys == denotes.Keys
    && (forall x :: x in vars ==> Shows(blocks, vars[x], denotes[x]))
    && (forall x, y :: x in vars && y in vars && x != y ==> Clear(vars[x], vars[y]))
  }

  /** `s` only looks where `of` may look. */
  predicate Inside<T>(blocks: seq<seq<T>>, s: Slot, of: Slot) {
    && Fits(blocks, s) && !s.Owner?
    && (s.Base().At? ==>
          of.Base().At? && of.Base().block == s.Base().block && s.Base().index + s.To() <= of.Base().index + of.To())
  }

  lemma ClearInside<T>(blocks: seq<seq<T>>, x: Slot, s: Slot, of: Slot)
    requires Inside(blocks, s, of) && Clear(x, of)
    ensures Clear(x, s) && Clear(s, x)
  {
  }

  lemma ClearOfSource<T>(blocks: seq<seq<T>>, s: Slot, of: Slot)
    requires Inside(blocks, s, of) && Fits(blocks, of)
    ensures Clear(of, s) && Clear(s, of)
  {
  }

  /** Adding, or narrowing to, a slot inside an existing one. */
  lemma DeriveSound<T>(blocks: seq<seq<T>>, vars: map<nat, Slot>, denotes: map<nat, seq<T>>, src: nat, dst: nat,
                       s: Slot)
    requires Sound(blocks, vars, denotes) && src in vars && Inside(blocks, s, vars[src])
    requires dst !in vars || dst == src
    ensures Sound(blocks, vars[dst := s], denotes[dst := Denote(blocks, s)])
  {
    hide Clear, Inside, Fits;
    InsideFits(blocks, s, vars[src]);
    var vars' := vars[dst := s];
    forall x, y | x in vars' && y in vars' && x != y ensures Clear(vars'[x], vars'[y]) {
      var other := if x == dst then y else x;
      if x == dst || y == dst {
        if other == src {
          SoundShows(blocks, vars, denotes, src);
          ClearOfSource(blocks, s, vars[src]);
        } else {
          ClearInside(blocks, vars[other], s, vars[src]);
        }
      }
    }
  }

  lemma InsideFits<T>(blocks: seq<seq<T>>, s: Slot, of: Slot)
    requires Inside(blocks, s, of)
    ensures Fits(blocks, s)
  {
  }

  lemma SoundShows<T>(blocks: seq<seq<T>>, vars: map<nat, Slot>, denotes: map<nat, seq<T>>, x: nat)
    requires Sound(blocks, vars, denotes) && x in vars
    ensures x in denotes && Fits(blocks, vars[x]) && Denote(blocks, vars[x]) == denotes[x]
    ensures |denotes[x]| == vars[x].To() - vars[x].From()
  {
    assert Shows(blocks, vars[x], denotes[x]);
  }

  /** `s` looks at `m` of the elements of `of`, from the `k`th on. */
  predicate IsPart(of: Slot, s: Slot, k: nat, m: nat) {
    && s.To() - s.From() == m && k + m <= of.To() - of.From() && s.From() <= s.To() < U32
    && !s.Owner? && (s.Snap? ==> s.arr.until <= s.arr.capacity < U32)
    && if of.Base().Null? then s.Base().Null? && s.To() == 0 else
         s.Base().At? && s.Base().block == of.Base().block
         && s.Base().index + s.From() == of.Base().index + of.From() + k
  }

  lemma SubSlice<T>(s: seq<T>, a: nat, b: nat, k: nat, m: nat)
    requires a <= b <= |s| && k + m <= b - a
    ensures s[a..b][k..k + m] == s[a + k..a + k + m]
  {
    var left, right := s[a..b][k..k + m], s[a + k..a + k + m];
    assert |left| == |right| == m;
    forall i | 0 <= i < m ensures left[i] == right[i] {
    }
    assert left == right;
  }

  lemma PartFits<T>(blocks: seq<seq<T>>, of: Slot, s: Slot, k: nat, m: nat)
    requires Fits(blocks, of) && IsPart(of, s, k, m)
    ensures Inside(blocks, s, of) && |Denote(blocks, of)| == of.To() - of.From() && k + m <= |Denote(blocks, of)|
  {
  }

  lemma SlotBounds<T>(blocks: seq<seq<T>>, s: Slot)
    requires Fits(blocks, s) && s.Base().At?
    ensures var b := s.Base();
            && b.block < |blocks| && s.From() <= s.To() && b.index + s.To() <= |blocks[b.block]|
            && Denote(blocks, s) == blocks[b.block][b.index + s.From()..b.index + s.To()]
  {
  }

  lemma PartDenotes<T>(blocks: seq<seq<T>>, of: Slot, s: Slot, k: nat, m: nat)
    requires Fits(blocks, of) && Fits(blocks, s) && IsPart(of, s, k, m) && k + m <= |Denote(blocks, of)|
    ensures Denote(blocks, s) == Denote(blocks, of)[k..k + m]
  {
    hide Denote, Fits;
    if of.Base().At? {
      SlotBounds(blocks, of);
      SlotBounds(blocks, s);
      var b, a, e := blocks[of.Base().block], of.Base().index + of.From(), of.Base().index + of.To();
      assert Denote(blocks, of) == b[a..e] && Denote(blocks, s) == b[a + k..a + k + m];
      hide *;
      SubSlice(b, a, e, k, m);
    } else {
      NullDenotes(blocks, of);
      NullDenotes(blocks, s);
    }
  }

  lemma NullDenotes<T>(blocks: seq<seq<T>>, s: Slot)
    requires Fits(blocks, s) && s.Base().Null?
    ensures Denote(blocks, s) == []
  {
  }

  lemma PartInside<T>(blocks: seq<seq<T>>, of: Slot, s: Slot, k: nat, m: nat)
    requires Fits(blocks, of) && IsPart(of, s, k, m)
    ensures Inside(blocks, s, of) && |Denote(blocks, of)| == of.To() - of.From()
    ensures Denote(blocks, s) == Denote(blocks, of)[k..k + m]
  {
    hide Denote, IsPart;
    PartFits(blocks, of, s, k, m);
    PartDenotes(blocks, of, s, k, m);
  }

  lemma Part<T>(blocks: seq<seq<T>>, of: Slot, s: Slot, k: nat, m: nat)
    requires Fits(blocks, of) && IsPart(of, s, k, m)
    ensures Inside(blocks, s, of) && |Denote(blocks, of)| == of.To() - of.From()
    ensures Denote(blocks, s) == Denote(blocks, of)[k..k + m]
    ensures k == 0 ==> Denote(blocks, s) == Denote(blocks, of)[..m]
    ensures k + m == |Denote(blocks, of)| ==> Denote(blocks, s) == Denote(blocks, of)[k..]
    ensures k == 0 && m == |Denote(blocks, of)| ==> Denote(blocks, s) == Denote(blocks, of)
  {
    PartInside(blocks, of, s, k, m);
    hide Fits, Denote;
    var whole := Denote(blocks, of);
    assert k + m == |whole| ==> whole[k..k + m] == whole[k..];
    assert m == |whole| ==> whole[..m] == whole;
  }

  /** The owner popping from its front. */
  lemma AdvanceSound<T>(blocks: seq<seq<T>>, vars: map<nat, Slot>, denotes: map<nat, seq<T>>, x: nat, n: nat)
    requires Sound(blocks, vars, denotes) && x in vars && vars[x].Owner?
    requires n <= |denotes[x]|
    ensures var a := vars[x].arr;
            Sound(blocks, vars[x := Owner(a.(since := a.since + n))], denotes[x := denotes[x][n..]])
  {
    hide Fits, Denote;
    SoundShows(blocks, vars, denotes, x);
    var a := vars[x].arr;
    var s := Owner(a.(since := a.since + n));
    OwnerAdvance(blocks, a, n);
    forall y | y in vars && y != x ensures Clear(s, vars[y]) && Clear(vars[y], s) {
      SoundClear(blocks, vars, denotes, x, y);
    }
    hide Clear, Shows;
    ReplaceSound(blocks, blocks, vars, denotes, x, s, denotes[x][n..]);
  }

  lemma SoundClear<T>(blocks: seq<seq<T>>, vars: map<nat, Slot>, denotes: map<nat, seq<T>>, x: nat, y: nat)
    requires Sound(blocks, vars, denotes) && x in vars && y in vars && x != y
    ensures Clear(vars[x], vars[y]) && Clear(vars[y], vars[x])
  {
    hide Clear, Shows;
  }

  /** A variable replaced, in memory where the others still show what they did. */
  lemma ReplaceSound<T>(blocks: seq<seq<T>>, blocks': seq<seq<T>>, vars: map<nat, Slot>, denotes: map<nat, seq<T>>,
                        x: nat, s: Slot, items: seq<T>)
    requires Sound(blocks, vars, denotes) && x in vars && Shows(blocks', s, items)
    requires forall y :: y in vars && y != x ==> Clear(s, vars[y]) && Clear(vars[y], s)
    requires forall y :: y in vars && y != x ==> Shows(blocks', vars[y], denotes[y])
    ensures Sound(blocks', vars[x := s], denotes[x := items])
  {
    hide Clear, Shows;
  }

  lemma OwnerAdvance<T>(blocks: seq<seq<T>>, a: ArrayAbi, n: nat)
    requires Fits(blocks, Owner(a)) && n <= a.until - a.since
    ensures Shows(blocks, Owner(a.(since := a.since + n)), Denote(blocks, Owner(a))[n..])
  {
    if a.ptr.At? {
      var b := blocks[a.ptr.block];
      assert Denote(blocks, Owner(a)) == b[a.since..a.until];
      assert Denote(blocks, Owner(a.(since := a.since + n))) == b[a.since + n..a.until];
      hide Denote, Fits;
      DropSlice(b, a.since, a.until, n);
    }
  }

  lemma DropSlice<T>(s: seq<T>, a: nat, b: nat, n: nat)
    requires a + n <= b <= |s|
    ensures s[a..b][n..] == s[a + n..b]
  {
  }

  // ----- appending -----

  /** A write past an owner's end, or a new buffer, is out of sight of a slot that is clear of it. */
  lemma UnseenWrite<T>(blocks: seq<seq<T>>, a: ArrayAbi, v: T, y: Slot, items: seq<T>)
    requires Shows(blocks, y, items) && Fits(blocks, Owner(a)) && Clear(Owner(a), y)
    requires a.ptr.At? && a.until < a.capacity && !(y.Owner? && y.Base().At? && y.Base().block == a.ptr.block)
    ensures Shows(blocks[a.ptr.block := blocks[a.ptr.block][a.until := v]], y, items)
  {
  }

  lemma UnseenBlock<T>(blocks: seq<seq<T>>, block: seq<T>, y: Slot, items: seq<T>)
    requires Shows(blocks, y, items)
    ensures Shows(blocks + [block], y, items)
  {
  }

  lemma NewEndClear(a: ArrayAbi, r: ArrayAbi, y: Slot)
    requires r.ptr.At? && r.until == a.until + 1
    requires r.ptr == a.ptr || (y.Base().At? ==> y.Base().block != r.ptr.block)
    requires Clear(Owner(a), y) && Clear(y, Owner(a))
    ensures Clear(Owner(r), y) && Clear(y, Owner(r))
  {
  }

  /** An owner replaced by what appending made of it, in memory where nobody else saw a change. */
  lemma AppendSound<T>(blocks: seq<seq<T>>, blocks': seq<seq<T>>, vars: map<nat, Slot>, denotes: map<nat, seq<T>>,
                       x: nat, r: ArrayAbi, v: T)
    requires Sound(blocks, vars, denotes) && x in vars && vars[x].Owner?
    requires r.ptr.At? && r.until == vars[x].arr.until + 1
    requires r.ptr == vars[x].arr.ptr || r.ptr.block == |blocks|
    requires forall y :: y in vars && y != x ==> Shows(blocks', vars[y], denotes[y])
    requires Shows(blocks', Owner(r), denotes[x] + [v])
    ensures Sound(blocks', vars[x := Owner(r)], denotes[x := denotes[x] + [v]])
  {
    hide Clear, Shows, Fits, Denote;
    forall y | y in vars && y != x ensures Clear(Owner(r), vars[y]) && Clear(vars[y], Owner(r)) {
      SoundClear(blocks, vars, denotes, x, y);
      SoundShows(blocks, vars, denotes, y);
      if vars[y].Base().At? {
        BlockBelow(blocks, vars[y]);
      }
      NewEndClear(vars[x].arr, r, vars[y]);
    }
    ReplaceSound(blocks, blocks', vars, denotes, x, Owner(r), denotes[x] + [v]);
  }

  lemma BlockBelow<T>(blocks: seq<seq<T>>, y: Slot)
    requires Fits(blocks, y) && y.Base().At?
    ensures y.Base().block < |blocks|
  {
  }

  lemma AppendedInPlace<T>(blocks: seq<seq<T>>, a: ArrayAbi, v: T)
    requires Fits(blocks, Owner(a)) && a.ptr.At? && a.until < a.capacity
    ensures Shows(blocks[a.ptr.block := blocks[a.ptr.block][a.until := v]], Owner(a.(until := a.until + 1)),
                  Denote(blocks, Owner(a)) + [v])
  {
    var b := blocks[a.ptr.block];
    assert b[a.until := v][a.since..a.until + 1] == b[a.since..a.until] + [v];
  }

  lemma AppendedToCopy<T>(blocks: seq<seq<T>>, a: ArrayAbi, block: seq<T>, v: T)
    requires Fits(blocks, Owner(a)) && a.until < |block| < U32
    requires a.ptr.At? ==> a.ptr.block < |blocks| && a.until <= |blocks[a.ptr.block]|
                           && block[..a.until] == blocks[a.ptr.block][..a.until]
    ensures Shows(blocks + [block[a.until := v]], Owner(ArrayAbi(At(|blocks|, 0), a.since, a.until + 1, |block|)),
                  Denote(blocks, Owner(a)) + [v])
  {
    hide Fits;
    CopiedLive(blocks, a, block);
    AfterAppend(block, a.since, a.until, v);
    CopyFits(blocks, a, block[a.until := v]);
  }

  lemma CopiedLive<T>(blocks: seq<seq<T>>, a: ArrayAbi, block: seq<T>)
    requires Fits(blocks, Owner(a)) && a.until < |block|
    requires a.ptr.At? ==> a.ptr.block < |blocks| && a.until <= |blocks[a.ptr.block]|
                           && block[..a.until] == blocks[a.ptr.block][..a.until]
    ensures a.since <= a.until && Denote(blocks, Owner(a)) == block[a.since..a.until]
  {
    if a.ptr.At? {
      var b := blocks[a.ptr.block];
      assert b[a.since..a.until] == b[..a.until][a.since..];
      assert block[a.since..a.until] == block[..a.until][a.since..];
    }
  }

  lemma AfterAppend<T>(block: seq<T>, since: nat, until: nat, v: T)
    requires since <= until < |block|
    ensures block[until := v][since..until + 1] == block[since..until] + [v]
  {
  }

  lemma CopyFits<T>(blocks: seq<seq<T>>, a: ArrayAbi, block: seq<T>)
    requires a.since <= a.until < |block| < U32
    ensures var r := ArrayAbi(At(|blocks|, 0), a.since, a.until + 1, |block|);
            Shows(blocks + [block], Owner(r), block[a.since..a.until + 1])
  {
  }

  /** The arena and the variables of a running program that are about arrays of one element type. */
  class Store<T(0)> {
    var blocks: seq<seq<T>>
    var vars: map<nat, Slot>
    var rangeChecks: nat
    /** What each variable stands for. */
    ghost var denotes: map<nat, seq<T>>

    ghost predicate Valid()
      reads this
    {
      Sound(blocks, vars, denotes)
    }

    constructor ()
      ensures Valid() && denotes == map[]
    {
      blocks, vars, rangeChecks, denotes := [], map[], 0, map[];
    }

    method Derive(src: nat, dst: nat, s: Slot)
      requires Valid() && src in vars && Inside(blocks, s, vars[src])
      requires dst !in vars || dst == src
      modifies this`vars, this`denotes
      ensures Valid() && vars == old(vars)[dst := s]
      ensures Fits(blocks, s) && denotes == old(denotes)[dst := Denote(blocks, s)]
    {
      hide Inside, Fits, Sound;
      InsideFits(blocks, s, vars[src]);
      DeriveSound(blocks, vars, denotes, src, dst, s);
      vars := vars[dst := s];
      denotes := denotes[dst := Denote(blocks, s)];
    }

    // ----- arrays that come into being -----

    method NewArray(dst: nat)
      requires Valid() && dst !in vars
      modifies this`vars, this`denotes
      ensures Valid() && denotes == old(denotes)[dst := []] && vars.Keys == old(vars.Keys) + {dst}
    {
      vars := vars[dst := Owner(ArrayAbi(Null, 0, 0, 0))];
      denotes := denotes[dst := []];
    }

    /** An array argument: a buffer with no room to spare. */
    method Input(dst: nat, items: seq<T>)
      requires Valid() && dst !in vars && |items| < U32
      modifies this`blocks, this`vars, this`denotes
      ensures Valid() && denotes == old(denotes)[dst := items] && vars.Keys == old(vars.Keys) + {dst}
    {
      if items == [] {
        NewArray(dst);
      } else {
        hide Fits, Clear, Denote, Sound, Shows;
        InputSound(blocks, vars, denotes, dst, items);
        vars := vars[dst := Owner(ArrayAbi(At(|blocks|, 0), 0, |items|, |items|))];
        blocks := blocks + [items];
        denotes := denotes[dst := items];
      }
    }

    // ----- appending -----

    /** `array_append`: in place while there is room, otherwise into a bigger copy. It changes what the
        owner stands for, and what no other variable stands for. */
    method Append(x: nat, v: T)
      requires Valid() && x in vars && vars[x].Owner?
      requires vars[x].arr.until < vars[x].arr.capacity || vars[x].arr.capacity < U32 / 2
      modifies this`blocks, this`vars, this`denotes
      ensures Valid() && denotes == old(denotes)[x := old(denotes[x]) + [v]]
      ensures vars.Keys == old(vars.Keys) && vars[x].Owner?
      ensures old(vars[x].arr.until < vars[x].arr.capacity) ==> |blocks| == |old(blocks)|
      ensures vars[x].arr.since == old(vars[x].arr.since) && vars[x].arr.until == old(vars[x].arr.until) + 1
      ensures old(vars[x].arr.until < vars[x].arr.capacity) ==>
        vars[x].arr.ptr == old(vars[x].arr.ptr) && vars[x].arr.capacity == old(vars[x].arr.capacity)
      ensures old(vars[x].arr.until == vars[x].arr.capacity) ==>
        var room := 2 * old(vars[x].arr.capacity);
        vars[x].arr.ptr == At(|old(blocks)|, 0) && vars[x].arr.capacity == if room < 8 then 8 else room
    {
      hide NextCapacity, Clear, Fits, Denote, Shows;
      var a := vars[x].arr;
      ghost var before := blocks;
      SoundShows(blocks, vars, denotes, x);
      OwnerFacts(blocks, a);
      NextCapacityGrows(a.capacity);
      NoWrap(a.until, 1);
      if a.ptr.At? && a.until < a.capacity {
        AppendedInPlace(blocks, a, v);
        forall y | y in vars && y != x
          ensures Shows(blocks[a.ptr.block := blocks[a.ptr.block][a.until := v]], vars[y], denotes[y])
        {
          NoSharedOwner(a, vars[y]);
          UnseenWrite(blocks, a, v, vars[y], denotes[y]);
        }
        blocks := blocks[a.ptr.block := blocks[a.ptr.block][a.until := v]];
      } else {
        var capacity := NextCapacity(a.capacity);
        var live := if a.ptr.Null? then [] else blocks[a.ptr.block][..a.until];
        var block := Grow(live, capacity);
        AppendedToCopy(blocks, a, block, v);
        forall y | y in vars && y != x ensures Shows(blocks + [block[a.until := v]], vars[y], denotes[y]) {
          UnseenBlock(blocks, block[a.until := v], vars[y], denotes[y]);
        }
        a := a.(ptr := At(|blocks|, 0), capacity := capacity);
        blocks := blocks + [block[a.until := v]];
      }
      a := a.(until := Add32(a.until, 1));
      AppendSound(before, blocks, vars, denotes, x, a, v);
      vars := vars[x := Owner(a)];
      denotes := denotes[x := denotes[x] + [v]];
    }

    /** A new buffer that begins with what is live; the rest of it is not defined. */
    method Grow(live: seq<T>, capacity: nat) returns (block: seq<T>)
      requires |live| <= capacity
      ensures |block| == capacity && block[..|live|] == live
    {
      var room := new T[capacity];
      block := live + room[|live|..];
    }

    // ----- looking -----

    method SnapshotTake(x: nat, dst: nat)
      requires Valid() && x in vars && !vars[x].Boxed? && dst !in vars
      modifies this`vars, this`denotes
      ensures Valid() && denotes == old(denotes)[dst := old(denotes[x])]
      ensures vars == old(vars)[dst := Snap(old(vars[x].arr))]
    {
      ghost var m := |denotes[x]|;
      hide Fits, Denote, Sound, Inside, Shows, Clear, OwnsAll, Add32, Sub32;
      SoundShows(blocks, vars, denotes, x);
      SlotFacts(blocks, vars[x]);
      Part(blocks, vars[x], Snap(vars[x].arr), 0, m);
      Derive(x, dst, Snap(vars[x].arr));
    }

    method Len(x: nat) returns (n: nat)
      requires Valid() && x in vars && !vars[x].Boxed?
      ensures n == |denotes[x]|
    {
      SoundShows(blocks, vars, denotes, x);
      SlotFacts(blocks, vars[x]);
      NoWrap(vars[x].arr.until, vars[x].arr.since);
      n := Sub32(vars[x].arr.until, vars[x].arr.since);
    }

    /** Pops `n` elements from the front into a box; on failure no variable changes. */
    method PopFront(x: nat, n: nat, multi: bool, dst: nat) returns (ok: bool)
      requires Valid() && x in vars && !vars[x].Boxed? && dst !in vars && n < U32
      modifies this`vars, this`denotes, this`rangeChecks
      ensures Valid() && (ok <==> n <= |old(denotes[x])|)
      ensures !ok ==> vars == old(vars) && denotes == old(denotes)
      ensures ok ==> var items := old(denotes[x]); denotes == old(denotes)[dst := items[..n]][x := items[n..]]
      ensures ok ==> vars.Keys == old(vars.Keys) + {dst} && vars[dst].Boxed?
      ensures ok ==> (vars[x].Owner? <==> old(vars[x].Owner?))
      ensures rangeChecks == old(rangeChecks) + if multi then 1 else 0
    {
      hide Fits, Denote, Sound, Inside, Shows, Clear, OwnsAll, Add32, Sub32;
      if multi {
        rangeChecks := rangeChecks + 1;
      }
      var a := vars[x].arr;
      SoundShows(blocks, vars, denotes, x);
      SlotFacts(blocks, vars[x]);
      NoWrap(a.until, a.since);
      NoWrap(a.since, n);
      ok := n <= Sub32(a.until, a.since);
      if ok {
        ghost var items := denotes[x];
        Part(blocks, vars[x], Boxed(Offset(a.ptr, a.since), n), 0, n);
        Derive(x, dst, Boxed(Offset(a.ptr, a.since), n));
        var since := Add32(a.since, n);
        if vars[x].Owner? {
          AdvanceSound(blocks, vars, denotes, x, n);
          vars := vars[x := Owner(a.(since := since))];
          denotes := denotes[x := denotes[x][n..]];
        } else {
          Part(blocks, vars[x], Snap(a.(since := since)), n, |items| - n);
          Derive(x, x, Snap(a.(since := since)));
        }
      }
    }

    /** Pops `n` elements from the back of a snapshot into a box; on failure no variable changes. */
    method PopBack(x: nat, n: nat, multi: bool, dst: nat) returns (ok: bool)
      requires Valid() && x in vars && vars[x].Snap? && dst !in vars && n < U32
      modifies this`vars, this`denotes, this`rangeChecks
      ensures Valid() && (ok <==> n <= |old(denotes[x])|)
      ensures !ok ==> vars == old(vars) && denotes == old(denotes)
      ensures ok ==> var items := old(denotes[x]); var k := |items| - n;
                     denotes == old(denotes)[dst := items[k..]][x := items[..k]]
      ensures ok ==> vars.Keys == old(vars.Keys) + {dst} && vars[dst].Boxed? && vars[x].Snap?
      ensures rangeChecks == old(rangeChecks) + if multi then 1 else 0
    {
      hide Fits, Denote, Sound, Inside, Shows, Clear, OwnsAll, Add32, Sub32;
      if multi {
        rangeChecks := rangeChecks + 1;
      }
      var a := vars[x].arr;
      SoundShows(blocks, vars, denotes, x);
      SlotFacts(blocks, vars[x]);
      NoWrap(a.until, a.since);
      NoWrap(a.until, n);
      ok := n <= Sub32(a.until, a.since);
      if ok {
        var until := Sub32(a.until, n);
        ghost var items := denotes[x];
        Part(blocks, vars[x], Boxed(Offset(a.ptr, until), n), |items| - n, n);
        Derive(x, dst, Boxed(Offset(a.ptr, until), n));
        Part(blocks, vars[x], Snap(a.(until := until)), 0, |items| - n);
        Derive(x, x, Snap(a.(until := until)));
      }
    }

    /** A box with the element at an index. */
    method Get(x: nat, index: nat, dst: nat) returns (ok: bool)
      requires Valid() && x in vars && vars[x].Snap? && dst !in vars && index < U32
      modifies this`vars, this`denotes, this`rangeChecks
      ensures Valid() && (ok <==> index < |old(denotes[x])|)
      ensures !ok ==> vars == old(vars) && denotes == old(denotes)
      ensures ok ==> denotes == old(denotes)[dst := [old(denotes[x])[index]]] && dst in vars && vars[dst].Boxed?
      ensures rangeChecks == old(rangeChecks) + 1
    {
      hide Fits, Denote, Sound, Inside, Shows, Clear, OwnsAll, Add32, Sub32;
      rangeChecks := rangeChecks + 1;
      var a := vars[x].arr;
      SoundShows(blocks, vars, denotes, x);
      SlotFacts(blocks, vars[x]);
      NoWrap(a.until, a.since);
      NoWrap(a.since, index);
      ok := index < Sub32(a.until, a.since);
      if ok {
        Part(blocks, vars[x], Boxed(Offset(a.ptr, Add32(a.since, index)), 1), index, 1);
        assert denotes[x][index..index + 1] == [denotes[x][index]];
        Derive(x, dst, Boxed(Offset(a.ptr, Add32(a.since, index)), 1));
      }
    }

    /** The bound is checked in 64 bits, so no start and length wrap past it. */
    method Slice(x: nat, start: nat, len: nat, dst: nat) returns (ok: bool)
      requires Valid() && x in vars && vars[x].Snap? && dst !in vars && start < U32 && len < U32
      modifies this`vars, this`denotes, this`rangeChecks
      ensures Valid() && (ok <==> start + len <= |old(denotes[x])|)
      ensures !ok ==> vars == old(vars) && denotes == old(denotes)
      ensures ok ==> denotes == old(denotes)[dst := old(denotes[x])[start..start + len]]
      ensures ok ==> dst in vars && vars[dst].Snap?
      ensures rangeChecks == old(rangeChecks) + 1
    {
      hide Fits, Denote, Sound, Inside, Shows, Clear, OwnsAll, Add32, Sub32;
      rangeChecks := rangeChecks + 1;
      var a := vars[x].arr;
      SoundShows(blocks, vars, denotes, x);
      SlotFacts(blocks, vars[x]);
      NoWrap(a.until, a.since);
      NoWrap(a.since, start);
      NoWrap(a.since + start, len);
      assert (start + len) % (U32 * U32) == start + len;
      ok := (start + len) % (U32 * U32) <= Sub32(a.until, a.since);
      if ok {
        var since := Add32(a.since, start);
        var s := Snap(a.(since := since, until := Add32(since, len)));
        Part(blocks, vars[x], s, start, len);
        Derive(x, dst, s);
      }
    }

    /** A span over the elements of a box. */
    method SpanFromTuple(x: nat, dst: nat)
      requires Valid() && x in vars && vars[x].Boxed? && dst !in vars
      modifies this`vars, this`denotes
      ensures Valid() && denotes == old(denotes)[dst := old(denotes[x])] && dst in vars && vars[dst].Snap?
    {
      hide Fits, Denote, Sound, Inside, Shows, Clear, OwnsAll, Add32, Sub32;
      var n := vars[x].count;
      SoundShows(blocks, vars, denotes, x);
      SlotFacts(blocks, vars[x]);
      Part(blocks, vars[x], Snap(ArrayAbi(vars[x].ptr, 0, n, n)), 0, n);
      Derive(x, dst, Snap(ArrayAbi(vars[x].ptr, 0, n, n)));
    }

    /** A box over the elements of a span, if it has the right number. */
    method TupleFromSpan(x: nat, n: nat, dst: nat) returns (ok: bool)
      requires Valid() && x in vars && vars[x].Snap? && dst !in vars && n < U32
      modifies this`vars, this`denotes
      ensures Valid() && (ok <==> n == |old(denotes[x])|)
      ensures !ok ==> vars == old(vars) && denotes == old(denotes)
      ensures ok ==> denotes == old(denotes)[dst := old(denotes[x])] && dst in vars && vars[dst].Boxed?
    {
      hide Fits, Denote, Sound, Inside, Shows, Clear, OwnsAll, Add32, Sub32;
      var a := vars[x].arr;
      SoundShows(blocks, vars, denotes, x);
      SlotFacts(blocks, vars[x]);
      NoWrap(a.until, a.since);
      ok := Sub32(a.until, a.since) == n;
      if ok {
        Part(blocks, vars[x], Boxed(Offset(a.ptr, a.since), n), 0, n);
        Derive(x, dst, Boxed(Offset(a.ptr, a.since), n));
      }
    }

    /** What a box holds, read from memory whenever it is, is what it held when it was made. */
    method Unbox(x: nat) returns (items: seq<T>)
      requires Valid() && x in vars && vars[x].Boxed?
      ensures items == denotes[x]
    {
      SoundShows(blocks, vars, denotes, x);
      var p, n := vars[x].ptr, vars[x].count;
      items := if p.Null? then [] else blocks[p.block][p.index..p.index + n];
    }

    method Drop(x: nat)
      requires Valid() && x in vars
      modifies this`vars, this`denotes
      ensures Valid() && denotes == old(denotes) - {x} && vars == old(vars) - {x}
    {
      hide Shows, Clear;
      vars := vars - {x};
      denotes := denotes - {x};
    }
  }

  lemma SlotFacts<T>(blocks: seq<seq<T>>, s: Slot)
    requires Fits(blocks, s)
    ensures s.From() <= s.To() < U32 && (s.Base().Null? ==> s.To() == 0)
    ensures !s.Boxed? ==> s.arr.until <= s.arr.capacity < U32
  {
  }

  lemma InputShows<T>(blocks: seq<seq<T>>, items: seq<T>)
    requires |items| < U32
    ensures Shows(blocks + [items], Owner(ArrayAbi(At(|blocks|, 0), 0, |items|, |items|)), items)
  {
  }

  lemma InputSound<T>(blocks: seq<seq<T>>, vars: map<nat, Slot>, denotes: map<nat, seq<T>>, dst: nat, items: seq<T>)
    requires Sound(blocks, vars, denotes) && dst !in vars && |items| < U32
    ensures var a := ArrayAbi(At(|blocks|, 0), 0, |items|, |items|);
            Sound(blocks + [items], vars[dst := Owner(a)], denotes[dst := items])
  {
    hide Fits, Denote;
    var a := ArrayAbi(At(|blocks|, 0), 0, |items|, |items|);
    InputShows(blocks, items);
    forall y | y in vars
      ensures Shows(blocks + [items], vars[y], denotes[y]) && Clear(Owner(a), vars[y]) && Clear(vars[y], Owner(a))
    {
      SoundShows(blocks, vars, denotes, y);
      UnseenBlock(blocks, items, vars[y], denotes[y]);
      ClearOfNew(blocks, a, vars[y]);
    }
    hide Shows, Clear;
  }

  lemma ClearOfNew<T>(blocks: seq<seq<T>>, a: ArrayAbi, y: Slot)
    requires Fits(blocks, y) && a.ptr.At? && a.ptr.block == |blocks|
    ensures Clear(Owner(a), y) && Clear(y, Owner(a))
  {
  }

  lemma OwnerFacts<T>(blocks: seq<seq<T>>, a: ArrayAbi)
    requires Fits(blocks, Owner(a))
    ensures a.since <= a.until <= a.capacity < U32
    ensures a.ptr.Null? ==> a.capacity == 0
    ensures a.ptr.At? ==> a.ptr.index == 0 && a.ptr.block < |blocks| && a.capacity == |blocks[a.ptr.block]|
  {
  }

  lemma NoSharedOwner(a: ArrayAbi, y: Slot)
    requires Clear(Owner(a), y) && a.ptr.At?
    ensures !(y.Owner? && y.Base().At? && y.Base().block == a.ptr.block)
  {
  }
}
