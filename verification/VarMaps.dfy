/** The compiler's and the interpreter's state: a dictionary from variable ids to whatever
    stands for the variable (a type, an SSA value, a run-time value). `take_vars` and
    `put_vars` are described by what they demand and what they leave. */
module VarMaps {

  type VarId = nat

  predicate NoDup(ids: seq<VarId>) {
    forall i, j :: 0 <= i < j < |ids| ==> ids[i] != ids[j]
  }

  function IdSet(ids: seq<VarId>): set<VarId> {
    set x | x in ids
  }

  /** Taking variables out fails on a missing variable, and so also on a repeated one. */
  predicate CanTake<T>(state: map<VarId, T>, ids: seq<VarId>) {
    NoDup(ids) && forall x :: x in ids ==> x in state
  }

  function Rest<T>(state: map<VarId, T>, ids: seq<VarId>): map<VarId, T> {
    state - IdSet(ids)
  }

  function Lookup<T>(state: map<VarId, T>, ids: seq<VarId>): (vals: seq<T>)
    requires forall x :: x in ids ==> x in state
    ensures |vals| == |ids|
  {
    seq(|ids|, i requires 0 <= i < |ids| => state[ids[i]])
  }

  /** Putting variables in fails when it would override one. */
  predicate CanPut<T>(state: map<VarId, T>, ids: seq<VarId>) {
    NoDup(ids) && forall x :: x in ids ==> x !in state
  }

  predicate IsLast(ids: seq<VarId>, x: VarId, i: nat) {
    i < |ids| && ids[i] == x && forall j :: i < j < |ids| ==> ids[j] != x
  }

  lemma {:induction false} LastExists(ids: seq<VarId>, x: VarId)
    requires x in ids
    ensures exists i: nat :: IsLast(ids, x, i)
  {
    var last := |ids| - 1;
    if ids[last] == x {
      assert IsLast(ids, x, last);
    } else {
      assert ids == ids[..last] + [ids[last]];
      LastExists(ids[..last], x);
      var i: nat :| IsLast(ids[..last], x, i);
      assert IsLast(ids, x, i);
    }
  }

  function IndexOf(ids: seq<VarId>, x: VarId): (i: nat)
    requires x in ids
    ensures IsLast(ids, x, i)
  {
    LastExists(ids, x);
    var i: nat :| IsLast(ids, x, i);
    i
  }

  /** The dictionary that pairs ids with values; on a repeated id the later value wins. */
  function ZipMap<T>(ids: seq<VarId>, vals: seq<T>): (m: map<VarId, T>)
    requires |ids| == |vals|
    ensures m.Keys == IdSet(ids)
  {
    map x | x in ids :: vals[IndexOf(ids, x)]
  }

  function Put<T>(state: map<VarId, T>, ids: seq<VarId>, vals: seq<T>): map<VarId, T>
    requires |ids| == |vals|
  {
    state + ZipMap(ids, vals)
  }

  lemma IndexOfUnique(ids: seq<VarId>, i: nat)
    requires NoDup(ids) && i < |ids|
    ensures IndexOf(ids, ids[i]) == i
  {
  }

  predicate Increasing(ids: seq<VarId>) {
    forall i, j :: 0 <= i < j < |ids| ==> ids[i] < ids[j]
  }

  lemma IdSetCons(x: VarId, tail: seq<VarId>)
    ensures IdSet([x] + tail) == {x} + IdSet(tail)
  {
    forall y ensures y in IdSet([x] + tail) <==> y in {x} + IdSet(tail) {
      if y in tail {
        var i :| 0 <= i < |tail| && tail[i] == y;
        assert ([x] + tail)[i + 1] == y;
      }
      assert ([x] + tail)[0] == x;
    }
  }

  lemma IncreasingCons(x: VarId, tail: seq<VarId>)
    requires Increasing(tail)
    requires forall y :: y in IdSet(tail) ==> x < y
    ensures Increasing([x] + tail)
  {
    forall i, j | 0 <= i < j < |[x] + tail| ensures ([x] + tail)[i] < ([x] + tail)[j] {
      assert tail[j - 1] in IdSet(tail);
    }
  }

  predicate IsLeast(s: set<VarId>, x: VarId) {
    x in s && forall y :: y in s ==> x <= y
  }

  lemma LeastBelow(s: set<VarId>, x: VarId)
    requires x in s
    ensures exists m :: IsLeast(s, m)
    decreases x
  {
    if y :| y in s && y < x {
      LeastBelow(s, y);
    } else {
      assert IsLeast(s, x);
    }
  }

  lemma LeastExists(s: set<VarId>)
    requires s != {}
    ensures exists m :: IsLeast(s, m)
  {
    var x :| x in s;
    LeastBelow(s, x);
  }

  function Least(s: set<VarId>): (x: VarId)
    requires s != {}
    ensures IsLeast(s, x)
  {
    LeastExists(s);
    var x :| IsLeast(s, x);
    x
  }

  lemma {:induction false} SortedExists(s: set<VarId>) returns (ids: seq<VarId>)
    ensures IsSorted(s, ids) && |ids| == |s|
    decreases |s|
  {
    ids := [];
    if s != {} {
      var tail := SortedExists(s - {Least(s)});
      IdSetCons(Least(s), tail);
      IncreasingCons(Least(s), tail);
      ids := [Least(s)] + tail;
    }
  }

  predicate IsSorted(s: set<VarId>, ids: seq<VarId>) {
    IdSet(ids) == s && Increasing(ids)
  }

  lemma FirstIsLeast(s: set<VarId>, ids: seq<VarId>)
    requires IsSorted(s, ids) && ids != []
    ensures s != {} && Least(s) == ids[0] && IsSorted(s - {Least(s)}, ids[1..])
  {
    assert ids == [ids[0]] + ids[1..];
    IdSetCons(ids[0], ids[1..]);
    assert ids[0] in s && IsLeast(s, ids[0]);
    assert ids[0] !in IdSet(ids[1..]);
  }

  lemma SortedEmpty(s: set<VarId>, ids: seq<VarId>)
    requires IsSorted(s, ids)
    ensures ids == [] <==> s == {}
  {
    if ids != [] { assert ids[0] in IdSet(ids); }
  }

  lemma {:induction false} SortedUnique(s: set<VarId>, a: seq<VarId>, b: seq<VarId>)
    requires IsSorted(s, a) && IsSorted(s, b)
    ensures a == b
    decreases |s|
  {
    hide IsSorted;
    SortedEmpty(s, a);
    SortedEmpty(s, b);
    if s != {} {
      FirstIsLeast(s, a);
      FirstIsLeast(s, b);
      SortedUnique(s - {Least(s)}, a[1..], b[1..]);
      assert a == [a[0]] + a[1..] && b == [b[0]] + b[1..];
    }
  }

  lemma SortedOnce(s: set<VarId>)
    ensures exists ids :: IsSorted(s, ids)
    ensures forall a, b :: IsSorted(s, a) && IsSorted(s, b) ==> a == b
  {
    var ids := SortedExists(s);
    forall a, b | IsSorted(s, a) && IsSorted(s, b) ensures a == b { SortedUnique(s, a, b); }
  }

  /** The variable ids in increasing order: the order in which landing blocks take them. */
  function Sorted(s: set<VarId>): (ids: seq<VarId>) {
    SortedOnce(s);
    var ids :| IsSorted(s, ids);
    ids
  }

  lemma SortedKeeps(s: set<VarId>)
    ensures IdSet(Sorted(s)) == s && |Sorted(s)| == |s| && Increasing(Sorted(s))
  {
    var ids := SortedExists(s);
    SortedUnique(s, ids, Sorted(s));
  }
}
