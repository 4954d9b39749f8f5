/** A function that the compiler accepts and miscompiles: its entry statement takes nothing, and the loop
    back to it changes the one variable that goes round. */
module LoopExample {
  import opened VarMaps
  import opened Sierra
  import opened Blocks
  import opened Lowering
  import opened Compiler
  import opened Miscompiled

  function Loop(ty: Ty): seq<Statement> {
    [ Invocation(Other(0), [], [Branch(Fallthrough, [], [])]),
      Invocation(Other(1), [0], [Branch(Statement(0), [0], [ty]), Branch(Fallthrough, [0], [ty])]),
      Return([0]) ]
  }

  function LoopFunction(ty: Ty): Function {
    Function(0, 0, [0], [ty], [RetType(false, false)])
  }

  function LoopStructure(ty: Ty): Structure {
    var vars: map<VarId, Ty> := map[0 := ty];
    Structure(map[0 := vars, 1 := vars, 2 := vars], map[0 := 1, 1 := 1, 2 := 1], false)
  }

  lemma LoopConsistent(ty: Ty)
    ensures Consistent(Loop(ty), LoopFunction(ty), LoopStructure(ty).states)
  {
    var states := LoopStructure(ty).states;
    var vars: map<VarId, Ty> := map[0 := ty];
    PutOne(ty);
    assert Rest(vars, []) == vars && Put(vars, [], []) == vars;
    assert Rest(vars, [0]) == map[];
    hide Put, Rest, ZipMap;
    assert ConsistentAt(Loop(ty), states, 0);
    assert ConsistentAt(Loop(ty), states, 1);
    assert ConsistentAt(Loop(ty), states, 2);
  }

  lemma PutOne(ty: Ty)
    ensures ZipMap([0], [ty]) == map[0 := ty] && Put(map[], [0], [ty]) == map[0 := ty]
  {
    IndexOfUnique([0], 0);
  }

  lemma LoopEdges(ty: Ty)
    ensures InEdges(Loop(ty), {0, 1, 2}, 0) == {(1, 0)}
    ensures InEdges(Loop(ty), {0, 1, 2}, 1) == {(0, 0)}
    ensures InEdges(Loop(ty), {0, 1, 2}, 2) == {(1, 1)}
  {
    var stmts := Loop(ty);
    assert IsEdge(stmts, 1, 0, 0) && IsEdge(stmts, 0, 0, 1) && IsEdge(stmts, 1, 1, 2);
  }

  lemma LoopReaches(ty: Ty)
    ensures Reaches(Loop(ty), 0, {0, 1, 2})
  {
    var stmts := Loop(ty);
    assert Targets(stmts, 0) == {Next(0, Branches(stmts[0])[0].target)} == {1};
    var both := Branches(stmts[1]);
    assert Targets(stmts, 1) == {Next(1, both[0].target), Next(1, both[1].target)} == {0, 2};
    assert Targets(stmts, 2) == {};
    forall other | Closed(stmts, other) && 0 in other ensures {0, 1, 2} <= other {
      assert 1 in Targets(stmts, 0) && 1 in other;
      assert 2 in Targets(stmts, 1);
    }
  }

  lemma LoopIsValid(ty: Ty)
    ensures ValidStructure(Loop(ty), LoopFunction(ty), LoopStructure(ty))
  {
    hide Consistent, Reaches, InEdges;
    LoopConsistent(ty);
    LoopEdges(ty);
    LoopReaches(ty);
    assert LoopStructure(ty).states.Keys == {0, 1, 2};
    assert TailCalls(Loop(ty), LoopFunction(ty), LoopStructure(ty).states) == {};
  }

  lemma LoopWalks(ty: Ty)
    ensures !EntryKept(Loop(ty), LoopFunction(ty)) && CanReturn(Loop(ty), {}, LoopFunction(ty))
  {
    var stmts, f := Loop(ty), LoopFunction(ty);
    var round, out := [(0, 0), (1, 0)], [(0, 0), (1, 1)];
    assert IsEdge(stmts, 0, 0, 1) && IsEdge(stmts, 1, 0, 0) && IsEdge(stmts, 1, 1, 2);
    assert Walk(stmts, {}, 0, round, 0) && Walk(stmts, {}, 0, out, 2);
    assert TakenOn(stmts, round, 0) by { assert round[1].0 == 1 && 0 in Operands(stmts[1]); }
    assert 0 in Untaken(stmts, f) by { assert f.params[0] == 0; }
  }

  /** Whatever the second pass makes of it: some meaning of its two libfuncs tells it from the function. */
  lemma LoopMiscompiled(ty: Ty, cm: map<StmtIdx, RegMap>, code: Code, worlds: nat -> World, stale: Value, made: Value)
    requires Lowered(Loop(ty), LoopFunction(ty), LoopStructure(ty), {}, cm, code) && Apart(worlds) && stale != made
    ensures ValidStructure(Loop(ty), LoopFunction(ty), LoopStructure(ty))
    ensures exists exec: Meaning, args, world :: !SameMeaning(Loop(ty), LoopFunction(ty), {}, code, exec, args, world)
  {
    hide Lowered, SameMeaning, CanReturn, EntryKept, EntryLands, ValidStructure;
    LoopIsValid(ty);
    LoopWalks(ty);
    EntryExact(Loop(ty), LoopFunction(ty), LoopStructure(ty), cm, code, worlds, stale, made);
  }

  /** A loop whose second variable is live at the entry and not taken there, but not taken on the way round
      either. */
  function KeptLoop(ty: Ty): seq<Statement> {
    [ Invocation(Other(0), [0], [Branch(Fallthrough, [0], [ty])]),
      Invocation(Other(1), [0], [Branch(Statement(0), [0], [ty]), Branch(Fallthrough, [2], [ty])]),
      Return([1, 2]) ]
  }

  lemma KeptLoopIsKept(ty: Ty)
    ensures var f := Function(0, 0, [0, 1], [ty, ty], [RetType(false, false), RetType(false, false)]);
            EntryKept(KeptLoop(ty), f) && Untaken(KeptLoop(ty), f) == {1}
  {
    var stmts := KeptLoop(ty);
    var f := Function(0, 0, [0, 1], [ty, ty], [RetType(false, false), RetType(false, false)]);
    assert f.params[0] == 0 && f.params[1] == 1;
    forall steps: seq<(StmtIdx, nat)>, x | Walk(stmts, {}, f.entry, steps, f.entry) && x in Untaken(stmts, f)
      ensures !TakenOn(stmts, steps, x)
    {
      forall i | 0 <= i < |steps| ensures steps[i].0 < |stmts| && x !in Operands(stmts[steps[i].0]) {
        assert StepOn(stmts, {}, steps, f.entry, i);
      }
    }
  }
}
