/** Compiling one Sierra function, and what its compiled code means. */
module Compiler {
  import opened VarMaps
  import opened Sierra
  import opened Blocks
  import opened Lowering
  import opened Resets
  import opened Simulation
  import opened KeptEntry
  import Recursion
  import opened StructurePass
  import opened EmissionPass

  /** Recursion never goes deeper than the depth counter can count. */
  ghost predicate Countable(stmts: seq<Statement>, f: Function, sites: set<StmtIdx>, exec: Meaning,
                            args: seq<Value>, world: World)
  {
    forall n: nat :: Depth(Run(stmts, f, sites, exec, Enter(f, args, world, []), n)) < COUNTER_MODULUS
  }

  /** The blocks return exactly what the function, with its tail call a real recursion, answers. */
  ghost predicate SameMeaning(stmts: seq<Statement>, f: Function, sites: set<StmtIdx>, code: Code, exec: Meaning,
                              args: seq<Value>, world: World)
  {
    forall values, world' ::
      Recursion.Answers(stmts, f, sites, exec, args, world, values, world') <==>
          TReturns(code, exec, args, world, values, world')
  }

  lemma CompiledMeansSame(u: Unit, args: seq<Value>, world: World)
    requires Compiled(u) && EntryKept(u.stmts, u.f) && Countable(u.stmts, u.f, u.site, u.exec, args, world)
    ensures SameMeaning(u.stmts, u.f, u.site, u.code, u.exec, args, world)
  {
    hide Compiled, EntryKept;
    forall n: nat ensures OwnDepthCounted(u, args, world, n) {
      CountedUpTo(u, args, world, n);
    }
    forall values, world'
      ensures Recursion.Answers(u.stmts, u.f, u.site, u.exec, args, world, values, world')
         <==> TReturns(u.code, u.exec, args, world, values, world')
    {
      SameReturns(u, args, world, values, world');
      Recursion.ReturnsAnswers(u.stmts, u.f, u.site, u.exec, args, world, values, world');
    }
  }

  lemma CountedUpTo(u: Unit, args: seq<Value>, world: World, n: nat)
    requires Countable(u.stmts, u.f, u.site, u.exec, args, world)
    ensures OwnDepthCounted(u, args, world, n)
  {
    forall i: nat | i <= n ensures Depth(OwnRun(u, args, world, i)) < COUNTER_MODULUS {
      assert OwnRun(u, args, world, i) == Run(u.stmts, u.f, u.site, u.exec, Enter(u.f, args, world, []), i);
    }
  }

  /** Without a tail call nothing is ever stacked, so the counter is never used. */
  lemma {:induction false} NothingStacked(stmts: seq<Statement>, f: Function, exec: Meaning, args: seq<Value>,
                                          world: World, n: nat)
    ensures var c := Run(stmts, f, {}, exec, Enter(f, args, world, []), n); c.Running? ==> c.stack == []
  {
    if n > 0 {
      NothingStacked(stmts, f, exec, args, world, n - 1);
    }
  }

  lemma NonRecursiveCountable(stmts: seq<Statement>, f: Function, exec: Meaning, args: seq<Value>, world: World)
    ensures Countable(stmts, f, {}, exec, args, world)
  {
    forall n: nat ensures Depth(Run(stmts, f, {}, exec, Enter(f, args, world, []), n)) < COUNTER_MODULUS {
      NothingStacked(stmts, f, exec, args, world, n);
    }
  }

  /** The same for the machine in which the variables that the entry statement does not take fall back. */
  ghost predicate ResetCountable(stmts: seq<Statement>, f: Function, sites: set<StmtIdx>, exec: Meaning,
                                 args: seq<Value>, world: World)
  {
    forall n: nat ::
      Depth(ResetRun(stmts, f, Untaken(stmts, f), sites, exec, args, world, n).config) < COUNTER_MODULUS
  }

  ghost predicate ResetMeaning(stmts: seq<Statement>, f: Function, sites: set<StmtIdx>, code: Code, exec: Meaning,
                               args: seq<Value>, world: World)
  {
    forall values, world' ::
      ResetReturns(stmts, f, Untaken(stmts, f), sites, exec, args, world, values, world')
      <==> TReturns(code, exec, args, world, values, world')
  }

  lemma CompiledMeansReset(u: Unit, args: seq<Value>, world: World)
    requires Compiled(u) && ResetCountable(u.stmts, u.f, u.site, u.exec, args, world)
    ensures ResetMeaning(u.stmts, u.f, u.site, u.code, u.exec, args, world)
  {
    hide Compiled, ResetReturns, TReturns;
    forall n: nat ensures DepthCounted(u, args, world, n) {
      ResetCountedUpTo(u, args, world, n);
    }
    forall values, world'
      ensures ResetReturns(u.stmts, u.f, Untaken(u.stmts, u.f), u.site, u.exec, args, world, values, world')
         <==> TReturns(u.code, u.exec, args, world, values, world')
    {
      BlocksReturn(u, args, world, values, world');
    }
  }

  lemma ResetCountedUpTo(u: Unit, args: seq<Value>, world: World, n: nat)
    requires ResetCountable(u.stmts, u.f, u.site, u.exec, args, world)
    ensures DepthCounted(u, args, world, n)
  {
    hide ResetRun;
    forall i: nat | i <= n ensures Depth(SourceRun(u, args, world, i).config) < COUNTER_MODULUS {
      assert SourceRun(u, args, world, i)
          == ResetRun(u.stmts, u.f, Untaken(u.stmts, u.f), u.site, u.exec, args, world, i);
    }
  }

  datatype Compilation =
    | Inconsistent
    | UnsupportedReturn(st: Structure)
    | Success(st: Structure, code: Code, order: seq<StmtIdx>)

  /** Compiling a function. The compiled code means the same as the function for every meaning of
      its libfuncs and on all arguments, provided no way round to the entry statement changes a variable
      that the entry statement leaves alone, and a tail-recursive function hands its results back whole
      and has no return that needs a landing block. Without the first proviso it still means the same
      as the machine in which those variables fall back. */
  method CompileFunc(stmts: seq<Statement>, f: Function) returns (r: Compilation)
    requires Registered(stmts, f)
    requires forall st :: ValidStructure(stmts, f, st) ==> RegisteredCalls(stmts, f, st)
    ensures r.Inconsistent? <==> forall states :: !Consistent(stmts, f, states)
    ensures !r.Inconsistent? ==> ValidStructure(stmts, f, r.st)
    ensures r.UnsupportedReturn? ==> r.st.recursive && HasReturnPointer(f) == NoPointer
    ensures r.Success? ==> NoDup(r.order) && IdSet(r.order) == r.st.states.Keys
    ensures r.Success? && Faithful(stmts, f, r.st) ==>
      forall exec: Meaning, args, world :: Countable(stmts, f, Site(stmts, f, r.st), exec, args, world) ==>
        SameMeaning(stmts, f, Site(stmts, f, r.st), r.code, exec, args, world)
    ensures r.Success? && Runnable(stmts, f, r.st) ==>
      forall exec: Meaning, args, world :: ResetCountable(stmts, f, Site(stmts, f, r.st), exec, args, world) ==>
        ResetMeaning(stmts, f, Site(stmts, f, r.st), r.code, exec, args, world)
  {
    hide ValidStructure, Consistent, Registered, RegisteredCalls, Lowered, Runnable, EntryKept, Countable, SameMeaning,
         ResetCountable, ResetMeaning, Site, NoDup;
    var structure := GenerateFunctionStructure(stmts, f);
    if structure.Err? {
      return Inconsistent;
    }
    var st := structure.value;
    assert exists states :: Consistent(stmts, f, states) by { HasStates(stmts, f, st); }
    var code, cm, order := GenerateCode(stmts, f, st);
    if code.None? {
      return UnsupportedReturn(st);
    }
    r := Success(st, code.value, order);
    forall exec: Meaning, args, world
      | Faithful(stmts, f, st) && Countable(stmts, f, Site(stmts, f, st), exec, args, world)
      ensures SameMeaning(stmts, f, Site(stmts, f, st), code.value, exec, args, world)
    {
      var u := Unit(stmts, f, st, Site(stmts, f, st), cm, code.value, exec);
      assert Compiled(u);
      CompiledMeansSame(u, args, world);
    }
    forall exec: Meaning, args, world
      | Runnable(stmts, f, st) && ResetCountable(stmts, f, Site(stmts, f, st), exec, args, world)
      ensures ResetMeaning(stmts, f, Site(stmts, f, st), code.value, exec, args, world)
    {
      CompiledMeansReset(Unit(stmts, f, st, Site(stmts, f, st), cm, code.value, exec), args, world);
    }
  }

  lemma HasStates(stmts: seq<Statement>, f: Function, st: Structure)
    requires ValidStructure(stmts, f, st)
    ensures Consistent(stmts, f, st.states)
  {
  }
}
