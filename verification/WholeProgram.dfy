/** A whole program: calls of other functions mean what those functions mean, compiled calls what
    their compiled code means. The two agree for calls nested to any depth. */
module WholeProgram {
  import opened VarMaps
  import opened Sierra
  import opened Blocks
  import opened Lowering
  import opened Simulation
  import opened Compiler
  import Recursion

  /** A function together with what compiling it gave. */
  datatype Entry = Entry(f: Function, st: Structure, sites: set<StmtIdx>, cm: map<StmtIdx, RegMap>, code: Code)

  datatype Program = Program(stmts: seq<Statement>, functions: map<nat, Entry>)

  ghost predicate AllCompiled(p: Program) {
    forall g :: g in p.functions ==>
      EntryKept(p.stmts, p.functions[g].f) && forall exec: Meaning :: Compiled(UnitOf(p, p.functions[g], exec))
  }

  ghost function UnitOf(p: Program, e: Entry, exec: Meaning): Unit {
    Unit(p.stmts, e.f, e.st, e.sites, e.cm, e.code, exec)
  }

  /** A call that does not return takes no branch at all. */
  const NO_BRANCH: nat := 1

  ghost function Answered(p: Program, e: Entry, exec: Meaning, args: seq<Value>, world: World): Outcome {
    if a: Recursion.Answer :| Recursion.Answers(p.stmts, e.f, e.sites, exec, args, world, a.values, a.world) then
      Outcome(0, a.world, a.values)
    else
      Outcome(NO_BRANCH, world, [])
  }

  ghost function Returned(e: Entry, exec: Meaning, args: seq<Value>, world: World): Outcome {
    if a: Recursion.Answer :| TReturns(e.code, exec, args, world, a.values, a.world) then
      Outcome(0, a.world, a.values)
    else
      Outcome(NO_BRANCH, world, [])
  }

  /** What libfuncs mean when calls may be nested `depth` deep; `base` gives the meaning of those
      that are not calls. */
  ghost function SourceMeaning(p: Program, base: Meaning, depth: nat): Meaning {
    (libfunc: Libfunc, world: World, args: seq<Value>) =>
      if libfunc.Other? then base(libfunc, world, args)
      else if depth > 0 && libfunc.callee in p.functions then
        Answered(p, p.functions[libfunc.callee], SourceMeaning(p, base, depth - 1), args, world)
      else Outcome(NO_BRANCH, world, [])
  }

  ghost function TargetMeaning(p: Program, base: Meaning, depth: nat): Meaning {
    (libfunc: Libfunc, world: World, args: seq<Value>) =>
      if libfunc.Other? then base(libfunc, world, args)
      else if depth > 0 && libfunc.callee in p.functions then
        Returned(p.functions[libfunc.callee], TargetMeaning(p, base, depth - 1), args, world)
      else Outcome(NO_BRANCH, world, [])
  }

  /** No tail call of any function runs deeper than its counter counts. */
  ghost predicate AllCountable(p: Program, base: Meaning, depth: nat) {
    forall g, k: nat, args, world :: g in p.functions && k < depth ==>
      Countable(p.stmts, p.functions[g].f, p.functions[g].sites, SourceMeaning(p, base, k), args, world)
  }

  ghost predicate SameMeanings(a: Meaning, b: Meaning) {
    forall libfunc, world, args :: a(libfunc, world, args) == b(libfunc, world, args)
  }

  lemma ExecuteSame(code: Code, a: Meaning, b: Meaning, t: Terminator, c: TConfig)
    requires SameMeanings(a, b)
    requires c.TRunning? && c.block in code.arity && Readable(c.regs, ArgRegs(c.block, code.arity[c.block]))
    ensures Execute(code, a, t, c) == Execute(code, b, t, c)
  {
    hide Follow, EnterBlock, Readable;
    if t.RunLibfunc? {
      var args := Read(c.regs, ArgRegs(c.block, code.arity[c.block]));
      assert a(t.libfunc, c.world, args) == b(t.libfunc, c.world, args);
    }
  }

  lemma {:induction false} RunSame(code: Code, a: Meaning, b: Meaning, c: TConfig, n: nat)
    requires SameMeanings(a, b)
    ensures TRun(code, a, c, n) == TRun(code, b, c, n)
  {
    hide Execute, SameMeanings;
    if n > 0 {
      RunSame(code, a, b, c, n - 1);
      var d := TRun(code, a, c, n - 1);
      if d.TRunning? && d.block in code.blocks && |code.blocks[d.block]| == 1 && d.block in code.arity
         && Readable(d.regs, ArgRegs(d.block, code.arity[d.block]))
      {
        ExecuteSame(code, a, b, code.blocks[d.block][0], d);
      }
    }
  }

  /** A block run has at most one outcome. */
  lemma ReturnsOnce(code: Code, exec: Meaning, args: seq<Value>, world: World, v1: seq<Value>, w1: World,
                    v2: seq<Value>, w2: World)
    requires TReturns(code, exec, args, world, v1, w1) && TReturns(code, exec, args, world, v2, w2)
    ensures v1 == v2 && w1 == w2
  {
    var start := TStart(code, args, world);
    var m: nat :| TRun(code, exec, start, m) == TDone(v1, w1);
    var n: nat :| TRun(code, exec, start, n) == TDone(v2, w2);
    if m <= n {
      TRunStops(code, exec, start, m, n);
    } else {
      TRunStops(code, exec, start, n, m);
    }
  }

  lemma CallsSame(p: Program, e: Entry, a: Meaning, b: Meaning, args: seq<Value>, world: World)
    requires SameMeanings(a, b) && Compiled(UnitOf(p, e, a)) && EntryKept(p.stmts, e.f)
    requires Countable(p.stmts, e.f, e.sites, a, args, world)
    ensures Answered(p, e, a, args, world) == Returned(e, b, args, world)
  {
    hide Compiled, EntryKept, Countable, SameMeanings, TReturns, Recursion.Answers;
    CompiledMeansSame(UnitOf(p, e, a), args, world);
    forall values, world' ensures TReturns(e.code, a, args, world, values, world') <==>
        TReturns(e.code, b, args, world, values, world') {
      ReturnsSame(e.code, a, b, args, world, values, world');
    }
    forall v1, w1, v2, w2 | TReturns(e.code, b, args, world, v1, w1) && TReturns(e.code, b, args, world, v2, w2)
      ensures v1 == v2 && w1 == w2 {
      ReturnsOnce(e.code, b, args, world, v1, w1, v2, w2);
    }
    Wrapped(p, e, a, b, args, world);
  }

  lemma Wrapped(p: Program, e: Entry, a: Meaning, b: Meaning, args: seq<Value>, world: World)
    requires SameMeaning(p.stmts, e.f, e.sites, e.code, a, args, world)
    requires forall values, world' :: TReturns(e.code, a, args, world, values, world') <==>
             TReturns(e.code, b, args, world, values, world')
    requires forall v1, w1, v2, w2 ::
      TReturns(e.code, b, args, world, v1, w1) && TReturns(e.code, b, args, world, v2, w2) ==> v1 == v2 && w1 == w2
    ensures Answered(p, e, a, args, world) == Returned(e, b, args, world)
  {
    hide TReturns, Recursion.Answers;
    if x: Recursion.Answer :| Recursion.Answers(p.stmts, e.f, e.sites, a, args, world, x.values, x.world) {
      assert TReturns(e.code, b, args, world, x.values, x.world);
    } else {
      assert forall x: Recursion.Answer :: !TReturns(e.code, b, args, world, x.values, x.world);
    }
  }

  lemma ReturnsSame(code: Code, a: Meaning, b: Meaning, args: seq<Value>, world: World, values: seq<Value>,
                    world': World)
    requires SameMeanings(a, b)
    ensures TReturns(code, a, args, world, values, world') <==> TReturns(code, b, args, world, values, world')
  {
    hide SameMeanings;
    forall n: nat ensures TRun(code, a, TStart(code, args, world), n) == TRun(code, b, TStart(code, args, world), n) {
      RunSame(code, a, b, TStart(code, args, world), n);
    }
  }

  /** Every libfunc, calls included, does the same in the program and in its compiled code. */
  lemma {:induction false} ProgramPreserved(p: Program, base: Meaning, depth: nat)
    requires AllCompiled(p) && AllCountable(p, base, depth)
    ensures SameMeanings(SourceMeaning(p, base, depth), TargetMeaning(p, base, depth))
  {
    hide Compiled, EntryKept, Countable, Answered, Returned;
    if depth > 0 {
      assert AllCountable(p, base, depth - 1);
      ProgramPreserved(p, base, depth - 1);
    }
    forall libfunc, world, args
      ensures SourceMeaning(p, base, depth)(libfunc, world, args) == TargetMeaning(p, base, depth)(libfunc, world, args)
    {
      if libfunc.Call? && depth > 0 && libfunc.callee in p.functions {
        CallsSame(p, p.functions[libfunc.callee], SourceMeaning(p, base, depth - 1), TargetMeaning(p, base, depth - 1),
                  args, world);
      }
    }
  }

  lemma AnsweredIs(p: Program, e: Entry, exec: Meaning, args: seq<Value>, world: World, found: Recursion.Answer)
    ensures var out := Answered(p, e, exec, args, world);
            && (Recursion.Answers(p.stmts, e.f, e.sites, exec, args, world, found.values, found.world) ==>
                  out == Outcome(0, found.world, found.values))
            && (out.branch == 0 ==> Recursion.Answers(p.stmts, e.f, e.sites, exec, args, world, out.results, out.world))
  {
    hide Recursion.Answers;
    var out := Answered(p, e, exec, args, world);
    if a: Recursion.Answer :| Recursion.Answers(p.stmts, e.f, e.sites, exec, args, world, a.values, a.world) {
      assert out.branch == 0;
      assert Recursion.Answers(p.stmts, e.f, e.sites, exec, args, world, out.results, out.world);
      if Recursion.Answers(p.stmts, e.f, e.sites, exec, args, world, found.values, found.world) {
        Recursion.AnswersOnce(p.stmts, e.f, e.sites, exec, args, world, found.values, found.world, out.results,
                              out.world);
      }
    } else {
      assert out.branch == NO_BRANCH;
    }
  }

  lemma ReturnedIs(e: Entry, exec: Meaning, args: seq<Value>, world: World, found: Recursion.Answer)
    ensures var out := Returned(e, exec, args, world);
            && (TReturns(e.code, exec, args, world, found.values, found.world) ==>
                  out == Outcome(0, found.world, found.values))
            && (out.branch == 0 ==> TReturns(e.code, exec, args, world, out.results, out.world))
  {
    hide TReturns;
    var out := Returned(e, exec, args, world);
    if a: Recursion.Answer :| TReturns(e.code, exec, args, world, a.values, a.world) {
      assert out.branch == 0;
      assert TReturns(e.code, exec, args, world, out.results, out.world);
      if TReturns(e.code, exec, args, world, found.values, found.world) {
        ReturnsOnce(e.code, exec, args, world, found.values, found.world, out.results, out.world);
      }
    } else {
      assert out.branch == NO_BRANCH;
    }
  }

  /** A call of a function of the program gives what the function's recursion answers, values and world, by
      the only branch; if there is no answer, no branch is taken. */
  lemma CallsAnswer(p: Program, base: Meaning, depth: nat, g: nat, args: seq<Value>, world: World,
                    values: seq<Value>, world': World)
    requires depth > 0 && g in p.functions
    ensures var (e, exec) := (p.functions[g], SourceMeaning(p, base, depth - 1));
            var out := SourceMeaning(p, base, depth)(Call(g), world, args);
            && (Recursion.Answers(p.stmts, e.f, e.sites, exec, args, world, values, world') ==>
                  out == Outcome(0, world', values))
            && (out.branch == 0 ==> Recursion.Answers(p.stmts, e.f, e.sites, exec, args, world, out.results, out.world))
  {
    hide Recursion.Answers, Answered;
    AnsweredIs(p, p.functions[g], SourceMeaning(p, base, depth - 1), args, world, Recursion.Answer(values, world'));
  }

  /** A compiled call gives what the compiled blocks return. */
  lemma CompiledCallsReturn(p: Program, base: Meaning, depth: nat, g: nat, args: seq<Value>, world: World,
                            values: seq<Value>, world': World)
    requires depth > 0 && g in p.functions
    ensures var (code, exec) := (p.functions[g].code, TargetMeaning(p, base, depth - 1));
            var out := TargetMeaning(p, base, depth)(Call(g), world, args);
            && (TReturns(code, exec, args, world, values, world') ==> out == Outcome(0, world', values))
            && (out.branch == 0 ==> TReturns(code, exec, args, world, out.results, out.world))
  {
    hide TReturns, Returned;
    ReturnedIs(p.functions[g], TargetMeaning(p, base, depth - 1), args, world, Recursion.Answer(values, world'));
  }

  /** What is not a call means what it is given to mean; unknown functions, and calls nested too deep, do not
      come back. */
  lemma OthersMean(p: Program, base: Meaning, depth: nat, libfunc: Libfunc, args: seq<Value>, world: World)
    ensures libfunc.Other? ==>
      SourceMeaning(p, base, depth)(libfunc, world, args) == base(libfunc, world, args)
        == TargetMeaning(p, base, depth)(libfunc, world, args)
    ensures libfunc.Call? && (depth == 0 || libfunc.callee !in p.functions) ==>
      SourceMeaning(p, base, depth)(libfunc, world, args).branch == 1
        == TargetMeaning(p, base, depth)(libfunc, world, args).branch
  {
  }
}
