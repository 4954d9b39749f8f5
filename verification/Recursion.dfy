/** Real recursion: the value of a function defined by its own value. The stack machine agrees
    with it, at every depth. */
module Recursion {
  import opened VarMaps
  import opened Sierra
  import opened Options

  datatype Answer = Answer(values: seq<Value>, world: World)

  /** The function's answer from statement `pc` on, if `fuel` suffices to find it. */
  function Eval(stmts: seq<Statement>, f: Function, sites: set<StmtIdx>, exec: Meaning, fuel: nat,
                pc: StmtIdx, vars: map<VarId, Value>, world: World): Option<Answer>
    decreases fuel, 1
  {
    if fuel == 0 || pc >= |stmts| || !CanTake(vars, Operands(stmts[pc])) then
      None
    else
      var values := Lookup(vars, Operands(stmts[pc]));
      var rest := Rest(vars, Operands(stmts[pc]));
      match stmts[pc]
      case Return(_) => Some(Answer(values, world))
      case Invocation(libfunc, _, _) =>
        if pc in sites then
          match EvalCall(stmts, f, sites, exec, fuel - 1, values, world)
          case None => None
          case Some(a) => EvalAfter(stmts, f, sites, exec, fuel - 1, pc, 0, rest, a.world, a.values)
        else
          var out := exec(libfunc, world, values);
          EvalAfter(stmts, f, sites, exec, fuel - 1, pc, out.branch, rest, out.world, out.results)
  }

  /** A call of the function from its entry. */
  function EvalCall(stmts: seq<Statement>, f: Function, sites: set<StmtIdx>, exec: Meaning, fuel: nat,
                    args: seq<Value>, world: World): Option<Answer>
    decreases fuel, 2
  {
    if |args| == |f.params| then Eval(stmts, f, sites, exec, fuel, f.entry, ZipMap(f.params, args), world) else None
  }

  function EvalAfter(stmts: seq<Statement>, f: Function, sites: set<StmtIdx>, exec: Meaning, fuel: nat,
                     s: StmtIdx, b: nat, rest: map<VarId, Value>, world: World, results: seq<Value>): Option<Answer>
    requires s < |stmts|
    decreases fuel, 2
  {
    match Continue(stmts, s, b, rest, world, results, [])
    case Running(pc, vars, w, _) => Eval(stmts, f, sites, exec, fuel, pc, vars, w)
    case Done(_, _) => None
    case Stuck => None
  }

  /** The function called on `args` answers `values`. */
  ghost predicate Answers(stmts: seq<Statement>, f: Function, sites: set<StmtIdx>, exec: Meaning,
                          args: seq<Value>, world: World, values: seq<Value>, world': World)
  {
    exists fuel: nat :: EvalCall(stmts, f, sites, exec, fuel, args, world) == Some(Answer(values, world'))
  }

  // ----- runs -----

  lemma {:induction false} RunAdd(stmts: seq<Statement>, f: Function, sites: set<StmtIdx>, exec: Meaning, c: Config,
                                  m: nat, n: nat)
    ensures Run(stmts, f, sites, exec, Run(stmts, f, sites, exec, c, m), n) == Run(stmts, f, sites, exec, c, m + n)
    decreases n
  {
    hide Step;
    if n > 0 {
      RunAdd(stmts, f, sites, exec, c, m, n - 1);
    }
  }

  lemma {:induction false} StuckForever(stmts: seq<Statement>, f: Function, sites: set<StmtIdx>, exec: Meaning, n: nat)
    ensures Run(stmts, f, sites, exec, Stuck, n) == Stuck
  {
    if n > 0 {
      StuckForever(stmts, f, sites, exec, n - 1);
    }
  }

  lemma RunStep(stmts: seq<Statement>, f: Function, sites: set<StmtIdx>, exec: Meaning, c: Config, n: nat)
    ensures Run(stmts, f, sites, exec, Step(stmts, f, sites, exec, c), n) == Run(stmts, f, sites, exec, c, 1 + n)
  {
    RunAdd(stmts, f, sites, exec, c, 1, n);
    assert Run(stmts, f, sites, exec, c, 0) == c;
  }

  lemma StepOfCall(stmts: seq<Statement>, f: Function, sites: set<StmtIdx>, exec: Meaning,
                   pc: StmtIdx, vars: map<VarId, Value>, world: World, stack: seq<Frame>)
    requires pc < |stmts| && CanTake(vars, Operands(stmts[pc])) && stmts[pc].Invocation? && pc in sites
    requires |Operands(stmts[pc])| == |f.params|
    ensures Step(stmts, f, sites, exec, Running(pc, vars, world, stack)) ==
            Running(f.entry, ZipMap(f.params, Lookup(vars, Operands(stmts[pc]))), world,
                    stack + [Frame(pc, Rest(vars, Operands(stmts[pc])))])
  {
    hide Continue, ZipMap;
  }

  lemma LeaveFrame(stmts: seq<Statement>, pc: StmtIdx, rest: map<VarId, Value>, values: seq<Value>, w: World,
                   stack: seq<Frame>)
    requires pc < |stmts|
    ensures Leave(stmts, values, w, stack + [Frame(pc, rest)]) == Continue(stmts, pc, 0, rest, w, values, stack)
  {
    hide Continue;
    var stack' := stack + [Frame(pc, rest)];
    assert stack'[..|stack|] == stack;
  }

  lemma StepOfLibfunc(stmts: seq<Statement>, f: Function, sites: set<StmtIdx>, exec: Meaning,
                      pc: StmtIdx, vars: map<VarId, Value>, world: World, stack: seq<Frame>)
    requires pc < |stmts| && CanTake(vars, Operands(stmts[pc])) && stmts[pc].Invocation? && pc !in sites
    ensures var out := exec(stmts[pc].libfunc, world, Lookup(vars, Operands(stmts[pc])));
            Step(stmts, f, sites, exec, Running(pc, vars, world, stack)) ==
            Continue(stmts, pc, out.branch, Rest(vars, Operands(stmts[pc])), out.world, out.results, stack)
  {
    hide Continue;
  }

  // ----- recursion is run -----

  lemma EvalOfCall(stmts: seq<Statement>, f: Function, sites: set<StmtIdx>, exec: Meaning, fuel: nat,
                   pc: StmtIdx, vars: map<VarId, Value>, world: World)
    requires Eval(stmts, f, sites, exec, fuel, pc, vars, world).Some? && stmts[pc].Invocation? && pc in sites
    ensures var values := Lookup(vars, Operands(stmts[pc]));
            var rest := Rest(vars, Operands(stmts[pc]));
            var called := EvalCall(stmts, f, sites, exec, fuel - 1, values, world);
            && called.Some? && |values| == |f.params|
            && called == Eval(stmts, f, sites, exec, fuel - 1, f.entry, ZipMap(f.params, values), world)
            && Eval(stmts, f, sites, exec, fuel, pc, vars, world) ==
               EvalAfter(stmts, f, sites, exec, fuel - 1, pc, 0, rest, called.value.world, called.value.values)
  {
  }

  lemma EvalOfLibfunc(stmts: seq<Statement>, f: Function, sites: set<StmtIdx>, exec: Meaning, fuel: nat,
                      pc: StmtIdx, vars: map<VarId, Value>, world: World)
    requires Eval(stmts, f, sites, exec, fuel, pc, vars, world).Some? && stmts[pc].Invocation? && pc !in sites
    ensures var values := Lookup(vars, Operands(stmts[pc]));
            var rest := Rest(vars, Operands(stmts[pc]));
            var out := exec(stmts[pc].libfunc, world, values);
            Eval(stmts, f, sites, exec, fuel, pc, vars, world) ==
            EvalAfter(stmts, f, sites, exec, fuel - 1, pc, out.branch, rest, out.world, out.results)
  {
  }

  lemma EvalDefined(stmts: seq<Statement>, f: Function, sites: set<StmtIdx>, exec: Meaning, fuel: nat,
                    pc: StmtIdx, vars: map<VarId, Value>, world: World)
    requires Eval(stmts, f, sites, exec, fuel, pc, vars, world).Some?
    ensures fuel > 0 && pc < |stmts| && CanTake(vars, Operands(stmts[pc]))
  {
  }

  /** A sub-run started on any stack comes back to that stack with the recursion's answer. */
  lemma {:induction false} EvalRuns(stmts: seq<Statement>, f: Function, sites: set<StmtIdx>, exec: Meaning, fuel: nat,
                                    pc: StmtIdx, vars: map<VarId, Value>, world: World, stack: seq<Frame>)
      returns (n: nat)
    requires Eval(stmts, f, sites, exec, fuel, pc, vars, world).Some?
    ensures var a := Eval(stmts, f, sites, exec, fuel, pc, vars, world).value;
            Run(stmts, f, sites, exec, Running(pc, vars, world, stack), n) == Leave(stmts, a.values, a.world, stack)
    decreases fuel, 2
  {
    EvalDefined(stmts, f, sites, exec, fuel, pc, vars, world);
    hide Eval;
    if stmts[pc].Return? {
      n := ReturnRuns(stmts, f, sites, exec, fuel, pc, vars, world, stack);
    } else if pc in sites {
      n := CallRuns(stmts, f, sites, exec, fuel, pc, vars, world, stack);
    } else {
      n := LibfuncRuns(stmts, f, sites, exec, fuel, pc, vars, world, stack);
    }
  }

  lemma {:induction false} CallRuns(stmts: seq<Statement>, f: Function, sites: set<StmtIdx>, exec: Meaning, fuel: nat,
                                    pc: StmtIdx, vars: map<VarId, Value>, world: World, stack: seq<Frame>)
      returns (n: nat)
    requires Eval(stmts, f, sites, exec, fuel, pc, vars, world).Some? && stmts[pc].Invocation? && pc in sites
    ensures var a := Eval(stmts, f, sites, exec, fuel, pc, vars, world).value;
            Run(stmts, f, sites, exec, Running(pc, vars, world, stack), n) == Leave(stmts, a.values, a.world, stack)
    decreases fuel, 1
  {
    hide Eval, EvalCall, EvalAfter, Continue, Run, Step, Leave, CanTake;
    EvalDefined(stmts, f, sites, exec, fuel, pc, vars, world);
    EvalOfCall(stmts, f, sites, exec, fuel, pc, vars, world);
    StepOfCall(stmts, f, sites, exec, pc, vars, world, stack);
    var c := Running(pc, vars, world, stack);
    var values := Lookup(vars, Operands(stmts[pc]));
    var rest := Rest(vars, Operands(stmts[pc]));
    var stack' := stack + [Frame(pc, rest)];
    var n1 := EvalRuns(stmts, f, sites, exec, fuel - 1, f.entry, ZipMap(f.params, values), world, stack');
    var a := EvalCall(stmts, f, sites, exec, fuel - 1, values, world).value;
    LeaveFrame(stmts, pc, rest, a.values, a.world, stack);
    var n2 := AfterRuns(stmts, f, sites, exec, fuel - 1, pc, 0, rest, a.world, a.values, stack);
    RunStep(stmts, f, sites, exec, c, n1);
    RunAdd(stmts, f, sites, exec, c, 1 + n1, n2);
    n := 1 + n1 + n2;
  }

  lemma {:induction false} LibfuncRuns(stmts: seq<Statement>, f: Function, sites: set<StmtIdx>, exec: Meaning,
                                       fuel: nat,
                                       pc: StmtIdx, vars: map<VarId, Value>, world: World, stack: seq<Frame>)
      returns (n: nat)
    requires Eval(stmts, f, sites, exec, fuel, pc, vars, world).Some? && stmts[pc].Invocation? && pc !in sites
    ensures var a := Eval(stmts, f, sites, exec, fuel, pc, vars, world).value;
            Run(stmts, f, sites, exec, Running(pc, vars, world, stack), n) == Leave(stmts, a.values, a.world, stack)
    decreases fuel, 1
  {
    hide Eval, EvalCall, EvalAfter, Continue, Run, Step, Leave, CanTake;
    EvalDefined(stmts, f, sites, exec, fuel, pc, vars, world);
    EvalOfLibfunc(stmts, f, sites, exec, fuel, pc, vars, world);
    StepOfLibfunc(stmts, f, sites, exec, pc, vars, world, stack);
    var values := Lookup(vars, Operands(stmts[pc]));
    var out := exec(stmts[pc].libfunc, world, values);
    var n2 := AfterRuns(stmts, f, sites, exec, fuel - 1, pc, out.branch, Rest(vars, Operands(stmts[pc])), out.world,
                        out.results, stack);
    RunStep(stmts, f, sites, exec, Running(pc, vars, world, stack), n2);
    n := 1 + n2;
  }

  lemma ReturnRuns(stmts: seq<Statement>, f: Function, sites: set<StmtIdx>, exec: Meaning, fuel: nat,
                   pc: StmtIdx, vars: map<VarId, Value>, world: World, stack: seq<Frame>) returns (n: nat)
    requires Eval(stmts, f, sites, exec, fuel, pc, vars, world).Some? && stmts[pc].Return?
    ensures var a := Eval(stmts, f, sites, exec, fuel, pc, vars, world).value;
            Run(stmts, f, sites, exec, Running(pc, vars, world, stack), n) == Leave(stmts, a.values, a.world, stack)
  {
    assert Run(stmts, f, sites, exec, Running(pc, vars, world, stack), 0) == Running(pc, vars, world, stack);
    n := 1;
  }

  lemma {:induction false} AfterRuns(stmts: seq<Statement>, f: Function, sites: set<StmtIdx>, exec: Meaning, fuel: nat,
                                     s: StmtIdx, b: nat, rest: map<VarId, Value>, world: World, results: seq<Value>,
                                     stack: seq<Frame>)
      returns (n: nat)
    requires s < |stmts| && EvalAfter(stmts, f, sites, exec, fuel, s, b, rest, world, results).Some?
    ensures var a := EvalAfter(stmts, f, sites, exec, fuel, s, b, rest, world, results).value;
            Run(stmts, f, sites, exec, Continue(stmts, s, b, rest, world, results, stack), n)
              == Leave(stmts, a.values, a.world, stack)
    decreases fuel, 3
  {
    var c := Continue(stmts, s, b, rest, world, results, []);
    n := EvalRuns(stmts, f, sites, exec, fuel, c.pc, c.vars, c.world, stack);
  }

  // ----- a run that ends is recursion -----

  lemma {:induction false} MoreFuel(stmts: seq<Statement>, f: Function, sites: set<StmtIdx>, exec: Meaning, fuel: nat,
                                    more: nat,
                                    pc: StmtIdx, vars: map<VarId, Value>, world: World)
    requires fuel <= more && Eval(stmts, f, sites, exec, fuel, pc, vars, world).Some?
    ensures Eval(stmts, f, sites, exec, more, pc, vars, world) == Eval(stmts, f, sites, exec, fuel, pc, vars, world)
    decreases fuel
  {
    var values := Lookup(vars, Operands(stmts[pc]));
    var rest := Rest(vars, Operands(stmts[pc]));
    if stmts[pc].Invocation? {
      var b, w, results := 0, world, values;
      if pc in sites {
        MoreFuel(stmts, f, sites, exec, fuel - 1, more - 1, f.entry, ZipMap(f.params, values), world);
        var a := EvalCall(stmts, f, sites, exec, fuel - 1, values, world).value;
        w, results := a.world, a.values;
      } else {
        var out := exec(stmts[pc].libfunc, world, values);
        b, w, results := out.branch, out.world, out.results;
      }
      var c := Continue(stmts, pc, b, rest, w, results, []);
      MoreFuel(stmts, f, sites, exec, fuel - 1, more - 1, c.pc, c.vars, c.world);
    }
  }

  /** If a run ends then the sub-run from where it stands comes back to the stack it started on,
      and the recursion finds what it comes back with. */
  lemma {:induction false} RunEvals(stmts: seq<Statement>, f: Function, sites: set<StmtIdx>, exec: Meaning,
                                    pc: StmtIdx, vars: map<VarId, Value>, world: World, stack: seq<Frame>, n: nat)
      returns (fuel: nat, m: nat)
    requires Run(stmts, f, sites, exec, Running(pc, vars, world, stack), n).Done?
    ensures 0 < m <= n && Eval(stmts, f, sites, exec, fuel, pc, vars, world).Some?
    ensures var a := Eval(stmts, f, sites, exec, fuel, pc, vars, world).value;
            Run(stmts, f, sites, exec, Running(pc, vars, world, stack), m) == Leave(stmts, a.values, a.world, stack)
    decreases n
  {
    var c := Running(pc, vars, world, stack);
    assert n > 0;
    var c1 := Step(stmts, f, sites, exec, c);
    RunStep(stmts, f, sites, exec, c, n - 1);
    assert c1 != Stuck by { StuckForever(stmts, f, sites, exec, n - 1); }
    var values := Lookup(vars, Operands(stmts[pc]));
    var rest := Rest(vars, Operands(stmts[pc]));
    if stmts[pc].Return? {
      RunStep(stmts, f, sites, exec, c, 0);
      fuel, m := 1, 1;
    } else if pc !in sites {
      var fuel1, m1 := RunEvals(stmts, f, sites, exec, c1.pc, c1.vars, c1.world, stack, n - 1);
      RunStep(stmts, f, sites, exec, c, m1);
      fuel, m := fuel1 + 1, m1 + 1;
    } else {
      fuel, m := CallEvals(stmts, f, sites, exec, pc, vars, world, stack, n);
    }
  }

  lemma {:induction false} CallEvals(stmts: seq<Statement>, f: Function, sites: set<StmtIdx>, exec: Meaning,
                                     pc: StmtIdx, vars: map<VarId, Value>, world: World, stack: seq<Frame>, n: nat)
      returns (fuel: nat, m: nat)
    requires n > 0 && Run(stmts, f, sites, exec, Running(pc, vars, world, stack), n).Done?
    requires pc < |stmts| && CanTake(vars, Operands(stmts[pc])) && stmts[pc].Invocation? && pc in sites
    requires |Operands(stmts[pc])| == |f.params|
    ensures 0 < m <= n && Eval(stmts, f, sites, exec, fuel, pc, vars, world).Some?
    ensures var a := Eval(stmts, f, sites, exec, fuel, pc, vars, world).value;
            Run(stmts, f, sites, exec, Running(pc, vars, world, stack), m) == Leave(stmts, a.values, a.world, stack)
    decreases n, 0
  {
    hide Eval, EvalCall, Continue, Run, Step, Leave;
    StepOfCall(stmts, f, sites, exec, pc, vars, world, stack);
    var c := Running(pc, vars, world, stack);
    var values := Lookup(vars, Operands(stmts[pc]));
    var rest := Rest(vars, Operands(stmts[pc]));
    var stack' := stack + [Frame(pc, rest)];
    RunStep(stmts, f, sites, exec, c, n - 1);
    var entered := ZipMap(f.params, values);
    var fuel1, m1 := RunEvals(stmts, f, sites, exec, f.entry, entered, world, stack', n - 1);
    var a := Eval(stmts, f, sites, exec, fuel1, f.entry, entered, world).value;
    var c2 := Continue(stmts, pc, 0, rest, a.world, a.values, stack);
    LeaveFrame(stmts, pc, rest, a.values, a.world, stack);
    RunStep(stmts, f, sites, exec, c, m1);
    RunAdd(stmts, f, sites, exec, c, 1 + m1, n - 1 - m1);
    assert c2.Running? && c2.stack == stack by {
      StuckForever(stmts, f, sites, exec, n - 1 - m1);
      Continues(stmts, pc, 0, rest, a.world, a.values, stack);
    }
    var fuel2, m2 := RunEvals(stmts, f, sites, exec, c2.pc, c2.vars, c2.world, stack, n - 1 - m1);
    RunAdd(stmts, f, sites, exec, c, 1 + m1, m2);
    var k := if fuel1 < fuel2 then fuel2 else fuel1;
    MoreFuel(stmts, f, sites, exec, fuel1, k, f.entry, entered, world);
    MoreFuel(stmts, f, sites, exec, fuel2, k, c2.pc, c2.vars, c2.world);
    Continues(stmts, pc, 0, rest, a.world, a.values, stack);
    EvalsCall(stmts, f, sites, exec, k, pc, vars, world);
    fuel, m := k + 1, 1 + m1 + m2;
  }

  lemma Continues(stmts: seq<Statement>, s: StmtIdx, b: nat, rest: map<VarId, Value>, world: World, results: seq<Value>,
                  stack: seq<Frame>)
    requires s < |stmts|
    ensures var c, c0 := Continue(stmts, s, b, rest, world, results, stack),
            Continue(stmts, s, b, rest, world, results, []);
            c == Stuck || (c.Running? && c.stack == stack && c0 == Running(c.pc, c.vars, c.world, []))
  {
  }

  lemma EvalsCall(stmts: seq<Statement>, f: Function, sites: set<StmtIdx>, exec: Meaning, k: nat,
                  pc: StmtIdx, vars: map<VarId, Value>, world: World)
    requires pc < |stmts| && CanTake(vars, Operands(stmts[pc])) && stmts[pc].Invocation? && pc in sites
    requires |Operands(stmts[pc])| == |f.params|
    requires Eval(stmts, f, sites, exec, k, f.entry, ZipMap(f.params, Lookup(vars, Operands(stmts[pc]))), world).Some?
    ensures var a := Eval(stmts, f, sites, exec, k, f.entry, ZipMap(f.params, Lookup(vars, Operands(stmts[pc]))),
                          world).value;
            var c := Continue(stmts, pc, 0, Rest(vars, Operands(stmts[pc])), a.world, a.values, []);
            c.Running? ==>
              Eval(stmts, f, sites, exec, k + 1, pc, vars, world)
                == Eval(stmts, f, sites, exec, k, c.pc, c.vars, c.world)
  {
  }

  /** The stack machine returns exactly the recursion's answers. */
  lemma ReturnsAnswers(stmts: seq<Statement>, f: Function, sites: set<StmtIdx>, exec: Meaning,
                       args: seq<Value>, world: World, values: seq<Value>, world': World)
    ensures Returns(stmts, f, sites, exec, args, world, values, world')
       <==> Answers(stmts, f, sites, exec, args, world, values, world')
  {
    hide Run, EvalCall;
    if Answers(stmts, f, sites, exec, args, world, values, world') {
      var fuel: nat :| EvalCall(stmts, f, sites, exec, fuel, args, world) == Some(Answer(values, world'));
      AnswerReturns(stmts, f, sites, exec, args, world, values, world', fuel);
    }
    if Returns(stmts, f, sites, exec, args, world, values, world') {
      var n: nat :| Run(stmts, f, sites, exec, Enter(f, args, world, []), n) == Done(values, world');
      ReturnAnswers(stmts, f, sites, exec, args, world, values, world', n);
    }
  }

  lemma AnswerReturns(stmts: seq<Statement>, f: Function, sites: set<StmtIdx>, exec: Meaning,
                      args: seq<Value>, world: World, values: seq<Value>, world': World, fuel: nat)
    requires EvalCall(stmts, f, sites, exec, fuel, args, world) == Some(Answer(values, world'))
    ensures Returns(stmts, f, sites, exec, args, world, values, world')
  {
    hide Eval;
    assert |args| == |f.params|;
    var n := EvalRuns(stmts, f, sites, exec, fuel, f.entry, ZipMap(f.params, args), world, []);
    hide Run;
    assert Run(stmts, f, sites, exec, Enter(f, args, world, []), n) == Done(values, world');
  }

  lemma ReturnAnswers(stmts: seq<Statement>, f: Function, sites: set<StmtIdx>, exec: Meaning,
                      args: seq<Value>, world: World, values: seq<Value>, world': World, n: nat)
    requires Run(stmts, f, sites, exec, Enter(f, args, world, []), n) == Done(values, world')
    ensures Answers(stmts, f, sites, exec, args, world, values, world')
  {
    hide Eval, Run;
    var start := Enter(f, args, world, []);
    assert start != Stuck by { StuckForever(stmts, f, sites, exec, n); }
    var fuel, m := RunEvals(stmts, f, sites, exec, start.pc, start.vars, world, [], n);
    RunAdd(stmts, f, sites, exec, start, m, n - m);
    var a := Eval(stmts, f, sites, exec, fuel, start.pc, start.vars, world).value;
    DoneForever(stmts, f, sites, exec, a.values, a.world, n - m);
    assert EvalCall(stmts, f, sites, exec, fuel, args, world) == Some(Answer(values, world'));
  }

  lemma {:induction false} DoneForever(stmts: seq<Statement>, f: Function, sites: set<StmtIdx>, exec: Meaning,
                                       values: seq<Value>, world: World, n: nat)
    ensures Run(stmts, f, sites, exec, Done(values, world), n) == Done(values, world)
  {
    if n > 0 {
      DoneForever(stmts, f, sites, exec, values, world, n - 1);
    }
  }

  /** A call has at most one answer. */
  lemma AnswersOnce(stmts: seq<Statement>, f: Function, sites: set<StmtIdx>, exec: Meaning, args: seq<Value>,
                    world: World, v1: seq<Value>, w1: World, v2: seq<Value>, w2: World)
    requires Answers(stmts, f, sites, exec, args, world, v1, w1)
    requires Answers(stmts, f, sites, exec, args, world, v2, w2)
    ensures v1 == v2 && w1 == w2
  {
    hide Answers, Run, Enter;
    ReturnsAnswers(stmts, f, sites, exec, args, world, v1, w1);
    ReturnsAnswers(stmts, f, sites, exec, args, world, v2, w2);
    var start := Enter(f, args, world, []);
    var m: nat :| Run(stmts, f, sites, exec, start, m) == Done(v1, w1);
    var n: nat :| Run(stmts, f, sites, exec, start, n) == Done(v2, w2);
    if m <= n {
      RunAdd(stmts, f, sites, exec, start, m, n - m);
      DoneForever(stmts, f, sites, exec, v1, w1, n - m);
    } else {
      RunAdd(stmts, f, sites, exec, start, n, m - n);
      DoneForever(stmts, f, sites, exec, v2, w2, m - n);
    }
  }
}
