/** Running the compiled blocks of a function follows running the function itself, but for the variables
    that fall back when control comes back to the entry statement. */
module Simulation {
  import opened VarMaps
  import opened Sierra
  import opened Blocks
  import opened Lowering
  import opened Resets

  /** Everything fixed about one compilation. */
  datatype Unit = Unit(
    stmts: seq<Statement>, f: Function, st: Structure,
    site: set<StmtIdx>, cm: map<StmtIdx, RegMap>, code: Code, exec: Meaning)

  ghost predicate Compiled(u: Unit) {
    && ValidStructure(u.stmts, u.f, u.st)
    && Lowered(u.stmts, u.f, u.st, u.site, u.cm, u.code)
    && Runnable(u.stmts, u.f, u.st)
  }

  // ----- the relation -----

  ghost predicate ArgsHeld(ops: seq<VarId>, s: StmtIdx, vars: map<VarId, Value>, regs: Registers) {
    forall j :: 0 <= j < |ops| ==>
      Arg(Body(s), j) in regs && ops[j] in vars && regs[Arg(Body(s), j)] == vars[ops[j]]
  }

  ghost predicate Holds(rm: RegMap, vars: map<VarId, Value>, regs: Registers, live: set<VarId>) {
    forall x :: x in live ==> x in rm && rm[x] in regs && x in vars && regs[rm[x]] == vars[x]
  }

  /** The variables whose registers matter once the body's arguments are set. */
  function Live(u: Unit, s: StmtIdx): set<VarId>
    requires s < |u.stmts| && s in u.st.states
  {
    if u.stmts[s].Invocation? then u.st.states[s].Keys - IdSet(u.stmts[s].args) else u.st.states[s].Keys
  }

  /** The counter counts the frames; all of them wait at the tail call with nothing saved. */
  ghost predicate StackHeld(u: Unit, stack: seq<Frame>, counter: nat) {
    && counter == |stack| < COUNTER_MODULUS
    && forall i :: 0 <= i < |stack| ==> stack[i].site in u.site && stack[i].rest == map[]
  }

  /** The entry block's arguments hold what the latest call was given. */
  ghost predicate LastHeld(f: Function, last: seq<Value>, regs: Registers) {
    && |last| == |f.params|
    && forall i :: 0 <= i < |last| ==> Arg(Entry, i) in regs && regs[Arg(Entry, i)] == last[i]
  }

  ghost predicate AtBody(u: Unit, src: Config, last: seq<Value>, tgt: TConfig) {
    && src.Running? && tgt.TRunning?
    && src.pc < |u.stmts| && src.pc in u.st.states && src.pc in u.cm
    && tgt.block == Body(src.pc) && tgt.world == src.world
    && StackHeld(u, src.stack, tgt.counter) && LastHeld(u.f, last, tgt.regs)
    && src.vars.Keys == u.st.states[src.pc].Keys
    && ArgsHeld(Operands(u.stmts[src.pc]), src.pc, src.vars, tgt.regs)
    && Holds(u.cm[src.pc], src.vars, tgt.regs, Live(u, src.pc))
  }

  ghost predicate Matches(u: Unit, src: Config, last: seq<Value>, tgt: TConfig) {
    || AtBody(u, src, last, tgt)
    || (src.Done? && tgt == TDone(src.values, src.world))
    || (src.Stuck? && tgt.TStuck?)
  }

  ghost function SourceStep(u: Unit, c: Config): Config {
    Step(u.stmts, u.f, u.site, u.exec, c)
  }

  ghost function Back(u: Unit): set<VarId> {
    Untaken(u.stmts, u.f)
  }

  ghost function Arrived(u: Unit, c: Config, last: seq<Value>): Config {
    Arrive(u.f, Back(u), c, last)
  }

  ghost function TargetRun(u: Unit, c: TConfig, k: nat): TConfig {
    TRun(u.code, u.exec, c, k)
  }

  // ----- entering a body -----

  /** What the lowering says about one statement. */
  lemma AtStatement(u: Unit, s: StmtIdx)
    requires Compiled(u) && s in u.cm
    ensures s < |u.stmts| && s in u.st.states && u.cm[s].Keys == u.st.states[s].Keys
    ensures LoweredBody(u.stmts, u.f, u.st, u.site, u.cm, u.code, s)
    ensures forall x :: x in u.cm[s] ==> OldRegister(u.cm[s][x], s)
    ensures ConsistentAt(u.stmts, u.st.states, s)
  {
  }

  lemma HoldsAfter(rm: RegMap, vars: map<VarId, Value>, regs: Registers, more: Registers, live: set<VarId>)
    requires Holds(rm, vars, regs, live)
    requires forall x :: x in live ==> rm[x] !in more
    ensures Holds(rm, vars, regs + more, live)
  {
  }

  /** Arguments of a body change no register that holds a variable, or what the latest call was given. */
  lemma BodyArgsKeep(u: Unit, t: StmtIdx, vars: map<VarId, Value>, last: seq<Value>, vals: seq<Value>, regs: Registers)
    requires Compiled(u) && t in u.cm && t < |u.stmts| && t in u.st.states
    requires LastHeld(u.f, last, regs) && Holds(u.cm[t], vars, regs, Live(u, t))
    ensures LastHeld(u.f, last, regs + ArgMap(Body(t), vals))
    ensures Holds(u.cm[t], vars, regs + ArgMap(Body(t), vals), Live(u, t))
  {
    hide Compiled;
    AtStatement(u, t);
    hide LoweredBody, ConsistentAt;
    forall x | x in Live(u, t) ensures u.cm[t][x] !in ArgMap(Body(t), vals) {
      assert OldRegister(u.cm[t][x], t);
    }
    HoldsAfter(u.cm[t], vars, regs, ArgMap(Body(t), vals), Live(u, t));
  }

  lemma EntersBody(u: Unit, t: StmtIdx, vars: map<VarId, Value>, last: seq<Value>, vals: seq<Value>, regs: Registers,
                   world: World, stack: seq<Frame>, counter: nat)
    requires Compiled(u) && t in u.cm && t < |u.stmts| && t in u.st.states
    requires vars.Keys == u.st.states[t].Keys && StackHeld(u, stack, counter) && LastHeld(u.f, last, regs)
    requires |vals| == |Operands(u.stmts[t])|
    requires forall j :: 0 <= j < |vals| ==> Operands(u.stmts[t])[j] in vars && vals[j] == vars[Operands(u.stmts[t])[j]]
    requires Holds(u.cm[t], vars, regs, Live(u, t))
    ensures AtBody(u, Running(t, vars, world, stack), last, EnterBlock(u.code, Body(t), vals, regs, world, counter))
  {
    hide Compiled, Holds, LastHeld, StackHeld, Live;
    BodyArity(u, t);
    BodyArgsKeep(u, t, vars, last, vals, regs);
  }

  lemma BodyArity(u: Unit, s: StmtIdx)
    requires Compiled(u) && s in u.cm && s < |u.stmts|
    ensures Body(s) in u.code.arity && u.code.arity[Body(s)] == |Operands(u.stmts[s])|
  {
    AtStatement(u, s);
  }

  /** A jump that passes a statement's operands to its body. */
  lemma JumpsToBody(u: Unit, block: BlockId, t: StmtIdx, rm: RegMap, vars: map<VarId, Value>, last: seq<Value>,
                    regs: Registers, world: World, stack: seq<Frame>, counter: nat)
    requires Compiled(u) && t in u.cm && t < |u.stmts| && t in u.st.states
    requires vars.Keys == u.st.states[t].Keys && StackHeld(u, stack, counter) && LastHeld(u.f, last, regs)
    requires block in u.code.blocks && block in u.code.arity
    requires forall x :: x in Operands(u.stmts[t]) ==> x in rm
    requires u.code.blocks[block] == [Jump(Body(t), Lookup(rm, Operands(u.stmts[t])))]
    requires Readable(regs, ArgRegs(block, u.code.arity[block]))
    requires Holds(rm, vars, regs, IdSet(Operands(u.stmts[t])))
    requires Holds(u.cm[t], vars, regs, Live(u, t))
    ensures AtBody(u, Running(t, vars, world, stack), last, TargetRun(u, TRunning(block, regs, world, counter), 1))
  {
    hide Compiled, LastHeld, StackHeld, AtBody, Live;
    var ops := Operands(u.stmts[t]);
    var rs := Lookup(rm, ops);
    forall j | 0 <= j < |rs| ensures rs[j] in regs && ops[j] in vars && regs[rs[j]] == vars[ops[j]] {
      assert ops[j] in IdSet(ops);
    }
    EntersBody(u, t, vars, last, Read(regs, rs), regs, world, stack, counter);
    assert TargetRun(u, TRunning(block, regs, world, counter), 0) == TRunning(block, regs, world, counter);
  }

  // ----- following an edge -----

  /** The operands of an edge are the target's variables after the branch's results are put in. */
  lemma EdgeValues(u: Unit, s: StmtIdx, br: Branch, e: Edge, rm: RegMap, rest: map<VarId, Value>,
                   results: seq<Value>, regs: Registers)
    requires IsEdgeFor(u.stmts, u.st, s, br, rm, e)
    requires |results| == |br.results| && rm.Keys == rest.Keys
    requires Holds(rm, rest, regs, rest.Keys)
    ensures Resolvable(e.operands, regs, results)
    ensures var vars := Put(rest, br.results, results);
            var names := TargetVars(u.stmts, u.st, Next(s, br.target));
            |e.operands| == |names| && forall i :: 0 <= i < |names| ==>
              names[i] in vars && Resolve(e.operands, regs, results)[i] == vars[names[i]]
  {
    var names := TargetVars(u.stmts, u.st, Next(s, br.target));
    forall i | 0 <= i < |names|
      ensures e.operands[i] == OperandFor(br, rm, names[i])
    {
    }
  }

  /** Registers hold the variables after the results are put in. */
  lemma HoldsPut(rm: RegMap, ids: seq<VarId>, rs: seq<Reg>, vars: map<VarId, Value>, vals: seq<Value>, regs: Registers)
    requires |ids| == |rs| == |vals| && rm.Keys == vars.Keys
    requires Holds(rm, vars, regs, vars.Keys)
    requires forall i :: 0 <= i < |rs| ==> rs[i] in regs && regs[rs[i]] == vals[i]
    ensures Holds(Put(rm, ids, rs), Put(vars, ids, vals), regs, Put(vars, ids, vals).Keys)
  {
  }

  lemma HoldsSubset(rm: RegMap, vars: map<VarId, Value>, regs: Registers, more: set<VarId>, less: set<VarId>)
    requires Holds(rm, vars, regs, more) && less <= more
    ensures Holds(rm, vars, regs, less)
  {
  }

  /** A landing block's arguments hold the live variables. */
  lemma LandingHolds(st: Structure, t: StmtIdx, vars: map<VarId, Value>, vals: seq<Value>, regs: Registers)
    requires t in st.states && vars.Keys == st.states[t].Keys
    requires |vals| == |LandingVars(st, t)|
    requires forall i :: 0 <= i < |vals| ==> LandingVars(st, t)[i] in vars && vals[i] == vars[LandingVars(st, t)[i]]
    ensures Holds(LandingRegs(st, t), vars, regs + ArgMap(Landing(t), vals), vars.Keys)
  {
    hide LandingVars, LandingRegs, ArgMap;
    forall x | x in vars
      ensures x in LandingRegs(st, t) && LandingRegs(st, t)[x] in regs + ArgMap(Landing(t), vals)
      ensures (regs + ArgMap(Landing(t), vals))[LandingRegs(st, t)[x]] == vars[x]
    {
      var i := LandingPlace(st, t, x);
      ArgPut(Landing(t), vals, i);
    }
  }

  lemma LandingPlace(st: Structure, t: StmtIdx, x: VarId) returns (i: nat)
    requires t in st.states && x in st.states[t]
    ensures i < |LandingVars(st, t)| && LandingVars(st, t)[i] == x
    ensures x in LandingRegs(st, t) && LandingRegs(st, t)[x] == Arg(Landing(t), i)
  {
    hide Sorted;
    SortedKeeps(st.states[t].Keys);
    assert x in IdSet(LandingVars(st, t));
    i := IndexOf(LandingVars(st, t), x);
  }

  lemma ArgPut(block: BlockId, vals: seq<Value>, i: nat)
    requires i < |vals|
    ensures Arg(block, i) in ArgMap(block, vals) && ArgMap(block, vals)[Arg(block, i)] == vals[i]
  {
  }

  lemma StatesAfter(u: Unit, s: StmtIdx, b: nat, rest: map<VarId, Value>, results: seq<Value>)
    requires Compiled(u) && s in u.cm && s < |u.stmts| && s in u.st.states && b < |Branches(u.stmts[s])|
    requires rest.Keys == u.st.states[s].Keys - IdSet(Operands(u.stmts[s]))
    requires |results| == |Branches(u.stmts[s])[b].results|
    ensures var br := Branches(u.stmts[s])[b];
            var t := Next(s, br.target);
            && t in u.cm && t in u.st.states && t < |u.stmts|
            && CanPut(rest, br.results)
            && Put(rest, br.results, results).Keys == u.st.states[t].Keys
  {
    var br := Branches(u.stmts[s])[b];
    var t := Next(s, br.target);
    assert ConsistentBranch(u.stmts, u.st.states, s, Rest(u.st.states[s], Operands(u.stmts[s])), br) by {
      AtStatement(u, s);
    }
    assert t in u.cm && t < |u.stmts| by { CodeCovers(u, t); }
  }

  lemma CodeCovers(u: Unit, t: StmtIdx)
    requires Compiled(u) && t in u.st.states
    ensures t in u.cm && t < |u.stmts|
  {
  }

  /** The live variables at the entry are the ones that fall back there. */
  lemma LiveAtEntry(u: Unit)
    requires Compiled(u) && u.f.entry < |u.stmts| && u.f.entry in u.st.states
    ensures Live(u, u.f.entry) == Back(u)
    ensures u.st.HasLanding(u.f.entry) ==> Back(u) == {}
  {
    assert u.st.states[u.f.entry].Keys == IdSet(u.f.params);
  }

  /** What control finds on arriving at a statement. */
  ghost function Found(u: Unit, t: StmtIdx, vars: map<VarId, Value>, last: seq<Value>): map<VarId, Value>
    requires |last| == |u.f.params|
  {
    if t == u.f.entry then Fallen(u.f, Back(u), vars, last) else vars
  }

  lemma FallenFacts(f: Function, back: set<VarId>, vars: map<VarId, Value>, last: seq<Value>)
    requires |last| == |f.params| && (forall x :: x in back ==> x in vars)
    ensures Fallen(f, back, vars, last).Keys == vars.Keys
    ensures forall x :: x in vars && x !in back ==> Fallen(f, back, vars, last)[x] == vars[x]
    ensures back == {} ==> Fallen(f, back, vars, last) == vars
  {
    if back == {} {
      assert Fallen(f, back, vars, last) == vars;
    }
  }

  lemma FallenHeld(f: Function, back: set<VarId>, vars: map<VarId, Value>, last: seq<Value>, regs: Registers)
    requires LastHeld(f, last, regs) && (forall x :: x in back ==> x in f.params)
    ensures Holds(EntryRegs(f), Fallen(f, back, vars, last), regs, back)
  {
  }

  /** Only variables that the statement leaves alone fall back. */
  lemma FoundFacts(u: Unit, t: StmtIdx, vars: map<VarId, Value>, last: seq<Value>)
    requires Compiled(u) && t < |u.stmts| && t in u.st.states
    requires vars.Keys == u.st.states[t].Keys && |last| == |u.f.params|
    ensures Found(u, t, vars, last).Keys == vars.Keys
    ensures u.stmts[t].Invocation? ==>
      forall x :: x in Operands(u.stmts[t]) && x in vars ==> Found(u, t, vars, last)[x] == vars[x]
    ensures u.st.HasLanding(t) ==> Found(u, t, vars, last) == vars
  {
    if t == u.f.entry {
      LiveAtEntry(u);
      hide Compiled, Fallen;
      FallenFacts(u.f, Back(u), vars, last);
    }
  }

  /** An entry statement that is a return is the only statement. */
  lemma OnlyReturn(u: Unit, s: StmtIdx)
    requires Compiled(u) && s in u.st.states
    requires u.f.entry < |u.stmts| && u.stmts[u.f.entry].Return?
    ensures s == u.f.entry
  {
    assert Closed(u.stmts, {u.f.entry});
  }

  lemma FoundHolds(u: Unit, vars: map<VarId, Value>, last: seq<Value>, regs: Registers)
    requires Compiled(u) && u.f.entry < |u.stmts| && u.f.entry in u.st.states && u.f.entry in u.cm
    requires vars.Keys == u.st.states[u.f.entry].Keys && LastHeld(u.f, last, regs) && !u.st.HasLanding(u.f.entry)
    ensures Holds(u.cm[u.f.entry], Fallen(u.f, Back(u), vars, last), regs, Live(u, u.f.entry))
  {
    LiveAtEntry(u);
    EntryFacts(u);
    hide Compiled, Fallen, EntryRegs, Holds, LastHeld, Live;
    assert forall x :: x in Back(u) ==> x in u.f.params;
    FallenHeld(u.f, Back(u), vars, last, regs);
  }


  lemma RegistersAfter(u: Unit, s: StmtIdx, b: nat, t: StmtIdx)
    requires Compiled(u) && s in u.cm && t in u.cm && IsEdge(u.stmts, s, b, t)
    requires t != u.f.entry && !u.st.HasLanding(t)
    ensures var br := Branches(u.stmts[s])[b];
            u.cm[t] == Put(Rest(u.cm[s], Operands(u.stmts[s])), br.results, BranchRegs(u.site, s, b, |br.results|))
  {
  }

  lemma AtLanding(u: Unit, t: StmtIdx)
    requires Compiled(u) && t in u.cm && t < |u.stmts| && t in u.st.states && u.st.HasLanding(t)
    ensures LoweredLanding(u.stmts, u.st, u.cm, u.code, t) && u.cm[t] == LandingRegs(u.st, t)
  {
  }

  lemma LiveWithin(u: Unit, t: StmtIdx)
    requires t < |u.stmts| && t in u.st.states
    ensures Live(u, t) <= u.st.states[t].Keys
  {
  }

  ghost predicate ResultsHeld(rs: seq<Reg>, results: seq<Value>, regs: Registers) {
    |rs| == |results| && forall i :: 0 <= i < |rs| ==> rs[i] in regs && regs[rs[i]] == results[i]
  }

  lemma FoundByEdge(u: Unit, s: StmtIdx, b: nat, rest: map<VarId, Value>, results: seq<Value>, last: seq<Value>,
                    regs: Registers)
    requires Compiled(u) && s in u.cm && s < |u.stmts| && s in u.st.states && b < |Branches(u.stmts[s])|
    requires var br := Branches(u.stmts[s])[b];
             && |results| == |br.results| && !u.st.HasLanding(Next(s, br.target))
             && ResultsHeld(BranchRegs(u.site, s, b, |br.results|), results, regs)
    requires rest.Keys == u.st.states[s].Keys - IdSet(Operands(u.stmts[s]))
    requires Holds(Rest(u.cm[s], Operands(u.stmts[s])), rest, regs, rest.Keys)
    requires LastHeld(u.f, last, regs)
    ensures var t := Next(s, Branches(u.stmts[s])[b].target);
            && t in u.cm && t < |u.stmts| && t in u.st.states
            && Holds(u.cm[t], Found(u, t, Put(rest, Branches(u.stmts[s])[b].results, results), last), regs, Live(u, t))
  {
    hide Compiled, LastHeld;
    var br := Branches(u.stmts[s])[b];
    var t := Next(s, br.target);
    var rm := Rest(u.cm[s], Operands(u.stmts[s]));
    var vars := Put(rest, br.results, results);
    StatesAfter(u, s, b, rest, results);
    hide ResultsHeld, Live, Fallen, Holds;
    if t == u.f.entry {
      FoundHolds(u, vars, last, regs);
    } else {
      RegistersAfter(u, s, b, t);
      assert rm.Keys == rest.Keys by { AtStatement(u, s); }
      PutHeld(u, s, b, rm, rest, results, regs);
      LiveWithin(u, t);
      HoldsSubset(u.cm[t], vars, regs, vars.Keys, Live(u, t));
    }
  }

  lemma PutHeld(u: Unit, s: StmtIdx, b: nat, rm: RegMap, rest: map<VarId, Value>, results: seq<Value>, regs: Registers)
    requires s < |u.stmts| && b < |Branches(u.stmts[s])| && |results| == |Branches(u.stmts[s])[b].results|
    requires ResultsHeld(BranchRegs(u.site, s, b, |results|), results, regs)
    requires rm.Keys == rest.Keys && Holds(rm, rest, regs, rest.Keys)
    ensures var ids := Branches(u.stmts[s])[b].results;
            Holds(Put(rm, ids, BranchRegs(u.site, s, b, |ids|)), Put(rest, ids, results), regs,
                  Put(rest, ids, results).Keys)
  {
    hide Holds, Put, BranchRegs;
    HoldsPut(rm, Branches(u.stmts[s])[b].results, BranchRegs(u.site, s, b, |results|), rest, results, regs);
  }

  lemma FollowsToBody(u: Unit, s: StmtIdx, b: nat, e: Edge, rest: map<VarId, Value>, results: seq<Value>,
                      last: seq<Value>, regs: Registers, world: World, stack: seq<Frame>, counter: nat)
    requires Compiled(u) && s in u.cm && s < |u.stmts| && s in u.st.states && b < |Branches(u.stmts[s])|
    requires var br := Branches(u.stmts[s])[b];
             && IsEdgeFor(u.stmts, u.st, s, br, Rest(u.cm[s], Operands(u.stmts[s])), e)
             && |results| == |br.results| && !u.st.HasLanding(Next(s, br.target))
             && ResultsHeld(BranchRegs(u.site, s, b, |br.results|), results, regs)
    requires rest.Keys == u.st.states[s].Keys - IdSet(Operands(u.stmts[s]))
    requires Holds(Rest(u.cm[s], Operands(u.stmts[s])), rest, regs, rest.Keys)
    requires StackHeld(u, stack, counter) && LastHeld(u.f, last, regs)
    ensures var br := Branches(u.stmts[s])[b];
            var t := Next(s, br.target);
            AtBody(u, Running(t, Found(u, t, Put(rest, br.results, results), last), world, stack), last,
                   Follow(u.code, e, regs, results, world, counter))
  {
    hide Compiled, AtBody, Found, Live, StackHeld;
    var br := Branches(u.stmts[s])[b];
    var t := Next(s, br.target);
    var rm := Rest(u.cm[s], Operands(u.stmts[s]));
    var vars := Put(rest, br.results, results);
    StatesAfter(u, s, b, rest, results);
    assert rm.Keys == rest.Keys by { AtStatement(u, s); }
    EdgeValues(u, s, br, e, rm, rest, results, regs);
    FoundByEdge(u, s, b, rest, results, last, regs);
    FoundFacts(u, t, vars, last);
    OperandsFound(u, s, b, vars, last);
    hide Holds, ResultsHeld, Put;
    EntersBody(u, t, Found(u, t, vars, last), last, Resolve(e.operands, regs, results), regs, world, stack, counter);
  }

  lemma OperandsFound(u: Unit, s: StmtIdx, b: nat, vars: map<VarId, Value>, last: seq<Value>)
    requires Compiled(u) && s < |u.stmts| && s in u.st.states && b < |Branches(u.stmts[s])|
    requires var t := Next(s, Branches(u.stmts[s])[b].target);
             t < |u.stmts| && t in u.st.states && t in u.cm && vars.Keys == u.st.states[t].Keys
    requires |last| == |u.f.params|
    ensures var t := Next(s, Branches(u.stmts[s])[b].target);
            forall x :: x in Operands(u.stmts[t]) && x in vars ==>
              x in Found(u, t, vars, last) && Found(u, t, vars, last)[x] == vars[x]
  {
    hide Compiled;
    var t := Next(s, Branches(u.stmts[s])[b].target);
    FoundFacts(u, t, vars, last);
    if t == u.f.entry && u.stmts[t].Return? {
      OnlyReturn(u, s);
      assert false;
    }
  }

  lemma LandingArgs(f: Function, t: StmtIdx, last: seq<Value>, vals: seq<Value>, regs: Registers)
    requires LastHeld(f, last, regs)
    ensures LastHeld(f, last, regs + ArgMap(Landing(t), vals))
    ensures Readable(regs + ArgMap(Landing(t), vals), ArgRegs(Landing(t), |vals|))
  {
  }

  /** A landing block takes the live variables and jumps to its statement's body. */
  lemma FromLanding(u: Unit, t: StmtIdx, vars: map<VarId, Value>, last: seq<Value>, vals: seq<Value>,
                    regs: Registers, world: World, stack: seq<Frame>, counter: nat)
    requires Compiled(u) && t in u.cm && t < |u.stmts| && t in u.st.states && u.st.HasLanding(t)
    requires vars.Keys == u.st.states[t].Keys && |vals| == |LandingVars(u.st, t)|
    requires forall i :: 0 <= i < |vals| ==> LandingVars(u.st, t)[i] in vars && vals[i] == vars[LandingVars(u.st, t)[i]]
    requires StackHeld(u, stack, counter) && LastHeld(u.f, last, regs)
    ensures AtBody(u, Running(t, vars, world, stack), last,
                   TargetRun(u, EnterBlock(u.code, Landing(t), vals, regs, world, counter), 1))
  {
    hide Compiled, AtBody, StackHeld, Live, LastHeld, ArgMap, Readable, ArgRegs, Holds, LandingRegs, LandingVars;
    var regs' := regs + ArgMap(Landing(t), vals);
    LandingArgs(u.f, t, last, vals, regs);
    LandingHolds(u.st, t, vars, vals, regs);
    AtLanding(u, t);
    LiveWithin(u, t);
    assert IdSet(Operands(u.stmts[t])) <= vars.Keys by { AtStatement(u, t); }
    HoldsSubset(u.cm[t], vars, regs', vars.Keys, Live(u, t));
    HoldsSubset(u.cm[t], vars, regs', vars.Keys, IdSet(Operands(u.stmts[t])));
    JumpsToBody(u, Landing(t), t, u.cm[t], vars, last, regs', world, stack, counter);
  }

  lemma FollowsToLanding(u: Unit, s: StmtIdx, b: nat, e: Edge, rest: map<VarId, Value>, results: seq<Value>,
                         last: seq<Value>, regs: Registers, world: World, stack: seq<Frame>, counter: nat)
    requires Compiled(u) && s in u.cm && s < |u.stmts| && s in u.st.states && b < |Branches(u.stmts[s])|
    requires var br := Branches(u.stmts[s])[b];
             && IsEdgeFor(u.stmts, u.st, s, br, Rest(u.cm[s], Operands(u.stmts[s])), e)
             && |results| == |br.results| && u.st.HasLanding(Next(s, br.target))
    requires rest.Keys == u.st.states[s].Keys - IdSet(Operands(u.stmts[s]))
    requires Holds(Rest(u.cm[s], Operands(u.stmts[s])), rest, regs, rest.Keys)
    requires StackHeld(u, stack, counter) && LastHeld(u.f, last, regs)
    ensures var br := Branches(u.stmts[s])[b];
            AtBody(u, Running(Next(s, br.target), Put(rest, br.results, results), world, stack), last,
                   TargetRun(u, Follow(u.code, e, regs, results, world, counter), 1))
  {
    hide Compiled, AtBody, StackHeld, Live, LastHeld, Holds, TRun;
    var br := Branches(u.stmts[s])[b];
    var t := Next(s, br.target);
    var rm := Rest(u.cm[s], Operands(u.stmts[s]));
    StatesAfter(u, s, b, rest, results);
    assert rm.Keys == rest.Keys by { AtStatement(u, s); }
    EdgeValues(u, s, br, e, rm, rest, results, regs);
    hide Put, LandingVars;
    var vals := Resolve(e.operands, regs, results);
    FromLanding(u, t, Put(rest, br.results, results), last, vals, regs, world, stack, counter);
  }

  /** Following a branch's edge arrives at the next body, by way of its landing block if any. */
  lemma Follows(u: Unit, s: StmtIdx, b: nat, e: Edge, rest: map<VarId, Value>, results: seq<Value>, last: seq<Value>,
                regs: Registers, world: World, stack: seq<Frame>, counter: nat) returns (k: nat)
    requires Compiled(u) && s in u.cm && s < |u.stmts| && s in u.st.states && b < |Branches(u.stmts[s])|
    requires var br := Branches(u.stmts[s])[b];
             && IsEdgeFor(u.stmts, u.st, s, br, Rest(u.cm[s], Operands(u.stmts[s])), e)
             && |results| == |br.results|
             && ResultsHeld(BranchRegs(u.site, s, b, |br.results|), results, regs)
    requires rest.Keys == u.st.states[s].Keys - IdSet(Operands(u.stmts[s]))
    requires Holds(Rest(u.cm[s], Operands(u.stmts[s])), rest, regs, rest.Keys)
    requires StackHeld(u, stack, counter) && LastHeld(u.f, last, regs)
    ensures k <= 1
    ensures var next := Arrived(u, Continue(u.stmts, s, b, rest, world, results, stack), last);
            next.Running? && AtBody(u, next, last, TargetRun(u, Follow(u.code, e, regs, results, world, counter), k))
  {
    hide Compiled, IsEdgeFor, AtBody, Fallen;
    StatesAfter(u, s, b, rest, results);
    var br := Branches(u.stmts[s])[b];
    var t := Next(s, br.target);
    var vars := Put(rest, br.results, results);
    FoundFacts(u, t, vars, last);
    if u.st.HasLanding(t) {
      FollowsToLanding(u, s, b, e, rest, results, last, regs, world, stack, counter);
      k := 1;
    } else {
      FollowsToBody(u, s, b, e, rest, results, last, regs, world, stack, counter);
      k := 0;
    }
    assert Continue(u.stmts, s, b, rest, world, results, stack) == Running(t, vars, world, stack);
    assert Arrived(u, Running(t, vars, world, stack), last) == Running(t, Found(u, t, vars, last), world, stack);
  }

  lemma RunFrom(u: Unit, c: TConfig, k: nat)
    ensures TargetRun(u, TStep(u.code, u.exec, c), k) == TargetRun(u, c, 1 + k)
  {
    TRunAdd(u.code, u.exec, c, 1, k);
    assert TRun(u.code, u.exec, c, 0) == c;
  }

  lemma TwoSteps(u: Unit, c: TConfig, c1: TConfig, c2: TConfig, k: nat)
    requires TStep(u.code, u.exec, c) == c1 && TStep(u.code, u.exec, c1) == c2
    ensures TargetRun(u, c, 2 + k) == TargetRun(u, c2, k)
  {
    hide TStep, TRun, TargetRun;
    RunFrom(u, c1, k);
    RunFrom(u, c, 1 + k);
  }

  /** What a body finds: the values of the statement's operands. */
  lemma BodyArgs(u: Unit, src: Config, last: seq<Value>, tgt: TConfig)
    requires Compiled(u) && AtBody(u, src, last, tgt)
    ensures CanTake(src.vars, Operands(u.stmts[src.pc]))
    ensures tgt.block in u.code.arity && tgt.block in u.code.blocks && |u.code.blocks[tgt.block]| == 1
    ensures Readable(tgt.regs, ArgRegs(tgt.block, u.code.arity[tgt.block]))
    ensures Read(tgt.regs, ArgRegs(tgt.block, u.code.arity[tgt.block])) == Lookup(src.vars, Operands(u.stmts[src.pc]))
    ensures TStep(u.code, u.exec, tgt) == Execute(u.code, u.exec, u.code.blocks[tgt.block][0], tgt)
  {
    hide Compiled;
    AtStatement(u, src.pc);
  }

  /** Running a libfunc leaves the registers of the variables it does not take. */
  lemma RestHeld(u: Unit, src: Config, last: seq<Value>, tgt: TConfig, b: nat, results: seq<Value>)
    requires Compiled(u) && AtBody(u, src, last, tgt) && u.stmts[src.pc].Invocation?
    ensures var ops := Operands(u.stmts[src.pc]);
            var rest := Rest(src.vars, ops);
            && rest.Keys == u.st.states[src.pc].Keys - IdSet(ops)
            && Holds(Rest(u.cm[src.pc], ops), rest, tgt.regs + ResultMap(src.pc, b, results), rest.Keys)
            && LastHeld(u.f, last, tgt.regs + ResultMap(src.pc, b, results))
  {
    hide Compiled;
    AtStatement(u, src.pc);
    hide LoweredBody, ConsistentAt;
    var ops := Operands(u.stmts[src.pc]);
    var rest := Rest(src.vars, ops);
    var rm := Rest(u.cm[src.pc], ops);
    var more := ResultMap(src.pc, b, results);
    forall x | x in rest ensures rm[x] !in more { assert OldRegister(u.cm[src.pc][x], src.pc); }
    HoldsAfter(rm, rest, tgt.regs, more, rest.Keys);
  }

  lemma LibfuncBody(u: Unit, s: StmtIdx)
    requires Compiled(u) && s in u.cm && s < |u.stmts| && u.stmts[s].Invocation? && s !in u.site
    ensures Body(s) in u.code.blocks && |u.code.blocks[Body(s)]| == 1
    ensures var t := u.code.blocks[Body(s)][0];
            var branches := u.stmts[s].branches;
            && t.RunLibfunc? && t.libfunc == u.stmts[s].libfunc && t.stmt == s
            && |t.edges| == |t.arities| == |branches|
            && forall b :: 0 <= b < |branches| ==>
                 t.arities[b] == |branches[b].results| &&
                 IsEdgeFor(u.stmts, u.st, s, branches[b], Rest(u.cm[s], u.stmts[s].args), t.edges[b])
  {
    AtStatement(u, s);
  }

  lemma LibfuncStep(u: Unit, src: Config, last: seq<Value>, tgt: TConfig)
    requires Compiled(u) && AtBody(u, src, last, tgt)
    requires u.stmts[src.pc].Invocation? && src.pc !in u.site
    ensures var stmt := u.stmts[src.pc];
            var out := u.exec(stmt.libfunc, src.world, Lookup(src.vars, stmt.args));
            && Body(src.pc) in u.code.blocks && |u.code.blocks[Body(src.pc)]| == 1
            && SourceStep(u, src) ==
                 Continue(u.stmts, src.pc, out.branch, Rest(src.vars, stmt.args), out.world, out.results, src.stack)
            && var t := u.code.blocks[Body(src.pc)][0];
            && t.RunLibfunc?
            && if out.branch < |stmt.branches| && |out.results| == |stmt.branches[out.branch].results| then
                 && out.branch < |t.edges|
                 && TStep(u.code, u.exec, tgt) ==
                      Follow(u.code, t.edges[out.branch], tgt.regs + ResultMap(src.pc, out.branch, out.results),
                             out.results, out.world, tgt.counter)
               else
                 TStep(u.code, u.exec, tgt) == TStuck
  {
    hide Compiled, IsEdgeFor, ArgsHeld, Holds;
    BodyArgs(u, src, last, tgt);
    LibfuncBody(u, src.pc);
  }

  lemma StepsInvocation(u: Unit, src: Config, last: seq<Value>, tgt: TConfig) returns (k: nat)
    requires Compiled(u) && AtBody(u, src, last, tgt)
    requires u.stmts[src.pc].Invocation? && src.pc !in u.site
    ensures 1 <= k <= 2 && Matches(u, Arrived(u, SourceStep(u, src), last), last, TargetRun(u, tgt, k))
  {
    hide Compiled, IsEdgeFor, Step, TStep, Follow, Holds, ArgsHeld, Fallen, LastHeld;
    BodyArgs(u, src, last, tgt);
    LibfuncStep(u, src, last, tgt);
    var s, stmt := src.pc, u.stmts[src.pc];
    var out := u.exec(stmt.libfunc, src.world, Lookup(src.vars, stmt.args));
    if out.branch < |stmt.branches| && |out.results| == |stmt.branches[out.branch].results| {
      LibfuncBody(u, s);
      RestHeld(u, src, last, tgt, out.branch, out.results);
      var j := Follows(u, s, out.branch, u.code.blocks[Body(s)][0].edges[out.branch], Rest(src.vars, stmt.args),
                       out.results, last, tgt.regs + ResultMap(s, out.branch, out.results), out.world, src.stack,
                       tgt.counter);
      RunFrom(u, tgt, j);
      k := 1 + j;
    } else {
      RunFrom(u, tgt, 0);
      k := 1;
    }
  }

  // ----- the tail call -----

  lemma NothingHeld(rm: RegMap, vars: map<VarId, Value>, regs: Registers)
    ensures Holds(rm, vars, regs, {})
  {
  }

  lemma EntryLiveHeld(u: Unit, args: seq<Value>, regs: Registers)
    requires Compiled(u) && |args| == |u.f.params|
    requires u.f.entry < |u.stmts| && u.f.entry in u.st.states && u.f.entry in u.cm
    ensures Holds(u.cm[u.f.entry], ZipMap(u.f.params, args), regs + ArgMap(Entry, args), Live(u, u.f.entry))
  {
    hide Compiled, ZipMap, ArgMap, LoweredEntry, Live, Holds, EntryRegs;
    LiveAtEntry(u);
    EntryFacts(u);
    var s := u.f.entry;
    if u.st.HasLanding(s) {
      NothingHeld(u.cm[s], ZipMap(u.f.params, args), regs + ArgMap(Entry, args));
    } else {
      EntryHolds(u.f, args, regs);
      LiveWithin(u, u.f.entry);
      HoldsSubset(u.cm[u.f.entry], ZipMap(u.f.params, args), regs + ArgMap(Entry, args), IdSet(u.f.params),
                  Live(u, u.f.entry));
    }
  }

  /** Arriving at the entry block leads to the body of the entry statement. */
  lemma EntersFunction(u: Unit, args: seq<Value>, regs: Registers, world: World, stack: seq<Frame>, counter: nat)
    requires Compiled(u) && StackHeld(u, stack, counter)
    ensures Matches(u, Enter(u.f, args, world, stack), args,
                    TargetRun(u, EnterBlock(u.code, Entry, args, regs, world, counter), 1))
  {
    hide Compiled, AtBody, StackHeld, Holds;
    EntryFacts(u);
    if |args| == |u.f.params| {
      assert LastHeld(u.f, args, regs + ArgMap(Entry, args));
      hide LastHeld;
      var vars := ZipMap(u.f.params, args);
      var regs' := regs + ArgMap(Entry, args);
      var ops := Operands(u.stmts[u.f.entry]);
      EntryLiveHeld(u, args, regs);
      EntryHolds(u.f, args, regs);
      assert IdSet(ops) <= IdSet(u.f.params);
      HoldsSubset(EntryRegs(u.f), vars, regs', IdSet(u.f.params), IdSet(ops));
      JumpsToBody(u, Entry, u.f.entry, EntryRegs(u.f), vars, args, regs', world, stack, counter);
    } else {
      assert TRun(u.code, u.exec, TStuck, 0) == TStuck;
    }
  }

  lemma EntryFacts(u: Unit)
    requires Compiled(u)
    ensures LoweredEntry(u.stmts, u.f, u.code)
    ensures u.f.entry in u.cm && u.f.entry in u.st.states
    ensures u.st.states[u.f.entry].Keys == IdSet(u.f.params)
    ensures !u.st.HasLanding(u.f.entry) ==> u.cm[u.f.entry] == EntryRegs(u.f)
  {
  }

  lemma EntryHolds(f: Function, args: seq<Value>, regs: Registers)
    requires |args| == |f.params|
    ensures Holds(EntryRegs(f), ZipMap(f.params, args), regs + ArgMap(Entry, args), IdSet(f.params))
  {
  }

  /** The tail call is the only one, and takes all the variables. */
  lemma OnlySite(u: Unit, s: StmtIdx)
    requires Compiled(u) && s in u.site
    ensures s in u.cm && s < |u.stmts| && s in u.st.states && u.stmts[s].Invocation?
    ensures u.st.states[s].Keys <= IdSet(u.stmts[s].args)
    ensures u.site == {s} && TailReturnsWhole(u.f)
  {
    SiteFacts(u);
    hide Compiled, TailReturnsWhole;
    assert TailCall(u.stmts, u.f, u.st.states, s);
    Singleton(u.site, s);
    var rest := Rest(u.st.states[s], u.stmts[s].args);
    forall x | x in u.st.states[s] ensures x in IdSet(u.stmts[s].args) { assert x !in rest; }
  }

  lemma AtSite(u: Unit, s: StmtIdx)
    requires Compiled(u) && s in u.site && s in u.cm && s < |u.stmts| && u.stmts[s].Invocation?
    ensures Body(s) in u.code.blocks && |u.code.blocks[Body(s)]| == 1 && u.code.blocks[Body(s)][0] == Recurse
    ensures |u.stmts[s].branches| == 1 && |u.stmts[s].branches[0].results| == |u.f.retTypes|
    ensures Resume(s) in u.code.arity && u.code.arity[Resume(s)] == |u.f.retTypes|
    ensures Resume(s) in u.code.blocks && |u.code.blocks[Resume(s)]| == 1 && u.code.blocks[Resume(s)][0].Resumed?
    ensures IsEdgeFor(u.stmts, u.st, s, u.stmts[s].branches[0], Rest(u.cm[s], u.stmts[s].args),
                      u.code.blocks[Resume(s)][0].edge)
  {
    AtStatement(u, s);
    hide Compiled, IsEdgeFor;
  }

  lemma SiteFacts(u: Unit)
    requires Compiled(u)
    ensures u.site == if u.st.recursive then TailCalls(u.stmts, u.f, u.st.states) else {}
    ensures u.st.recursive ==> |u.site| == 1 && TailReturnsWhole(u.f)
    ensures u.cm.Keys == u.st.states.Keys
  {
  }

  lemma Singleton<T>(s: set<T>, x: T)
    requires |s| == 1 && x in s
    ensures s == {x}
  {
    assert |s - {x}| == 0;
  }

  lemma StepsRecursion(u: Unit, src: Config, last: seq<Value>, tgt: TConfig) returns (k: nat)
    requires Compiled(u) && AtBody(u, src, last, tgt)
    requires u.stmts[src.pc].Invocation? && src.pc in u.site
    requires Depth(SourceStep(u, src)) < COUNTER_MODULUS
    ensures CanTake(src.vars, u.stmts[src.pc].args)
    ensures 1 <= k <= 2
    ensures Matches(u, SourceStep(u, src), Lookup(src.vars, u.stmts[src.pc].args), TargetRun(u, tgt, k))
  {
    hide Compiled, Holds, ArgsHeld, IsEdgeFor, TailReturnsWhole;
    OnlySite(u, src.pc);
    AtSite(u, src.pc);
    BodyArgs(u, src, last, tgt);
    var args := Lookup(src.vars, u.stmts[src.pc].args);
    var rest := Rest(src.vars, u.stmts[src.pc].args);
    assert rest == map[];
    var stack := src.stack + [Frame(src.pc, rest)];
    assert SourceStep(u, src) == Enter(u.f, args, src.world, stack);
    if |args| == |u.f.params| {
      assert TStep(u.code, u.exec, tgt) == EnterBlock(u.code, Entry, args, tgt.regs, tgt.world, tgt.counter + 1);
      EntersFunction(u, args, tgt.regs, src.world, stack, tgt.counter + 1);
      RunFrom(u, tgt, 1);
      k := 2;
    } else {
      EntryFacts(u);
      assert TStep(u.code, u.exec, tgt) == TStuck;
      RunFrom(u, tgt, 0);
      k := 1;
    }
  }

  // ----- returns -----

  /** What the lowering says about a return. */
  lemma AtReturn(u: Unit, s: StmtIdx)
    requires Compiled(u) && s in u.cm && s < |u.stmts| && u.stmts[s].Return?
    ensures Body(s) in u.code.blocks && |u.code.blocks[Body(s)]| == 1
    ensures forall x :: x in u.stmts[s].vars ==> x in u.cm[s]
    ensures var t := u.code.blocks[Body(s)][0];
            var values := Lookup(u.cm[s], u.stmts[s].vars);
            if u.site == {} then t == ReturnPlain(values)
            else
              && t.ReturnTail? && t.values == values && t.passed == values
              && t.resume.Resume? && t.resume.stmt in u.site && |u.stmts[s].vars| == |u.f.retTypes|
  {
    AtStatement(u, s);
    SiteFacts(u);
    hide Compiled;
    if u.site != {} {
      TailValuesWhole(HasReturnPointer(u.f), u.f.retTypes, Lookup(u.cm[s], u.stmts[s].vars));
    }
  }

  /** The registers a return names hold the variables it returns. */
  lemma ReturnValues(u: Unit, src: Config, last: seq<Value>, tgt: TConfig)
    requires Compiled(u) && AtBody(u, src, last, tgt) && u.stmts[src.pc].Return?
    requires forall x :: x in u.stmts[src.pc].vars ==> x in u.cm[src.pc]
    ensures CanTake(src.vars, u.stmts[src.pc].vars)
    ensures var rs := Lookup(u.cm[src.pc], u.stmts[src.pc].vars);
            Readable(tgt.regs, rs) && Read(tgt.regs, rs) == Lookup(src.vars, u.stmts[src.pc].vars)
  {
    hide Compiled;
    AtStatement(u, src.pc);
    hide LoweredBody, ConsistentAt, ArgsHeld;
    assert CanTake(src.vars, u.stmts[src.pc].vars) by { BodyArgs(u, src, last, tgt); }
  }

  lemma StepsReturn(u: Unit, src: Config, last: seq<Value>, tgt: TConfig) returns (k: nat)
    requires Compiled(u) && AtBody(u, src, last, tgt) && u.stmts[src.pc].Return?
    requires src.stack == []
    ensures k == 1 && Matches(u, SourceStep(u, src), last, TargetRun(u, tgt, k))
  {
    hide Compiled, Holds, ArgsHeld;
    BodyArgs(u, src, last, tgt);
    AtReturn(u, src.pc);
    ReturnValues(u, src, last, tgt);
    RunFrom(u, tgt, 0);
    k := 1;
  }

  /** A nested return hands its values to the resumed block. */
  lemma ReturnsToResume(u: Unit, src: Config, last: seq<Value>, tgt: TConfig)
    requires Compiled(u) && AtBody(u, src, last, tgt) && u.stmts[src.pc].Return?
    requires src.stack != []
    ensures var s := src.stack[|src.stack| - 1].site;
            var values := Lookup(src.vars, u.stmts[src.pc].vars);
            && s in u.site && |values| == |u.f.retTypes|
            && LastHeld(u.f, last, tgt.regs + ArgMap(Resume(s), values))
            && TStep(u.code, u.exec, tgt) ==
                 TRunning(Resume(s), tgt.regs + ArgMap(Resume(s), values), src.world, tgt.counter - 1)
            && SourceStep(u, src) == Leave(u.stmts, values, src.world, src.stack)
  {
    hide Compiled, Holds, ArgsHeld, IsEdgeFor;
    BodyArgs(u, src, last, tgt);
    AtReturn(u, src.pc);
    ReturnValues(u, src, last, tgt);
    var s := src.stack[|src.stack| - 1].site;
    OnlySite(u, s);
    AtSite(u, s);
  }

  lemma ResumeStep(u: Unit, s: StmtIdx, values: seq<Value>, regs: Registers, world: World, counter: nat)
    requires Compiled(u) && s in u.site && s in u.cm && s < |u.stmts| && u.stmts[s].Invocation?
    requires |values| == |u.f.retTypes| && ResultsHeld(ArgRegs(Resume(s), |values|), values, regs)
    ensures Resume(s) in u.code.blocks && |u.code.blocks[Resume(s)]| == 1 && u.code.blocks[Resume(s)][0].Resumed?
    ensures TStep(u.code, u.exec, TRunning(Resume(s), regs, world, counter)) ==
            Follow(u.code, u.code.blocks[Resume(s)][0].edge, regs, values, world, counter)
  {
    hide Compiled, IsEdgeFor;
    AtSite(u, s);
    var args := ArgRegs(Resume(s), |u.f.retTypes|);
    assert Readable(regs, args) && Read(regs, args) == values;
  }

  lemma StackBelow(u: Unit, src: Config, last: seq<Value>, tgt: TConfig)
    requires AtBody(u, src, last, tgt) && src.stack != []
    ensures src.Running? && src.pc < |u.stmts| && tgt.TRunning?
    ensures 0 < tgt.counter == |src.stack| && src.stack[|src.stack| - 1].rest == map[]
    ensures StackHeld(u, src.stack[..|src.stack| - 1], tgt.counter - 1)
  {
  }

  lemma ArgsPut(s: StmtIdx, values: seq<Value>, regs: Registers)
    ensures ResultsHeld(ArgRegs(Resume(s), |values|), values, regs + ArgMap(Resume(s), values))
  {
  }

  /** A return from a recursive call resumes after the tail call. */
  lemma StepsResume(u: Unit, src: Config, last: seq<Value>, tgt: TConfig) returns (k: nat)
    requires Compiled(u) && AtBody(u, src, last, tgt) && u.stmts[src.pc].Return?
    requires src.stack != []
    ensures 1 <= k <= 3 && Matches(u, Arrived(u, SourceStep(u, src), last), last, TargetRun(u, tgt, k))
  {
    hide Compiled, Holds, ArgsHeld, IsEdgeFor, TStep, Step, Follow, Fallen, LastHeld, AtBody, Arrive, TRun, StackHeld;
    StackBelow(u, src, last, tgt);
    BodyArgs(u, src, last, tgt);
    ReturnsToResume(u, src, last, tgt);
    var top := |src.stack| - 1;
    var s := src.stack[top].site;
    var values := Lookup(src.vars, u.stmts[src.pc].vars);
    OnlySite(u, s);
    AtSite(u, s);
    var regs := tgt.regs + ArgMap(Resume(s), values);
    ArgsPut(s, values, tgt.regs);
    ResumeStep(u, s, values, regs, src.world, tgt.counter - 1);
    var edge := u.code.blocks[Resume(s)][0].edge;
    var j := ResumeFollows(u, s, edge, values, last, regs, src.world, src.stack[..top], tgt.counter - 1);
    k := 2 + j;
    TwoSteps(u, tgt, TRunning(Resume(s), regs, src.world, tgt.counter - 1),
             Follow(u.code, edge, regs, values, src.world, tgt.counter - 1), j);
  }

  lemma ResumeFollows(u: Unit, s: StmtIdx, edge: Edge, values: seq<Value>, last: seq<Value>, regs: Registers,
                      world: World,
                      stack: seq<Frame>, counter: nat) returns (j: nat)
    requires Compiled(u) && s in u.site && s in u.cm && s < |u.stmts| && s in u.st.states && u.stmts[s].Invocation?
    requires |u.stmts[s].branches| == 1 && |values| == |u.stmts[s].branches[0].results|
    requires IsEdgeFor(u.stmts, u.st, s, u.stmts[s].branches[0], Rest(u.cm[s], u.stmts[s].args), edge)
    requires ResultsHeld(ArgRegs(Resume(s), |values|), values, regs)
    requires StackHeld(u, stack, counter) && LastHeld(u.f, last, regs)
    ensures j <= 1
    ensures var next := Arrived(u, Continue(u.stmts, s, 0, map[], world, values, stack), last);
            next.Running? && AtBody(u, next, last, TargetRun(u, Follow(u.code, edge, regs, values, world, counter), j))
  {
    hide Compiled, AtBody, IsEdgeFor, LastHeld, Arrive;
    OnlySite(u, s);
    assert u.st.states[s].Keys - IdSet(u.stmts[s].args) == {};
    j := Follows(u, s, 0, edge, map[], values, last, regs, world, stack, counter);
  }

  // ----- whole runs -----

  ghost function Next1(u: Unit, r: State): State {
    ResetStep(u.stmts, u.f, Back(u), u.site, u.exec, r)
  }

  /** A call puts its own arguments in place, so nothing falls back on it. */
  lemma EnterArrives(f: Function, back: set<VarId>, args: seq<Value>, world: World, stack: seq<Frame>)
    ensures Arrive(f, back, Enter(f, args, world, stack), args) == Enter(f, args, world, stack)
  {
    if |args| == |f.params| {
      assert Fallen(f, back, ZipMap(f.params, args), args) == ZipMap(f.params, args);
    }
  }

  /** Each step of the function is matched by one to three steps of its blocks. */
  lemma Steps(u: Unit, r: State, tgt: TConfig) returns (k: nat)
    requires Compiled(u) && AtBody(u, r.config, r.last, tgt)
    requires Depth(Next1(u, r).config) < COUNTER_MODULUS
    ensures 1 <= k <= 3 && Matches(u, Next1(u, r).config, Next1(u, r).last, TargetRun(u, tgt, k))
  {
    hide Compiled, Matches, Holds, ArgsHeld, Fallen;
    var src := r.config;
    if u.stmts[src.pc].Return? {
      if src.stack == [] {
        k := StepsReturn(u, src, r.last, tgt);
      } else {
        k := StepsResume(u, src, r.last, tgt);
      }
    } else if src.pc in u.site {
      k := StepsRecursion(u, src, r.last, tgt);
      var args := Lookup(src.vars, u.stmts[src.pc].args);
      EnterArrives(u.f, Back(u), args, src.world, src.stack + [Frame(src.pc, Rest(src.vars, u.stmts[src.pc].args))]);
    } else {
      k := StepsInvocation(u, src, r.last, tgt);
    }
  }

  ghost function SourceRun(u: Unit, args: seq<Value>, world: World, n: nat): State {
    ResetRun(u.stmts, u.f, Back(u), u.site, u.exec, args, world, n)
  }

  ghost function BlockRun(u: Unit, args: seq<Value>, world: World, n: nat): TConfig {
    TRun(u.code, u.exec, TStart(u.code, args, world), n)
  }

  /** The recursion stays within what the counter can count. */
  ghost predicate DepthCounted(u: Unit, args: seq<Value>, world: World, n: nat) {
    forall i: nat :: i <= n ==> Depth(SourceRun(u, args, world, i).config) < COUNTER_MODULUS
  }

  /** After any number of source steps the blocks have reached a matching point. */
  lemma {:induction false} Simulates(u: Unit, args: seq<Value>, world: World, n: nat) returns (m: nat)
    requires Compiled(u) && DepthCounted(u, args, world, n)
    ensures n <= m <= 3 * n + 1
    ensures var r := SourceRun(u, args, world, n); Matches(u, r.config, r.last, BlockRun(u, args, world, m))
  {
    hide Compiled, AtBody, ResetStep;
    if n == 0 {
      EntersFunction(u, args, map[], world, [], 0);
      m := 1;
    } else {
      var m0 := Simulates(u, args, world, n - 1);
      var r, tgt := SourceRun(u, args, world, n - 1), BlockRun(u, args, world, m0);
      assert SourceRun(u, args, world, n) == Next1(u, r);
      assert Depth(SourceRun(u, args, world, n).config) < COUNTER_MODULUS;
      if AtBody(u, r.config, r.last, tgt) {
        var k := Steps(u, r, tgt);
        TRunAdd(u.code, u.exec, TStart(u.code, args, world), m0, k);
        m := m0 + k;
      } else {
        assert !r.config.Running?;
        ResetStops(u.stmts, u.f, Back(u), u.site, u.exec, args, world, n - 1, n);
        m := m0 + 1;
      }
    }
  }

  /** The compiled function returns what its machine with falling back returns, and nothing else: for
      every meaning of the libfuncs, every argument and every initial world. */
  lemma BlocksReturn(u: Unit, args: seq<Value>, world: World, values: seq<Value>, world': World)
    requires Compiled(u)
    requires forall n: nat :: DepthCounted(u, args, world, n)
    ensures ResetReturns(u.stmts, u.f, Back(u), u.site, u.exec, args, world, values, world')
       <==> TReturns(u.code, u.exec, args, world, values, world')
  {
    hide Compiled, AtBody, DepthCounted, ResetRun;
    if ResetReturns(u.stmts, u.f, Back(u), u.site, u.exec, args, world, values, world') {
      var n: nat :| ResetRun(u.stmts, u.f, Back(u), u.site, u.exec, args, world, n).config == Done(values, world');
      assert DepthCounted(u, args, world, n);
      var m := Simulates(u, args, world, n);
      MatchedEnds(u, SourceRun(u, args, world, n), BlockRun(u, args, world, m));
      assert TRun(u.code, u.exec, TStart(u.code, args, world), m) == TDone(values, world');
    }
    if TReturns(u.code, u.exec, args, world, values, world') {
      var n: nat :| TRun(u.code, u.exec, TStart(u.code, args, world), n) == TDone(values, world');
      assert DepthCounted(u, args, world, n);
      var m := Simulates(u, args, world, n);
      TRunStops(u.code, u.exec, TStart(u.code, args, world), n, m);
      assert BlockRun(u, args, world, m) == TDone(values, world');
      MatchedEnds(u, SourceRun(u, args, world, n), BlockRun(u, args, world, m));
    }
  }

  /** Matching runs end together. */
  lemma MatchedEnds(u: Unit, r: State, tgt: TConfig)
    requires Matches(u, r.config, r.last, tgt)
    ensures r.config.Done? ==> tgt == TDone(r.config.values, r.config.world)
    ensures tgt.TDone? ==> r.config == Done(tgt.values, tgt.world)
  {
  }
}
