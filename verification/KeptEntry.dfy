/** When nothing is lost by control coming back to the entry statement: the functions whose blocks return
    what the function itself returns. */
module KeptEntry {
  import opened VarMaps
  import opened Sierra
  import opened Blocks
  import opened Lowering
  import opened Resets
  import opened Simulation

  // ----- walks -----

  ghost predicate Reached(u: Unit, t: StmtIdx) {
    exists steps :: Walk(u.stmts, {}, u.f.entry, steps, t)
  }

  /** Some way from the entry to `t` takes the variable. */
  ghost predicate Loses(u: Unit, t: StmtIdx, x: VarId) {
    exists steps :: Walk(u.stmts, {}, u.f.entry, steps, t) && TakenOn(u.stmts, steps, x)
  }

  lemma WalkOn(stmts: seq<Statement>, avoid: set<StmtIdx>, from: StmtIdx, steps: seq<(StmtIdx, nat)>, s: StmtIdx,
               b: nat,
               t: StmtIdx)
    requires Walk(stmts, avoid, from, steps, s) && IsEdge(stmts, s, b, t) && s !in avoid
    ensures Walk(stmts, avoid, from, steps + [(s, b)], t)
  {
    var more := steps + [(s, b)];
    forall i | 0 <= i < |more| ensures StepOn(stmts, avoid, more, t, i) {
      if i < |steps| {
        assert more[i] == steps[i] && StepOn(stmts, avoid, steps, s, i);
        assert StmtAt(more, t, i + 1) == StmtAt(steps, s, i + 1);
      }
    }
  }

  lemma TakenLater(stmts: seq<Statement>, steps: seq<(StmtIdx, nat)>, s: StmtIdx, b: nat, x: VarId)
    requires TakenOn(stmts, steps, x) || (s < |stmts| && x in Operands(stmts[s]))
    ensures TakenOn(stmts, steps + [(s, b)], x)
  {
    var more := steps + [(s, b)];
    if TakenOn(stmts, steps, x) {
      var i :| 0 <= i < |steps| && steps[i].0 < |stmts| && x in Operands(stmts[steps[i].0]);
      assert more[i] == steps[i];
    } else {
      assert more[|steps|] == (s, b);
    }
  }

  /** What is kept up to the end of an edge is kept up to its start, and not taken there. */
  lemma KeptBefore(u: Unit, s: StmtIdx, b: nat, t: StmtIdx, x: VarId)
    requires Reached(u, s) && IsEdge(u.stmts, s, b, t) && !Loses(u, t, x)
    ensures !Loses(u, s, x) && x !in Operands(u.stmts[s])
  {
    hide Walk, TakenOn;
    var way :| Walk(u.stmts, {}, u.f.entry, way, s);
    if x in Operands(u.stmts[s]) {
      WalkOn(u.stmts, {}, u.f.entry, way, s, b, t);
      TakenLater(u.stmts, way, s, b, x);
    }
    if Loses(u, s, x) {
      var steps :| Walk(u.stmts, {}, u.f.entry, steps, s) && TakenOn(u.stmts, steps, x);
      WalkOn(u.stmts, {}, u.f.entry, steps, s, b, t);
      TakenLater(u.stmts, steps, s, b, x);
    }
  }

  lemma ReachedNext(u: Unit, s: StmtIdx, b: nat, t: StmtIdx)
    requires Reached(u, s) && IsEdge(u.stmts, s, b, t)
    ensures Reached(u, t)
  {
    hide Walk;
    var way :| Walk(u.stmts, {}, u.f.entry, way, s);
    WalkOn(u.stmts, {}, u.f.entry, way, s, b, t);
  }

  // ----- the variables that are kept -----

  /** A variable that could fall back and has been kept holds what the latest call was given. */
  ghost predicate KeptVars(u: Unit, t: StmtIdx, vars: map<VarId, Value>, last: seq<Value>)
    requires |last| == |u.f.params|
  {
    forall x :: x in Back(u) && !Loses(u, t, x) ==>
      x in vars && x in u.f.params && vars[x] == ZipMap(u.f.params, last)[x]
  }

  /** Nothing is kept across a recursive call. */
  ghost predicate NothingKeptAfter(u: Unit, s: StmtIdx) {
    Reached(u, s) && forall b: nat, t, x :: IsEdge(u.stmts, s, b, t) && x in Back(u) ==> Loses(u, t, x)
  }

  ghost predicate KeptHeld(u: Unit, r: State) {
    r.config.Running? ==>
      && |r.last| == |u.f.params| && Reached(u, r.config.pc)
      && KeptVars(u, r.config.pc, r.config.vars, r.last)
      && forall i :: 0 <= i < |r.config.stack| ==> NothingKeptAfter(u, r.config.stack[i].site)
  }

  lemma KeptThroughEdge(u: Unit, s: StmtIdx, b: nat, t: StmtIdx, vars: map<VarId, Value>, results: seq<Value>,
                        last: seq<Value>)
    requires s < |u.stmts| && IsEdge(u.stmts, s, b, t) && Reached(u, s) && |last| == |u.f.params|
    requires KeptVars(u, s, vars, last) && |results| == |Branches(u.stmts[s])[b].results|
    requires CanPut(Rest(vars, Operands(u.stmts[s])), Branches(u.stmts[s])[b].results)
    ensures KeptVars(u, t, Put(Rest(vars, Operands(u.stmts[s])), Branches(u.stmts[s])[b].results, results), last)
  {
    hide Loses, Reached;
    var rest := Rest(vars, Operands(u.stmts[s]));
    forall x | x in Back(u) && !Loses(u, t, x)
      ensures x in rest && x in u.f.params && rest[x] == ZipMap(u.f.params, last)[x]
    {
      KeptBefore(u, s, b, t, x);
    }
  }

  /** At the entry nothing that could fall back has been lost, so nothing changes. */
  lemma NothingFalls(u: Unit, t: StmtIdx, vars: map<VarId, Value>, world: World, stack: seq<Frame>, last: seq<Value>)
    requires EntryKept(u.stmts, u.f) && |last| == |u.f.params| && KeptVars(u, t, vars, last)
    ensures Arrived(u, Running(t, vars, world, stack), last) == Running(t, vars, world, stack)
  {
    hide Walk, TakenOn;
    if t == u.f.entry {
      forall x | x in Back(u) ensures !Loses(u, t, x) {
      }
      hide EntryKept, Loses;
      assert Fallen(u.f, Back(u), vars, last) == vars;
    }
  }

  /** The step after which control is at `t`, by a branch. */
  lemma KeptContinues(u: Unit, s: StmtIdx, b: nat, vars: map<VarId, Value>, world: World, results: seq<Value>,
                      stack: seq<Frame>, last: seq<Value>)
    requires EntryKept(u.stmts, u.f) && s < |u.stmts| && Reached(u, s) && |last| == |u.f.params|
    requires KeptVars(u, s, vars, last)
    requires forall i :: 0 <= i < |stack| ==> NothingKeptAfter(u, stack[i].site)
    ensures var c := Continue(u.stmts, s, b, Rest(vars, Operands(u.stmts[s])), world, results, stack);
            Arrived(u, c, last) == c && KeptHeld(u, State(c, last))
  {
    hide EntryKept, Reached, Loses, KeptVars, NothingKeptAfter;
    var rest := Rest(vars, Operands(u.stmts[s]));
    var c := Continue(u.stmts, s, b, rest, world, results, stack);
    if c.Running? {
      KeptThroughEdge(u, s, b, c.pc, vars, results, last);
      ReachedNext(u, s, b, c.pc);
      NothingFalls(u, c.pc, c.vars, world, stack, last);
    }
  }

  /** Back from a recursive call nothing is kept, and nothing needs to be. */
  lemma KeptResumes(u: Unit, s: StmtIdx, world: World, results: seq<Value>, stack: seq<Frame>, last: seq<Value>)
    requires EntryKept(u.stmts, u.f) && s < |u.stmts| && NothingKeptAfter(u, s) && |last| == |u.f.params|
    requires forall i :: 0 <= i < |stack| ==> NothingKeptAfter(u, stack[i].site)
    ensures var c := Continue(u.stmts, s, 0, map[], world, results, stack);
            Arrived(u, c, last) == c && KeptHeld(u, State(c, last))
  {
    hide EntryKept, Reached, Loses;
    var c := Continue(u.stmts, s, 0, map[], world, results, stack);
    if c.Running? {
      assert IsEdge(u.stmts, s, 0, c.pc);
      ReachedNext(u, s, 0, c.pc);
      NothingFalls(u, c.pc, c.vars, world, stack, last);
    }
  }

  lemma KeptCalls(u: Unit, s: StmtIdx, vars: map<VarId, Value>, last: seq<Value>)
    requires s < |u.stmts| && Reached(u, s) && |last| == |u.f.params| && KeptVars(u, s, vars, last)
    requires Rest(vars, Operands(u.stmts[s])) == map[]
    ensures NothingKeptAfter(u, s)
  {
    hide Reached, Loses;
    forall x | x in vars ensures x in Operands(u.stmts[s]) { assert x !in Rest(vars, Operands(u.stmts[s])); }
    forall b: nat, t, x | IsEdge(u.stmts, s, b, t) && x in Back(u) ensures Loses(u, t, x) {
      if !Loses(u, t, x) {
        KeptBefore(u, s, b, t, x);
        assert false;
      }
    }
  }

  lemma KeptEnters(u: Unit, args: seq<Value>, world: World, stack: seq<Frame>)
    requires forall i :: 0 <= i < |stack| ==> NothingKeptAfter(u, stack[i].site)
    ensures KeptHeld(u, State(Enter(u.f, args, world, stack), args))
  {
    hide Loses, NothingKeptAfter;
    assert Walk(u.stmts, {}, u.f.entry, [], u.f.entry);
  }

  /** On the functions whose entry is kept the two machines take the same steps. */
  lemma KeptStep(u: Unit, r: State, tgt: TConfig)
    requires Compiled(u) && EntryKept(u.stmts, u.f) && AtBody(u, r.config, r.last, tgt) && KeptHeld(u, r)
    ensures Next1(u, r).config == SourceStep(u, r.config) && KeptHeld(u, Next1(u, r))
  {
    hide Compiled, EntryKept, KeptVars, NothingKeptAfter, Reached, Continue, Enter, Holds, ArgsHeld, Fallen, Arrive;
    var src := r.config;
    BodyArgs(u, src, r.last, tgt);
    var values := Lookup(src.vars, Operands(u.stmts[src.pc]));
    var rest := Rest(src.vars, Operands(u.stmts[src.pc]));
    if u.stmts[src.pc].Return? {
      KeptReturn(u, src, r.last, tgt);
    } else if src.pc in u.site {
      OnlySite(u, src.pc);
      assert rest == map[];
      KeptCalls(u, src.pc, src.vars, r.last);
      var stack := src.stack + [Frame(src.pc, rest)];
      KeptEnters(u, values, src.world, stack);
      EnterArrives(u.f, Back(u), values, src.world, stack);
    } else {
      var out := u.exec(u.stmts[src.pc].libfunc, src.world, values);
      KeptContinues(u, src.pc, out.branch, src.vars, out.world, out.results, src.stack, r.last);
    }
  }

  lemma KeptReturn(u: Unit, src: Config, last: seq<Value>, tgt: TConfig)
    requires Compiled(u) && EntryKept(u.stmts, u.f) && AtBody(u, src, last, tgt) && KeptHeld(u, State(src, last))
    requires u.stmts[src.pc].Return? && CanTake(src.vars, Operands(u.stmts[src.pc]))
    ensures Arrived(u, SourceStep(u, src), last) == SourceStep(u, src)
    ensures KeptHeld(u, State(SourceStep(u, src), last))
  {
    hide Compiled, EntryKept, KeptVars, NothingKeptAfter, Reached, Continue, Holds, ArgsHeld, Fallen;
    var values := Lookup(src.vars, Operands(u.stmts[src.pc]));
    if src.stack != [] {
      var top := |src.stack| - 1;
      OnlySite(u, src.stack[top].site);
      KeptResumes(u, src.stack[top].site, src.world, values, src.stack[..top], last);
    }
  }

  // ----- whole runs -----

  ghost function OwnRun(u: Unit, args: seq<Value>, world: World, n: nat): Config {
    Run(u.stmts, u.f, u.site, u.exec, Enter(u.f, args, world, []), n)
  }

  ghost predicate OwnDepthCounted(u: Unit, args: seq<Value>, world: World, n: nat) {
    forall i: nat :: i <= n ==> Depth(OwnRun(u, args, world, i)) < COUNTER_MODULUS
  }

  lemma {:induction false} KeptRun(u: Unit, args: seq<Value>, world: World, n: nat)
    requires Compiled(u) && EntryKept(u.stmts, u.f) && OwnDepthCounted(u, args, world, n)
    ensures SourceRun(u, args, world, n).config == OwnRun(u, args, world, n)
    ensures KeptHeld(u, SourceRun(u, args, world, n))
    decreases n
  {
    hide Compiled, EntryKept, KeptHeld, AtBody, Step, ResetStep, Enter;
    if n == 0 {
      KeptEnters(u, args, world, []);
    } else {
      forall i: nat | i <= n - 1 ensures Depth(SourceRun(u, args, world, i).config) < COUNTER_MODULUS {
        KeptRun(u, args, world, i);
      }
      KeptRun(u, args, world, n - 1);
      var r := SourceRun(u, args, world, n - 1);
      assert DepthCounted(u, args, world, n - 1);
      var m := Simulates(u, args, world, n - 1);
      if AtBody(u, r.config, r.last, BlockRun(u, args, world, m)) {
        KeptStep(u, r, BlockRun(u, args, world, m));
      } else {
        StoppedStays(u, r);
      }
    }
  }

  lemma StoppedStays(u: Unit, r: State)
    requires !r.config.Running?
    ensures Next1(u, r) == r && SourceStep(u, r.config) == r.config && KeptHeld(u, r)
  {
  }

  /** The compiled function returns what the function returns, and nothing else: for every meaning of the
      libfuncs, every argument and every initial world. */
  lemma SameReturns(u: Unit, args: seq<Value>, world: World, values: seq<Value>, world': World)
    requires Compiled(u) && EntryKept(u.stmts, u.f)
    requires forall n: nat :: OwnDepthCounted(u, args, world, n)
    ensures Returns(u.stmts, u.f, u.site, u.exec, args, world, values, world')
       <==> TReturns(u.code, u.exec, args, world, values, world')
  {
    hide Compiled, EntryKept, OwnDepthCounted, ResetRun, Run, TReturns;
    forall n: nat ensures SourceRun(u, args, world, n).config == OwnRun(u, args, world, n) {
      assert OwnDepthCounted(u, args, world, n);
      KeptRun(u, args, world, n);
    }
    forall n: nat ensures DepthCounted(u, args, world, n) {
      DepthsAgree(u, args, world, n);
    }
    BlocksReturn(u, args, world, values, world');
    if Returns(u.stmts, u.f, u.site, u.exec, args, world, values, world') {
      var n: nat :| Run(u.stmts, u.f, u.site, u.exec, Enter(u.f, args, world, []), n) == Done(values, world');
      assert SourceRun(u, args, world, n).config == Done(values, world');
      assert ResetRun(u.stmts, u.f, Back(u), u.site, u.exec, args, world, n).config == Done(values, world');
    }
    if ResetReturns(u.stmts, u.f, Back(u), u.site, u.exec, args, world, values, world') {
      var n: nat :| ResetRun(u.stmts, u.f, Back(u), u.site, u.exec, args, world, n).config == Done(values, world');
      assert SourceRun(u, args, world, n).config == OwnRun(u, args, world, n);
      assert Run(u.stmts, u.f, u.site, u.exec, Enter(u.f, args, world, []), n) == Done(values, world');
    }
  }

  lemma DepthsAgree(u: Unit, args: seq<Value>, world: World, n: nat)
    requires forall i: nat :: SourceRun(u, args, world, i).config == OwnRun(u, args, world, i)
    requires OwnDepthCounted(u, args, world, n)
    ensures DepthCounted(u, args, world, n)
  {
    hide ResetRun, Run;
    forall i: nat | i <= n ensures Depth(SourceRun(u, args, world, i).config) < COUNTER_MODULUS {
      assert SourceRun(u, args, world, i).config == OwnRun(u, args, world, i);
    }
  }
}
