/** The machine that the blocks of a function follow. When control comes back to the entry statement, the
    variables which that statement does not take are still read from the entry block's arguments: they
    fall back to what the latest call of the function was given. */
module Resets {
  import opened VarMaps
  import opened Sierra
  import opened Lowering

  /** `last` are the arguments of the latest call of the function, its own or a recursive one. */
  datatype State = State(config: Config, last: seq<Value>)

  function Fallen(f: Function, back: set<VarId>, vars: map<VarId, Value>, last: seq<Value>): map<VarId, Value>
    requires |last| == |f.params|
  {
    vars + (map x | x in back && x in f.params :: ZipMap(f.params, last)[x])
  }

  /** Arriving at the entry statement sets the variables in `back` back. */
  function Arrive(f: Function, back: set<VarId>, c: Config, last: seq<Value>): Config {
    if c.Running? && c.pc == f.entry && |last| == |f.params| then
      c.(vars := Fallen(f, back, c.vars, last))
    else
      c
  }

  predicate Calls(stmts: seq<Statement>, sites: set<StmtIdx>, c: Config) {
    && c.Running? && c.pc in sites && c.pc < |stmts| && stmts[c.pc].Invocation?
    && CanTake(c.vars, Operands(stmts[c.pc]))
  }

  function LastAfter(stmts: seq<Statement>, sites: set<StmtIdx>, r: State): seq<Value> {
    if Calls(stmts, sites, r.config) then Lookup(r.config.vars, Operands(stmts[r.config.pc])) else r.last
  }

  function ResetStep(stmts: seq<Statement>, f: Function, back: set<VarId>, sites: set<StmtIdx>, exec: Meaning,
                     r: State): State
  {
    var last := LastAfter(stmts, sites, r);
    State(Arrive(f, back, Step(stmts, f, sites, exec, r.config), last), last)
  }

  function ResetRun(stmts: seq<Statement>, f: Function, back: set<VarId>, sites: set<StmtIdx>, exec: Meaning,
                    args: seq<Value>, world: World, n: nat): State
  {
    if n == 0 then State(Enter(f, args, world, []), args)
    else ResetStep(stmts, f, back, sites, exec, ResetRun(stmts, f, back, sites, exec, args, world, n - 1))
  }

  ghost predicate ResetReturns(stmts: seq<Statement>, f: Function, back: set<VarId>, sites: set<StmtIdx>, exec: Meaning,
                               args: seq<Value>, world: World, values: seq<Value>, world': World)
  {
    exists n: nat :: ResetRun(stmts, f, back, sites, exec, args, world, n).config == Done(values, world')
  }

  /** When no variable falls back this is the function's own machine. */
  lemma {:induction false} NothingReset(stmts: seq<Statement>, f: Function, sites: set<StmtIdx>, exec: Meaning,
                                        args: seq<Value>, world: World, n: nat)
    ensures ResetRun(stmts, f, {}, sites, exec, args, world, n).config
         == Run(stmts, f, sites, exec, Enter(f, args, world, []), n)
  {
    hide ResetStep, Step, Enter;
    if n > 0 {
      NothingReset(stmts, f, sites, exec, args, world, n - 1);
      StepNotReset(stmts, f, sites, exec, ResetRun(stmts, f, {}, sites, exec, args, world, n - 1));
    }
  }

  lemma StepNotReset(stmts: seq<Statement>, f: Function, sites: set<StmtIdx>, exec: Meaning, r: State)
    ensures ResetStep(stmts, f, {}, sites, exec, r).config == Step(stmts, f, sites, exec, r.config)
  {
    hide Arrive, Step;
    ArriveSame(f, Step(stmts, f, sites, exec, r.config), LastAfter(stmts, sites, r));
  }

  lemma ArriveSame(f: Function, c: Config, last: seq<Value>)
    ensures Arrive(f, {}, c, last) == c
  {
    if c.Running? && |last| == |f.params| {
      assert Fallen(f, {}, c.vars, last) == c.vars;
    }
  }

  /** A run that has stopped stays where it is. */
  lemma {:induction false} ResetStops(stmts: seq<Statement>, f: Function, back: set<VarId>, sites: set<StmtIdx>,
                                      exec: Meaning, args: seq<Value>, world: World, m: nat, n: nat)
    requires m <= n && !ResetRun(stmts, f, back, sites, exec, args, world, m).config.Running?
    ensures ResetRun(stmts, f, back, sites, exec, args, world, n)
         == ResetRun(stmts, f, back, sites, exec, args, world, m)
    decreases n - m
  {
    if m < n {
      ResetStops(stmts, f, back, sites, exec, args, world, m, n - 1);
    }
  }
}
