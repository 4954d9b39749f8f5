/** Functions that come back to their entry statement: exactly which of them the compiler miscompiles. */
module EntryLoop {
  import opened VarMaps
  import opened Sierra
  import opened Blocks
  import opened Lowering
  import opened Resets
  import opened Simulation
  import opened KeptEntry
  import opened Compiler
  import Recursion

  // ----- a landing block that is jumped past -----

  ghost predicate Built(u: Unit) {
    ValidStructure(u.stmts, u.f, u.st) && Lowered(u.stmts, u.f, u.st, u.site, u.cm, u.code)
  }

  /** The variable will still be needed, and its register has not been set. */
  ghost predicate Doomed(u: Unit, x: VarId, c: TConfig) {
    && c.TRunning? && c.block.Body? && c.block.stmt < |u.stmts| && c.block.stmt in u.cm && c.block.stmt in u.st.states
    && x in u.cm[c.block.stmt] && x in u.st.states[c.block.stmt]
    && x !in Operands(u.stmts[c.block.stmt]) && u.cm[c.block.stmt][x] !in c.regs
  }

  lemma BuiltAt(u: Unit, s: StmtIdx)
    requires Built(u) && s in u.cm
    ensures s < |u.stmts| && s in u.st.states && u.cm[s].Keys == u.st.states[s].Keys
    ensures LoweredBody(u.stmts, u.f, u.st, u.site, u.cm, u.code, s)
    ensures ConsistentAt(u.stmts, u.st.states, s)
    ensures forall x :: x in u.cm[s] ==> OldRegister(u.cm[s][x], s)
  {
  }

  lemma BuiltEdge(u: Unit, s: StmtIdx, b: nat)
    requires Built(u) && s in u.cm && s < |u.stmts| && s in u.st.states && b < |Branches(u.stmts[s])|
    ensures var br := Branches(u.stmts[s])[b];
            var t := Next(s, br.target);
            && t in u.st.states && t in u.cm && t < |u.stmts| && u.cm[t].Keys == u.st.states[t].Keys
            && ConsistentBranch(u.stmts, u.st.states, s, Rest(u.st.states[s], Operands(u.stmts[s])), br)
            && (t != u.f.entry && !u.st.HasLanding(t) ==>
                  u.cm[t] == Put(Rest(u.cm[s], Operands(u.stmts[s])), br.results,
                                 BranchRegs(u.site, s, b, |br.results|)))
  {
    assert ConsistentAt(u.stmts, u.st.states, s);
    assert IsEdge(u.stmts, s, b, Next(s, Branches(u.stmts[s])[b].target));
  }

  /** An edge that has to pass the variable cannot be followed. */
  lemma EdgeStuck(u: Unit, x: VarId, s: StmtIdx, br: Branch, e: Edge, rm: RegMap, regs: Registers, results: seq<Value>,
                  world: World, counter: nat)
    requires IsEdgeFor(u.stmts, u.st, s, br, rm, e)
    requires x in TargetVars(u.stmts, u.st, Next(s, br.target)) && x !in br.results && x in rm && rm[x] !in regs
    ensures Follow(u.code, e, regs, results, world, counter) == TStuck
  {
    hide TargetVars, EnterBlock;
    var names := TargetVars(u.stmts, u.st, Next(s, br.target));
    var i :| 0 <= i < |names| && names[i] == x;
    assert e.operands[i] == External(rm[x]);
    assert !Resolvable(e.operands, regs, results);
  }

  /** An edge to a body that does not take the variable leaves it waiting. */
  lemma EdgeDooms(u: Unit, x: VarId, t: StmtIdx, e: Edge, regs: Registers, results: seq<Value>, world: World,
                  counter: nat)
    requires t < |u.stmts| && t in u.cm && t in u.st.states && x in u.cm[t] && x in u.st.states[t]
    requires x !in Operands(u.stmts[t]) && u.cm[t][x] !in regs && OldRegister(u.cm[t][x], t)
    requires e.target == Body(t)
    ensures var c := Follow(u.code, e, regs, results, world, counter); c.TStuck? || Doomed(u, x, c)
  {
    hide Resolve, Resolvable;
    if Resolvable(e.operands, regs, results) {
      assert u.cm[t][x] !in ArgMap(Body(t), Resolve(e.operands, regs, results));
    }
  }

  lemma InLanding(st: Structure, t: StmtIdx, x: VarId)
    requires t in st.states && x in st.states[t]
    ensures x in LandingVars(st, t)
  {
    SortedKeeps(st.states[t].Keys);
    hide Sorted;
    assert x in IdSet(LandingVars(st, t));
  }

  lemma DoomedEdge(u: Unit, x: VarId, s: StmtIdx, b: nat, e: Edge, regs: Registers, results: seq<Value>, world: World,
                   counter: nat)
    requires Built(u) && !EntryLands(u.stmts, u.f, u.st)
    requires s in u.cm && s < |u.stmts| && s in u.st.states && b < |Branches(u.stmts[s])|
    requires x in u.cm[s] && x in u.st.states[s] && x !in Operands(u.stmts[s]) && u.cm[s][x] !in regs
    requires IsEdgeFor(u.stmts, u.st, s, Branches(u.stmts[s])[b], Rest(u.cm[s], Operands(u.stmts[s])), e)
    ensures var c := Follow(u.code, e, regs, results, world, counter); c.TStuck? || Doomed(u, x, c)
  {
    BuiltEdge(u, s, b);
    var br := Branches(u.stmts[s])[b];
    var t := Next(s, br.target);
    var rm := Rest(u.cm[s], Operands(u.stmts[s]));
    BuiltAt(u, t);
    hide Built, IsEdgeFor, Follow, Doomed, OldRegister, LoweredBody, ConsistentAt;
    assert x !in br.results && x in u.st.states[t] by { XStays(u, x, s, br); }
    hide ConsistentBranch, LandingVars, LandingRegs, BranchRegs, Put;
    if x in TargetVars(u.stmts, u.st, t) {
      EdgeStuck(u, x, s, br, e, rm, regs, results, world, counter);
    } else {
      if u.st.HasLanding(t) { InLanding(u.st, t, x); assert false; }
      PutKeepsOther(rm, br.results, BranchRegs(u.site, s, b, |br.results|), x);
      EdgeTarget(u, s, br, rm, e);
      EdgeDooms(u, x, t, e, regs, results, world, counter);
    }
  }

  lemma EdgeTarget(u: Unit, s: StmtIdx, br: Branch, rm: RegMap, e: Edge)
    requires IsEdgeFor(u.stmts, u.st, s, br, rm, e)
    ensures e.target == TargetBlock(u.st, Next(s, br.target))
  {
  }

  lemma XStays(u: Unit, x: VarId, s: StmtIdx, br: Branch)
    requires s < |u.stmts| && s in u.st.states && x in u.st.states[s] && x !in Operands(u.stmts[s])
    requires ConsistentBranch(u.stmts, u.st.states, s, Rest(u.st.states[s], Operands(u.stmts[s])), br)
    ensures x !in br.results && x in u.st.states[Next(s, br.target)]
  {
  }

  lemma PutKeepsOther<T>(state: map<VarId, T>, ids: seq<VarId>, vals: seq<T>, x: VarId)
    requires |ids| == |vals| && x in state && x !in ids
    ensures x in Put(state, ids, vals) && Put(state, ids, vals)[x] == state[x]
  {
  }

  lemma DoomedStep(u: Unit, x: VarId, c: TConfig)
    requires Built(u) && !EntryLands(u.stmts, u.f, u.st) && Doomed(u, x, c)
    ensures var d := TStep(u.code, u.exec, c); d.TStuck? || Doomed(u, x, d)
  {
    hide Built, EntryLands, IsEdgeFor, Follow, LoweredBody, Readable, ArgRegs, ResultMap, OldRegister, TStep;
    var s := c.block.stmt;
    DoomedLibfunc(u, x, s);
    var t := u.code.blocks[Body(s)][0];
    LibfuncStep(u.code, u.exec, c);
    if !TStep(u.code, u.exec, c).TStuck? {
      var out := u.exec(t.libfunc, c.world, Read(c.regs, ArgRegs(Body(s), u.code.arity[Body(s)])));
      ResultsElsewhere(u, x, c, out.branch, out.results);
      DoomedEdge(u, x, s, out.branch, t.edges[out.branch], c.regs + ResultMap(s, out.branch, out.results),
                 out.results, out.world, c.counter);
    }
  }

  lemma LibfuncStep(code: Code, exec: Meaning, c: TConfig)
    requires c.TRunning? && c.block in code.blocks && |code.blocks[c.block]| == 1 && c.block in code.arity
    requires code.blocks[c.block][0].RunLibfunc?
    ensures TStep(code, exec, c).TStuck? ||
      (var t, args := code.blocks[c.block][0], ArgRegs(c.block, code.arity[c.block]);
       Readable(c.regs, args) &&
       (var out := exec(t.libfunc, c.world, Read(c.regs, args));
        out.branch < |t.edges| && TStep(code, exec, c) ==
          Follow(code, t.edges[out.branch], c.regs + ResultMap(t.stmt, out.branch, out.results), out.results,
                 out.world, c.counter)))
  {
    hide Follow, ResultMap, Readable, ArgRegs;
  }

  /** A statement that leaves a variable to be used later runs a libfunc, and is no tail call. */
  lemma DoomedLibfunc(u: Unit, x: VarId, s: StmtIdx)
    requires Built(u) && s in u.cm && s in u.st.states && x in u.st.states[s]
    requires s < |u.stmts| && x !in Operands(u.stmts[s])
    ensures x in u.cm[s] && OldRegister(u.cm[s][x], s)
    ensures Body(s) in u.code.blocks && |u.code.blocks[Body(s)]| == 1 && Body(s) in u.code.arity
    ensures var t := u.code.blocks[Body(s)][0];
            && t.RunLibfunc? && t.stmt == s && |t.edges| == |t.arities| == |Branches(u.stmts[s])|
            && forall b :: 0 <= b < |t.edges| ==>
                 IsEdgeFor(u.stmts, u.st, s, Branches(u.stmts[s])[b], Rest(u.cm[s], Operands(u.stmts[s])), t.edges[b])
  {
    BuiltAt(u, s);
    assert x in Rest(u.st.states[s], Operands(u.stmts[s]));
    if s in u.site { TakenBySites(u, s); assert false; }
    hide Built, IsEdgeFor, OldRegister;
  }

  lemma ResultsElsewhere(u: Unit, x: VarId, c: TConfig, b: nat, results: seq<Value>)
    requires Doomed(u, x, c) && OldRegister(u.cm[c.block.stmt][x], c.block.stmt)
    ensures u.cm[c.block.stmt][x] !in c.regs + ResultMap(c.block.stmt, b, results)
  {
  }

  lemma TakenBySites(u: Unit, s: StmtIdx)
    requires Built(u) && s in u.site
    ensures s < |u.stmts| && s in u.st.states && Rest(u.st.states[s], Operands(u.stmts[s])) == map[]
  {
  }

  lemma LandingRegister(st: Structure, s: StmtIdx, x: VarId)
    requires s in st.states && x in st.states[s]
    ensures x in LandingRegs(st, s) && LandingRegs(st, s)[x].Arg? && LandingRegs(st, s)[x].block == Landing(s)
  {
    SortedKeeps(st.states[s].Keys);
    hide Sorted;
    assert x in IdSet(LandingVars(st, s));
  }

  lemma EntryWaits(u: Unit) returns (x: VarId)
    requires Built(u) && !EntryLands(u.stmts, u.f, u.st)
    ensures u.f.entry < |u.stmts| && u.f.entry in u.cm && u.f.entry in u.st.states
    ensures x in u.cm[u.f.entry] && x in u.st.states[u.f.entry] && x !in Operands(u.stmts[u.f.entry])
    ensures u.cm[u.f.entry][x].Arg? && u.cm[u.f.entry][x].block == Landing(u.f.entry)
    ensures LoweredEntry(u.stmts, u.f, u.code)
  {
    EntryBuilt(u);
    hide Built;
    x :| x in Untaken(u.stmts, u.f);
    LandingRegister(u.st, u.f.entry, x);
  }

  lemma EntryBuilt(u: Unit)
    requires Built(u) && u.st.HasLanding(u.f.entry)
    ensures u.f.entry < |u.stmts| && u.f.entry in u.cm && u.f.entry in u.st.states
    ensures u.st.states[u.f.entry].Keys == IdSet(u.f.params)
    ensures u.cm[u.f.entry] == LandingRegs(u.st, u.f.entry)
    ensures u.stmts[u.f.entry].Invocation?
    ensures LoweredEntry(u.stmts, u.f, u.code)
  {
    hide LoweredBody, LoweredLanding, ConsistentAt;
    assert CountsAt(u.stmts, u.st.states.Keys, u.st.predecessors, u.f.entry);
    var edges := InEdges(u.stmts, u.st.states.Keys, u.f.entry);
    assert edges != {};
    var e :| e in edges;
    EntryInvokes(u, e.0, e.1);
  }

  /** No branch leads to an entry statement that is a return. */
  lemma EntryInvokes(u: Unit, s: StmtIdx, b: nat)
    requires Built(u) && s in u.st.states && IsEdge(u.stmts, s, b, u.f.entry) && u.f.entry < |u.stmts|
    ensures u.stmts[u.f.entry].Invocation?
  {
    if u.stmts[u.f.entry].Return? {
      OnlyEntry(u);
      assert false;
    }
  }

  lemma OnlyEntry(u: Unit)
    requires Built(u) && u.f.entry < |u.stmts| && u.stmts[u.f.entry].Return?
    ensures u.st.states.Keys <= {u.f.entry}
  {
    assert Closed(u.stmts, {u.f.entry});
  }

  lemma {:induction false} StaysDoomed(u: Unit, x: VarId, c: TConfig, n: nat)
    requires Built(u) && !EntryLands(u.stmts, u.f, u.st) && (c.TStuck? || Doomed(u, x, c))
    ensures TRun(u.code, u.exec, c, n).TStuck? || Doomed(u, x, TRun(u.code, u.exec, c, n))
  {
    hide Built, EntryLands, Doomed;
    if n > 0 {
      StaysDoomed(u, x, c, n - 1);
      if !TRun(u.code, u.exec, c, n - 1).TStuck? {
        DoomedStep(u, x, TRun(u.code, u.exec, c, n - 1));
      }
    }
  }

  lemma EntryStep(u: Unit, args: seq<Value>, world: World) returns (vals: seq<Value>)
    requires LoweredEntry(u.stmts, u.f, u.code)
    ensures TStart(u.code, args, world).TStuck? || TStart(u.code, args, world).TRunning?
    ensures var c := TStep(u.code, u.exec, TStart(u.code, args, world));
            c.TStuck? || c == EnterBlock(u.code, Body(u.f.entry), vals, ArgMap(Entry, args), world, 0)
  {
    hide EntryRegs, ArgMap, ArgRegs;
    vals := [];
    var regs := ArgMap(Entry, args);
    assert map[] + regs == regs;
    var rs := Lookup(EntryRegs(u.f), Operands(u.stmts[u.f.entry]));
    if Readable(regs, rs) {
      vals := Read(regs, rs);
    }
  }

  lemma EnterDooms(u: Unit, x: VarId, vals: seq<Value>, regs: Registers, world: World)
    requires u.f.entry < |u.stmts| && u.f.entry in u.cm && u.f.entry in u.st.states
    requires x in u.cm[u.f.entry] && x in u.st.states[u.f.entry] && x !in Operands(u.stmts[u.f.entry])
    requires u.cm[u.f.entry][x] !in regs + ArgMap(Body(u.f.entry), vals)
    ensures var c := EnterBlock(u.code, Body(u.f.entry), vals, regs, world, 0); c.TStuck? || Doomed(u, x, c)
  {
    hide ArgMap;
  }

  lemma StartsDoomed(u: Unit, args: seq<Value>, world: World) returns (x: VarId)
    requires Built(u) && !EntryLands(u.stmts, u.f, u.st)
    ensures TStart(u.code, args, world).TStuck? || TStart(u.code, args, world).TRunning?
    ensures var c := TStep(u.code, u.exec, TStart(u.code, args, world)); c.TStuck? || Doomed(u, x, c)
  {
    x := EntryWaits(u);
    hide Built, EntryLands, LoweredEntry, ArgMap, TStep, TStart, EnterBlock, Doomed;
    var vals := EntryStep(u, args, world);
    EntryArgs(u, x, args);
    StillUnset(u.cm[u.f.entry][x], u.f.entry, ArgMap(Entry, args), vals);
    EnterDooms(u, x, vals, ArgMap(Entry, args), world);
  }

  lemma EntryArgs(u: Unit, x: VarId, args: seq<Value>)
    requires u.f.entry in u.cm && x in u.cm[u.f.entry] && u.cm[u.f.entry][x].Arg?
    requires u.cm[u.f.entry][x].block == Landing(u.f.entry)
    ensures u.cm[u.f.entry][x] !in ArgMap(Entry, args)
  {
  }

  lemma StillUnset(r: Reg, s: StmtIdx, regs: Registers, vals: seq<Value>)
    requires r.Arg? && r.block == Landing(s) && r !in regs
    ensures r !in regs + ArgMap(Body(s), vals)
  {
  }

  /** Blocks whose entry block jumps past a landing block that has something to hand on never return. */
  lemma NeverReturns(u: Unit, args: seq<Value>, world: World, values: seq<Value>, world': World)
    requires Built(u) && !EntryLands(u.stmts, u.f, u.st)
    ensures !TReturns(u.code, u.exec, args, world, values, world')
  {
    hide Built, EntryLands, TStart, TStep, TRun, Doomed;
    var x := StartsDoomed(u, args, world);
    var start := TStart(u.code, args, world);
    forall n: nat ensures !TRun(u.code, u.exec, start, n).TDone? {
      DoomedRun(u, x, start, n);
    }
  }

  lemma DoomedRun(u: Unit, x: VarId, start: TConfig, n: nat)
    requires Built(u) && !EntryLands(u.stmts, u.f, u.st) && !start.TDone?
    requires var c := TStep(u.code, u.exec, start); c.TStuck? || Doomed(u, x, c)
    ensures !TRun(u.code, u.exec, start, n).TDone?
  {
    hide Built, EntryLands, TStep;
    if n > 0 {
      StaysDoomed(u, x, TStep(u.code, u.exec, start), n - 1);
      TRunAdd(u.code, u.exec, start, 1, n - 1);
      assert TRun(u.code, u.exec, start, 0) == start;
    }
  }
}
