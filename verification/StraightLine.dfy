/** What the machine over variables makes of code without choices: a fixed point of reference for it. */
module StraightLine {
  import opened VarMaps
  import opened Sierra

  /** One libfunc after the other, each with one operand and one result, and a return of the last result:
      `ids` are the variables in between. */
  ghost predicate IsChain(stmts: seq<Statement>, entry: StmtIdx, libfuncs: seq<Libfunc>, ids: seq<VarId>) {
    && |ids| == |libfuncs| + 1 && entry + |libfuncs| < |stmts|
    && (forall i :: 0 <= i < |libfuncs| ==> LinkAt(stmts, entry + i, libfuncs[i], ids[i], ids[i + 1]))
    && stmts[entry + |libfuncs|] == Return([ids[|libfuncs|]])
  }

  ghost predicate LinkAt(stmts: seq<Statement>, s: StmtIdx, libfunc: Libfunc, x: VarId, y: VarId)
    requires s < |stmts|
  {
    && stmts[s].Invocation? && stmts[s].libfunc == libfunc && stmts[s].args == [x]
    && |stmts[s].branches| == 1 && stmts[s].branches[0].target == Fallthrough && stmts[s].branches[0].results == [y]
  }

  /** The values and worlds that the libfuncs lead through. */
  ghost predicate Leads(exec: Meaning, libfuncs: seq<Libfunc>, values: seq<Value>, worlds: seq<World>) {
    && |values| == |worlds| == |libfuncs| + 1
    && forall i :: 0 <= i < |libfuncs| ==>
         exec(libfuncs[i], worlds[i], [values[i]]) == Outcome(0, worlds[i + 1], [values[i + 1]])
  }

  /** A chain hands each libfunc the value and the world that the one before it gave, and returns the last. */
  lemma ChainReturns(stmts: seq<Statement>, f: Function, exec: Meaning, libfuncs: seq<Libfunc>, ids: seq<VarId>,
                     values: seq<Value>, worlds: seq<World>)
    requires IsChain(stmts, f.entry, libfuncs, ids) && Leads(exec, libfuncs, values, worlds) && f.params == [ids[0]]
    ensures Returns(stmts, f, {}, exec, [values[0]], worlds[0], [values[|libfuncs|]], worlds[|libfuncs|])
  {
    OneVariable(ids[0], values[0]);
    ChainRuns(stmts, f, exec, libfuncs, ids, values, worlds, |libfuncs|);
    hide IsChain, Leads, Run;
    var k := |libfuncs|;
    LastStep(stmts, f, exec, libfuncs, ids, values[k], worlds[k]);
    OneMoreStep(stmts, f, exec, Enter(f, [values[0]], worlds[0], []), k);
  }

  lemma OneMoreStep(stmts: seq<Statement>, f: Function, exec: Meaning, c: Config, k: nat)
    ensures Run(stmts, f, {}, exec, c, k + 1) == Step(stmts, f, {}, exec, Run(stmts, f, {}, exec, c, k))
  {
  }

  lemma OneVariable(x: VarId, v: Value)
    ensures ZipMap([x], [v]) == map[x := v] && Put(map[], [x], [v]) == map[x := v]
    ensures Lookup(map[x := v], [x]) == [v] && Rest(map[x := v], [x]) == map[] && CanTake(map[x := v], [x])
  {
    assert [x][IndexOf([x], x)] == x;
    assert x in IdSet([x]);
  }

  lemma LastStep(stmts: seq<Statement>, f: Function, exec: Meaning, libfuncs: seq<Libfunc>, ids: seq<VarId>, v: Value,
                 world: World)
    requires IsChain(stmts, f.entry, libfuncs, ids)
    ensures Step(stmts, f, {}, exec, Running(f.entry + |libfuncs|, map[ids[|libfuncs|] := v], world, []))
         == Done([v], world)
  {
    OneVariable(ids[|libfuncs|], v);
  }

  lemma {:induction false} ChainRuns(stmts: seq<Statement>, f: Function, exec: Meaning, libfuncs: seq<Libfunc>,
                                     ids: seq<VarId>, values: seq<Value>, worlds: seq<World>, k: nat)
    requires IsChain(stmts, f.entry, libfuncs, ids) && Leads(exec, libfuncs, values, worlds) && f.params == [ids[0]]
    requires k <= |libfuncs|
    ensures Run(stmts, f, {}, exec, Enter(f, [values[0]], worlds[0], []), k)
         == Running(f.entry + k, map[ids[k] := values[k]], worlds[k], [])
  {
    hide Step;
    if k == 0 {
      OneVariable(ids[0], values[0]);
    } else {
      ChainRuns(stmts, f, exec, libfuncs, ids, values, worlds, k - 1);
      assert LinkAt(stmts, f.entry + (k - 1), libfuncs[k - 1], ids[k - 1], ids[k - 1 + 1]);
      LinkStep(stmts, f, exec, f.entry + (k - 1), libfuncs[k - 1], ids[k - 1], ids[k], values[k - 1], worlds[k - 1],
               values[k], worlds[k]);
    }
  }

  lemma LinkStep(stmts: seq<Statement>, f: Function, exec: Meaning, s: StmtIdx, libfunc: Libfunc, x: VarId, y: VarId,
                 v: Value, world: World, v': Value, world': World)
    requires s < |stmts| && LinkAt(stmts, s, libfunc, x, y)
    requires exec(libfunc, world, [v]) == Outcome(0, world', [v'])
    ensures Step(stmts, f, {}, exec, Running(s, map[x := v], world, [])) == Running(s + 1, map[y := v'], world', [])
  {
    OneVariable(x, v);
    OneVariable(y, v');
  }

  /** Operands, results and returned values keep their order: parameters taken the other way round, and results
      returned the other way round. */
  lemma OrderKept(stmts: seq<Statement>, f: Function, exec: Meaning, libfunc: Libfunc, t: StmtIdx, a: VarId, b: VarId,
                  c: VarId, d: VarId, va: Value, vb: Value, vc: Value, vd: Value, world: World, world': World)
    requires f.entry < |stmts| && t < |stmts| && f.params == [a, b] && a != b && c != d
    requires stmts[f.entry].Invocation? && stmts[f.entry].libfunc == libfunc && stmts[f.entry].args == [b, a]
    requires var branches := stmts[f.entry].branches;
             |branches| == 2 && branches[1].target == Statement(t) && branches[1].results == [c, d]
    requires stmts[t] == Return([d, c]) && exec(libfunc, world, [vb, va]) == Outcome(1, world', [vc, vd])
    ensures Returns(stmts, f, {}, exec, [va, vb], world, [vd, vc], world')
  {
    TwoVariables(a, b, va, vb);
    TwoVariables(c, d, vc, vd);
    var start := Enter(f, [va, vb], world, []);
    assert start == Running(f.entry, map[a := va, b := vb], world, []);
    assert Step(stmts, f, {}, exec, start) == Running(t, map[c := vc, d := vd], world', []);
    assert Run(stmts, f, {}, exec, start, 0) == start;
    assert Run(stmts, f, {}, exec, start, 1) == Running(t, map[c := vc, d := vd], world', []);
    assert Run(stmts, f, {}, exec, start, 2) == Done([vd, vc], world');
  }

  lemma TwoVariables(x: VarId, y: VarId, v: Value, w: Value)
    requires x != y
    ensures ZipMap([x, y], [v, w]) == map[x := v, y := w] == Put(map[], [x, y], [v, w])
    ensures CanPut<Value>(map[], [x, y]) && CanTake(map[x := v, y := w], [y, x])
    ensures Lookup(map[x := v, y := w], [y, x]) == [w, v] && Rest(map[x := v, y := w], [y, x]) == map[]
  {
    IndexOfUnique([x, y], 0);
    IndexOfUnique([x, y], 1);
    assert IdSet([x, y]) == {x, y} && IdSet([y, x]) == {x, y};
  }
}
