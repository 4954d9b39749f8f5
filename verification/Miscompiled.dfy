/** A way round to the entry statement that changes a variable which that statement leaves alone is
    miscompiled for some meaning of the libfuncs: one that leads round that way and on to a return. */
module Miscompiled {
  import opened VarMaps
  import opened Sierra
  import opened Blocks
  import opened Lowering
  import opened Resets
  import opened Simulation
  import opened KeptEntry
  import opened Compiler
  import opened EntryLoop
  import Recursion

  /** A run along `steps`: each world leads to the next one, arguments are stale and results fresh, and
      statement number `test` goes wrong when its operand number `pos` is stale. */
  datatype Drive = Drive(steps: seq<(StmtIdx, nat)>, worlds: nat -> World, stale: Value, made: Value, test: nat,
                         pos: nat)

  ghost predicate Apart(worlds: nat -> World) {
    forall i: nat, j: nat :: worlds(i) == worlds(j) ==> i == j
  }

  function Copies(v: Value, n: nat): (vs: seq<Value>)
    ensures |vs| == n && forall i :: 0 <= i < n ==> vs[i] == v
  {
    seq(n, _ => v)
  }

  /** What statement number `i` does. */
  function Driven(stmts: seq<Statement>, d: Drive, i: nat, args: seq<Value>): Outcome
    requires i < |d.steps| && d.steps[i].0 < |stmts| && d.steps[i].1 < |Branches(stmts[d.steps[i].0])|
  {
    var (s, b) := d.steps[i];
    if i == d.test && d.pos < |args| && args[d.pos] == d.stale then
      Outcome(|Branches(stmts[s])|, d.worlds(i), [])
    else
      Outcome(b, d.worlds(i + 1), Copies(d.made, |Branches(stmts[s])[b].results|))
  }

  ghost function DrivenIn(stmts: seq<Statement>, d: Drive, world: World, args: seq<Value>): Outcome {
    if i: nat :| i < |d.steps| && d.worlds(i) == world && d.steps[i].0 < |stmts|
                 && d.steps[i].1 < |Branches(stmts[d.steps[i].0])|
    then Driven(stmts, d, i, args)
    else Outcome(0, world, [])
  }

  ghost function Driving(stmts: seq<Statement>, d: Drive): Meaning {
    (libfunc: Libfunc, world: World, args: seq<Value>) => DrivenIn(stmts, d, world, args)
  }

  lemma DrivingIs(stmts: seq<Statement>, d: Drive, i: nat, libfunc: Libfunc, args: seq<Value>)
    requires Apart(d.worlds) && i < |d.steps| && d.steps[i].0 < |stmts| &&
             d.steps[i].1 < |Branches(stmts[d.steps[i].0])|
    ensures Driving(stmts, d)(libfunc, d.worlds(i), args) == Driven(stmts, d, i, args)
  {
  }

  // ----- the run -----

  /** After `i` steps the run is at the next statement, in the next world, inside no recursive call. */
  ghost predicate OnTrack(u: Unit, d: Drive, t: StmtIdx, r: State, i: nat) {
    && r.config.Running? && r.config.pc == StmtAt(d.steps, t, i) && r.config.world == d.worlds(i)
    && r.config.stack == [] && r.config.pc in u.st.states
    && r.config.vars.Keys == u.st.states[r.config.pc].Keys
    && r.last == Copies(d.stale, |u.f.params|)
  }

  ghost predicate Driver(u: Unit, d: Drive, t: StmtIdx) {
    && ValidStructure(u.stmts, u.f, u.st) && Apart(d.worlds) && d.stale != d.made
    && Walk(u.stmts, u.site, u.f.entry, d.steps, t) && u.exec == Driving(u.stmts, d)
  }

  /** The operand that the test looks at is stale. */
  ghost predicate Fails(u: Unit, d: Drive, r: State, i: nat) {
    && i == d.test && r.config.Running? && r.config.pc < |u.stmts| && d.pos < |Operands(u.stmts[r.config.pc])|
    && Operands(u.stmts[r.config.pc])[d.pos] in r.config.vars
    && r.config.vars[Operands(u.stmts[r.config.pc])[d.pos]] == d.stale
  }

  lemma WalkFacts(u: Unit, d: Drive, t: StmtIdx, i: nat)
    requires Driver(u, d, t) && i < |d.steps| && d.steps[i].0 in u.st.states
    ensures var (s, b) := d.steps[i];
            && s < |u.stmts| && b < |Branches(u.stmts[s])| && s !in u.site && u.stmts[s].Invocation?
            && Next(s, Branches(u.stmts[s])[b].target) == StmtAt(d.steps, t, i + 1)
            && CanTake(u.st.states[s], Operands(u.stmts[s]))
            && ConsistentBranch(u.stmts, u.st.states, s, Rest(u.st.states[s], Operands(u.stmts[s])),
                                Branches(u.stmts[s])[b])
  {
    var (s, b) := d.steps[i];
    assert StepOn(u.stmts, u.site, d.steps, t, i) && ConsistentAt(u.stmts, u.st.states, s);
  }

  /** The dictionary after statement number `i`. */
  function AfterStep(u: Unit, d: Drive, i: nat, vars: map<VarId, Value>): map<VarId, Value>
    requires i < |d.steps| && d.steps[i].0 < |u.stmts| && d.steps[i].1 < |Branches(u.stmts[d.steps[i].0])|
  {
    var (s, b) := d.steps[i];
    var br := Branches(u.stmts[s])[b];
    Put(Rest(vars, Operands(u.stmts[s])), br.results, Copies(d.made, |br.results|))
  }

  lemma AfterKeys(u: Unit, d: Drive, t: StmtIdx, i: nat, vars: map<VarId, Value>)
    requires Driver(u, d, t) && i < |d.steps| && d.steps[i].0 in u.st.states
    requires vars.Keys == u.st.states[d.steps[i].0].Keys
    ensures d.steps[i].0 < |u.stmts| && d.steps[i].1 < |Branches(u.stmts[d.steps[i].0])|
    ensures StmtAt(d.steps, t, i + 1) in u.st.states
    ensures AfterStep(u, d, i, vars).Keys == u.st.states[StmtAt(d.steps, t, i + 1)].Keys
    ensures CanPut(Rest(vars, Operands(u.stmts[d.steps[i].0])), Branches(u.stmts[d.steps[i].0])[d.steps[i].1].results)
  {
    WalkFacts(u, d, t, i);
    hide Driver;
  }

  /** Taken variables come back fresh, the others stay. */
  lemma AfterValues(u: Unit, d: Drive, i: nat, vars: map<VarId, Value>, x: VarId)
    requires i < |d.steps| && d.steps[i].0 < |u.stmts| && d.steps[i].1 < |Branches(u.stmts[d.steps[i].0])|
    requires CanPut(Rest(vars, Operands(u.stmts[d.steps[i].0])), Branches(u.stmts[d.steps[i].0])[d.steps[i].1].results)
    requires x in AfterStep(u, d, i, vars)
    ensures var kept := x in vars && x !in Operands(u.stmts[d.steps[i].0]);
            AfterStep(u, d, i, vars)[x] == if kept then vars[x] else d.made
  {
  }

  lemma DrivenStep(u: Unit, back: set<VarId>, d: Drive, t: StmtIdx, r: State, i: nat)
    requires Driver(u, d, t) && OnTrack(u, d, t, r, i) && i < |d.steps| && !Fails(u, d, r, i)
    ensures d.steps[i].0 < |u.stmts| && d.steps[i].1 < |Branches(u.stmts[d.steps[i].0])|
    ensures ResetStep(u.stmts, u.f, back, u.site, u.exec, r) ==
            State(Arrive(u.f, back, Running(StmtAt(d.steps, t, i + 1), AfterStep(u, d, i, r.config.vars),
                                            d.worlds(i + 1), []),
                         r.last), r.last)
  {
    WalkFacts(u, d, t, i);
    AfterKeys(u, d, t, i, r.config.vars);
    var s := d.steps[i].0;
    DrivingIs(u.stmts, d, i, u.stmts[s].libfunc, Lookup(r.config.vars, Operands(u.stmts[s])));
    assert u.exec == Driving(u.stmts, d);
    hide Driver, Driving, Arrive, Put;
  }

  lemma FailedStep(u: Unit, back: set<VarId>, d: Drive, t: StmtIdx, r: State, i: nat)
    requires Driver(u, d, t) && OnTrack(u, d, t, r, i) && i < |d.steps| && Fails(u, d, r, i)
    ensures ResetStep(u.stmts, u.f, back, u.site, u.exec, r).config == Stuck
  {
    WalkFacts(u, d, t, i);
    var s := d.steps[i].0;
    DrivingIs(u.stmts, d, i, u.stmts[s].libfunc, Lookup(r.config.vars, Operands(u.stmts[s])));
    assert u.exec == Driving(u.stmts, d);
    hide Driver, Driving, Put;
  }

  lemma ArriveKeys(u: Unit, back: set<VarId>, pc: StmtIdx, vars: map<VarId, Value>, world: World, last: seq<Value>)
    requires ValidStructure(u.stmts, u.f, u.st) && back <= IdSet(u.f.params)
    requires pc in u.st.states && vars.Keys == u.st.states[pc].Keys
    ensures var c := Arrive(u.f, back, Running(pc, vars, world, []), last);
            && c.Running? && c.pc == pc && c.world == world && c.stack == []
            && c.vars.Keys == u.st.states[pc].Keys
            && forall x :: x in vars ==> (pc != u.f.entry || x !in back ==> c.vars[x] == vars[x])
  {
    assert u.st.states[u.f.entry].Keys == IdSet(u.f.params);
    hide ValidStructure, ZipMap;
  }

  ghost function DriveRun(u: Unit, back: set<VarId>, d: Drive, n: nat): State {
    ResetRun(u.stmts, u.f, back, u.site, u.exec, Copies(d.stale, |u.f.params|), d.worlds(0), n)
  }

  lemma StartsOnTrack(u: Unit, back: set<VarId>, d: Drive, t: StmtIdx)
    requires Driver(u, d, t)
    ensures OnTrack(u, d, t, DriveRun(u, back, d, 0), 0)
  {
    assert u.st.states[u.f.entry].Keys == IdSet(u.f.params);
  }

  lemma NextOnTrack(u: Unit, back: set<VarId>, d: Drive, t: StmtIdx, n: nat)
    requires Driver(u, d, t) && back <= IdSet(u.f.params) && n < |d.steps|
    requires OnTrack(u, d, t, DriveRun(u, back, d, n), n) && !Fails(u, d, DriveRun(u, back, d, n), n)
    ensures OnTrack(u, d, t, DriveRun(u, back, d, n + 1), n + 1)
    ensures d.steps[n].0 < |u.stmts| && d.steps[n].1 < |Branches(u.stmts[d.steps[n].0])|
    ensures var vars, vars' := DriveRun(u, back, d, n).config.vars, DriveRun(u, back, d, n + 1).config.vars;
            forall x :: x in vars' && (StmtAt(d.steps, t, n + 1) != u.f.entry || x !in back) ==>
              vars'[x] == if x in vars && x !in Operands(u.stmts[d.steps[n].0]) then vars[x] else d.made
    ensures var vars' := DriveRun(u, back, d, n + 1).config.vars;
            StmtAt(d.steps, t, n + 1) == u.f.entry ==> forall x :: x in vars' && x in back ==> vars'[x] == d.stale
  {
    var r := DriveRun(u, back, d, n);
    DrivenStep(u, back, d, t, r, n);
    AfterKeys(u, d, t, n, r.config.vars);
    var vars := AfterStep(u, d, n, r.config.vars);
    assert ValidStructure(u.stmts, u.f, u.st);
    hide Driver, ValidStructure, ResetStep, AfterStep, Arrive;
    assert DriveRun(u, back, d, n + 1) == ResetStep(u.stmts, u.f, back, u.site, u.exec, r);
    var pc := StmtAt(d.steps, t, n + 1);
    ArriveKeys(u, back, pc, vars, d.worlds(n + 1), r.last);
    forall x | x in vars
      ensures vars[x] ==
        if x in r.config.vars && x !in Operands(u.stmts[d.steps[n].0]) then r.config.vars[x] else d.made
    {
      AfterValues(u, d, n, r.config.vars, x);
    }
    if pc == u.f.entry { FallsToStale(u, back, vars, d, r.last); }
  }

  lemma FallsToStale(u: Unit, back: set<VarId>, vars: map<VarId, Value>, d: Drive, last: seq<Value>)
    requires back <= IdSet(u.f.params) && last == Copies(d.stale, |u.f.params|)
    ensures forall world, x :: x in back ==>
      var c := Arrive(u.f, back, Running(u.f.entry, vars, world, []), last);
      c.Running? && x in c.vars && c.vars[x] == d.stale
  {
  }

  // ----- the function's own run -----

  /** The test, if any, looks at `x`. */
  ghost predicate TestedAt(u: Unit, d: Drive, x: VarId) {
    d.test < |d.steps| ==>
      && d.steps[d.test].0 < |u.stmts| && d.pos < |Operands(u.stmts[d.steps[d.test].0])|
      && Operands(u.stmts[d.steps[d.test].0])[d.pos] == x
  }

  /** Variable `x` is taken at `k`; the test, if any, is on it, later. */
  ghost predicate TestsLater(u: Unit, d: Drive, x: VarId, k: nat) {
    && (k < |d.steps| ==> d.steps[k].0 < |u.stmts| && x in Operands(u.stmts[d.steps[k].0]))
    && (d.test < |d.steps| ==> k < d.test) && TestedAt(u, d, x)
  }

  /** The function's own run goes all the way: after `k` the variable is never stale. */
  lemma {:induction false} OwnDrive(u: Unit, d: Drive, t: StmtIdx, x: VarId, k: nat, n: nat)
    requires Driver(u, d, t) && TestsLater(u, d, x, k) && n <= |d.steps|
    ensures var r := DriveRun(u, {}, d, n);
            OnTrack(u, d, t, r, n) && (k < n && x in r.config.vars ==> r.config.vars[x] == d.made)
  {
    hide Driver, ResetRun;
    if n == 0 {
      StartsOnTrack(u, {}, d, t);
    } else {
      OwnDrive(u, d, t, x, k, n - 1);
      NotStale(u, d, t);
      NextOnTrack(u, {}, d, t, n - 1);
    }
  }

  lemma NotStale(u: Unit, d: Drive, t: StmtIdx)
    requires Driver(u, d, t)
    ensures d.stale != d.made
  {
  }

  // ----- the run that the blocks follow -----

  /** Control is at the entry statement after `m` steps, and `x` is not taken from there up to the test. */
  ghost predicate Untouched(u: Unit, d: Drive, t: StmtIdx, x: VarId, m: nat) {
    && 0 < m <= d.test <= |d.steps| && StmtAt(d.steps, t, m) == u.f.entry && x in Back(u)
    && forall i :: m <= i < d.test ==> d.steps[i].0 < |u.stmts| && x !in Operands(u.stmts[d.steps[i].0])
  }

  /** There the variable falls back on the way, and is stale at the test. */
  lemma {:induction false} ResetDrive(u: Unit, d: Drive, t: StmtIdx, x: VarId, m: nat, n: nat)
    requires Driver(u, d, t) && Untouched(u, d, t, x, m) && n <= d.test
    ensures var r := DriveRun(u, Back(u), d, n);
            OnTrack(u, d, t, r, n) && (m <= n ==> x in r.config.vars && r.config.vars[x] == d.stale)
  {
    hide Driver, ResetRun;
    if n == 0 {
      StartsOnTrack(u, Back(u), d, t);
    } else {
      ResetDrive(u, d, t, x, m, n - 1);
      NextOnTrack(u, Back(u), d, t, n - 1);
      if m <= n { XOnTrack(u, d, t, x, m, n); }
    }
  }

  lemma XNext(u: Unit, d: Drive, t: StmtIdx, x: VarId, i: nat)
    requires Driver(u, d, t) && i < |d.steps| && d.steps[i].0 in u.st.states && d.steps[i].0 < |u.stmts|
    requires x in u.st.states[d.steps[i].0] && x !in Operands(u.stmts[d.steps[i].0])
    requires StmtAt(d.steps, t, i + 1) in u.st.states
    ensures x in u.st.states[StmtAt(d.steps, t, i + 1)]
  {
    WalkFacts(u, d, t, i);
    hide Driver;
    assert x in Rest(u.st.states[d.steps[i].0], Operands(u.stmts[d.steps[i].0]));
  }

  lemma EntryKeys(u: Unit, d: Drive, t: StmtIdx)
    requires Driver(u, d, t)
    ensures u.f.entry in u.st.states && u.st.states[u.f.entry].Keys == IdSet(u.f.params)
  {
  }

  /** The variable is there as long as it has not been taken. */
  lemma XOnTrack(u: Unit, d: Drive, t: StmtIdx, x: VarId, m: nat, n: nat)
    requires Driver(u, d, t) && Untouched(u, d, t, x, m) && m <= n <= d.test
    requires OnTrack(u, d, t, DriveRun(u, Back(u), d, n), n) && OnTrack(u, d, t, DriveRun(u, Back(u), d, n - 1), n - 1)
    requires m < n ==> x in DriveRun(u, Back(u), d, n - 1).config.vars
    ensures x in DriveRun(u, Back(u), d, n).config.vars
  {
    hide Driver, DriveRun;
    if m < n {
      XNext(u, d, t, x, n - 1);
    } else {
      EntryKeys(u, d, t);
    }
  }

  // ----- how the runs end -----

  lemma ReturnStep(u: Unit, back: set<VarId>, d: Drive, t: StmtIdx, r: State)
    requires Driver(u, d, t) && OnTrack(u, d, t, r, |d.steps|) && t < |u.stmts| && u.stmts[t].Return?
    ensures CanTake(r.config.vars, Operands(u.stmts[t]))
    ensures forall x :: x in r.config.vars ==> x in Operands(u.stmts[t])
    ensures ResetStep(u.stmts, u.f, back, u.site, u.exec, r).config ==
            Done(Lookup(r.config.vars, Operands(u.stmts[t])), d.worlds(|d.steps|))
  {
    assert ConsistentAt(u.stmts, u.st.states, t);
    hide Driver;
    forall x | x in r.config.vars ensures x in Operands(u.stmts[t]) {
      assert x !in Rest(u.st.states[t], Operands(u.stmts[t]));
    }
  }

  /** The function returns; if the test is on what it returns, what it returns there is not stale. */
  lemma OwnReturns(u: Unit, d: Drive, t: StmtIdx, x: VarId, k: nat) returns (values: seq<Value>)
    requires Driver(u, d, t) && TestsLater(u, d, x, k) && t < |u.stmts| && u.stmts[t].Return?
    ensures Returns(u.stmts, u.f, u.site, u.exec, Copies(d.stale, |u.f.params|), d.worlds(0), values,
                    d.worlds(|d.steps|))
    ensures k < |d.steps| ==>
      forall i :: 0 <= i < |values| && i < |Operands(u.stmts[t])| && Operands(u.stmts[t])[i] == x ==>
          values[i] == d.made
  {
    var n := |d.steps|;
    OwnDrive(u, d, t, x, k, n);
    var r := DriveRun(u, {}, d, n);
    ReturnStep(u, {}, d, t, r);
    values := Lookup(r.config.vars, Operands(u.stmts[t]));
    hide Driver, ResetStep, Run;
    assert DriveRun(u, {}, d, n + 1) == ResetStep(u.stmts, u.f, {}, u.site, u.exec, r);
    NothingReset(u.stmts, u.f, u.site, u.exec, Copies(d.stale, |u.f.params|), d.worlds(0), n + 1);
  }

  /** Stuck at the test, or back with something stale. */
  ghost predicate EndsStale(u: Unit, d: Drive, t: StmtIdx, x: VarId, c: Config)
    requires t < |u.stmts|
  {
    if d.test < |d.steps| then c == Stuck
    else
      && c.Done? && x in Operands(u.stmts[t]) && |c.values| == |Operands(u.stmts[t])|
      && forall i :: 0 <= i < |c.values| && Operands(u.stmts[t])[i] == x ==> c.values[i] == d.stale
  }

  lemma StaleSticks(u: Unit, d: Drive, t: StmtIdx, x: VarId, r: State)
    requires Driver(u, d, t) && TestedAt(u, d, x) && d.test < |d.steps| && OnTrack(u, d, t, r, d.test)
    requires x in r.config.vars && r.config.vars[x] == d.stale && t < |u.stmts|
    ensures EndsStale(u, d, t, x, ResetStep(u.stmts, u.f, Back(u), u.site, u.exec, r).config)
  {
    hide Driver, ResetStep;
    FailedStep(u, Back(u), d, t, r, d.test);
  }

  lemma StaleReturned(u: Unit, d: Drive, t: StmtIdx, x: VarId, r: State)
    requires Driver(u, d, t) && OnTrack(u, d, t, r, |d.steps|) && t < |u.stmts| && u.stmts[t].Return?
    requires x in r.config.vars && r.config.vars[x] == d.stale && d.test == |d.steps|
    ensures EndsStale(u, d, t, x, ResetStep(u.stmts, u.f, Back(u), u.site, u.exec, r).config)
  {
    hide Driver, ResetStep, OnTrack;
    ReturnStep(u, Back(u), d, t, r);
  }

  lemma DriveNext(u: Unit, back: set<VarId>, d: Drive, n: nat)
    ensures DriveRun(u, back, d, n + 1) == ResetStep(u.stmts, u.f, back, u.site, u.exec, DriveRun(u, back, d, n))
  {
    hide ResetStep;
  }

  /** The other run gets stuck at the test, or returns something stale. */
  lemma ResetEnds(u: Unit, d: Drive, t: StmtIdx, x: VarId, m: nat)
    requires Driver(u, d, t) && Untouched(u, d, t, x, m) && t < |u.stmts| && u.stmts[t].Return?
    requires TestedAt(u, d, x)
    ensures EndsStale(u, d, t, x, DriveRun(u, Back(u), d, d.test + 1).config)
  {
    hide Driver, ResetStep, OnTrack, TestedAt, EndsStale, ResetRun, DriveRun;
    ResetDrive(u, d, t, x, m, d.test);
    var r := DriveRun(u, Back(u), d, d.test);
    DriveNext(u, Back(u), d, d.test);
    if d.test < |d.steps| {
      StaleSticks(u, d, t, x, r);
    } else {
      StaleReturned(u, d, t, x, r);
    }
  }

  // ----- the two runs disagree -----

  lemma {:induction false} FirstTake(stmts: seq<Statement>, steps: seq<(StmtIdx, nat)>, m: nat, x: VarId)
      returns (i: nat)
    requires m <= |steps| && forall j :: 0 <= j < |steps| ==> steps[j].0 < |stmts|
    ensures m <= i <= |steps| && forall j :: m <= j < i ==> x !in Operands(stmts[steps[j].0])
    ensures i < |steps| ==> x in Operands(stmts[steps[i].0])
    decreases |steps| - m
  {
    if m == |steps| || x in Operands(stmts[steps[m].0]) {
      i := m;
    } else {
      i := FirstTake(stmts, steps, m + 1, x);
    }
  }

  lemma WalkJoin(stmts: seq<Statement>, avoid: set<StmtIdx>, a: StmtIdx, p: seq<(StmtIdx, nat)>, b: StmtIdx,
                 q: seq<(StmtIdx, nat)>, c: StmtIdx)
    requires Walk(stmts, avoid, a, p, b) && Walk(stmts, avoid, b, q, c)
    ensures Walk(stmts, avoid, a, p + q, c) && StmtAt(p + q, c, |p|) == b
  {
    var pq := p + q;
    forall i | 0 <= i < |pq| ensures StepOn(stmts, avoid, pq, c, i) {
      if i < |p| {
        assert pq[i] == p[i] && StepOn(stmts, avoid, p, b, i);
        assert StmtAt(pq, c, i + 1) == StmtAt(p, b, i + 1);
      } else {
        assert pq[i] == q[i - |p|] && StepOn(stmts, avoid, q, c, i - |p|);
        assert StmtAt(pq, c, i + 1) == StmtAt(q, c, i - |p| + 1);
      }
    }
  }

  /** The depth is never counted, so the blocks follow. */
  lemma DriveCounted(u: Unit, d: Drive, t: StmtIdx, x: VarId, m: nat, n: nat)
    requires Driver(u, d, t) && Untouched(u, d, t, x, m)
    requires !DriveRun(u, Back(u), d, d.test + 1).config.Running?
    ensures Depth(DriveRun(u, Back(u), d, n).config) == 0
  {
    hide Driver, ResetRun;
    if n <= d.test {
      ResetDrive(u, d, t, x, m, n);
    } else {
      ResetStops(u.stmts, u.f, Back(u), u.site, u.exec, Copies(d.stale, |u.f.params|), d.worlds(0), d.test + 1, n);
    }
  }

  lemma DrivesApart(u: Unit, d: Drive, t: StmtIdx, x: VarId, k: nat, m: nat)
    requires Compiled(u) && Driver(u, d, t) && t < |u.stmts| && u.stmts[t].Return?
    requires k < m && TestsLater(u, d, x, k) && Untouched(u, d, t, x, m)
    ensures !SameMeaning(u.stmts, u.f, u.site, u.code, u.exec, Copies(d.stale, |u.f.params|), d.worlds(0))
  {
    var args := Copies(d.stale, |u.f.params|);
    var values := OwnReturns(u, d, t, x, k);
    NotStale(u, d, t);
    ResetEnds(u, d, t, x, m);
    hide Compiled, Driver, ResetRun, Run, TReturns, Recursion.Answers;
    var world' := d.worlds(|d.steps|);
    forall n: nat ensures DepthCounted(u, args, d.worlds(0), n) {
      forall i: nat | i <= n ensures Depth(SourceRun(u, args, d.worlds(0), i).config) < COUNTER_MODULUS {
        DriveCounted(u, d, t, x, m, i);
      }
    }
    BlocksReturn(u, args, d.worlds(0), values, world');
    Recursion.ReturnsAnswers(u.stmts, u.f, u.site, u.exec, args, d.worlds(0), values, world');
    NotReset(u, d, t, x, values, world');
  }

  lemma NotReset(u: Unit, d: Drive, t: StmtIdx, x: VarId, values: seq<Value>, world': World)
    requires t < |u.stmts| && d.stale != d.made && d.test <= |d.steps|
    requires EndsStale(u, d, t, x, DriveRun(u, Back(u), d, d.test + 1).config)
    requires forall i :: 0 <= i < |values| && i < |Operands(u.stmts[t])| && Operands(u.stmts[t])[i] == x ==>
             values[i] == d.made
    ensures !ResetReturns(u.stmts, u.f, Back(u), u.site, u.exec, Copies(d.stale, |u.f.params|), d.worlds(0), values,
                          world')
  {
    hide ResetRun;
    var args := Copies(d.stale, |u.f.params|);
    if ResetReturns(u.stmts, u.f, Back(u), u.site, u.exec, args, d.worlds(0), values, world') {
      var n: nat :|
        ResetRun(u.stmts, u.f, Back(u), u.site, u.exec, args, d.worlds(0), n).config == Done(values, world');
      if n <= d.test + 1 {
        ResetStops(u.stmts, u.f, Back(u), u.site, u.exec, args, d.worlds(0), n, d.test + 1);
      } else {
        ResetStops(u.stmts, u.f, Back(u), u.site, u.exec, args, d.worlds(0), d.test + 1, n);
      }
      assert false;
    }
  }

  // ----- exactly which functions are miscompiled -----

  /** Some way leads from the entry to a return. */
  ghost predicate CanReturn(stmts: seq<Statement>, avoid: set<StmtIdx>, f: Function) {
    exists q, t: StmtIdx :: Walk(stmts, avoid, f.entry, q, t) && t < |stmts| && stmts[t].Return?
  }

  lemma WalkInside(stmts: seq<Statement>, avoid: set<StmtIdx>, a: StmtIdx, p: seq<(StmtIdx, nat)>, b: StmtIdx)
    requires Walk(stmts, avoid, a, p, b)
    ensures forall j :: 0 <= j < |p| ==> p[j].0 < |stmts|
  {
    forall j | 0 <= j < |p| ensures p[j].0 < |stmts| { assert StepOn(stmts, avoid, p, b, j); }
  }

  /** A meaning under which a variable that is lost on the way round `p` shows on the way out `q`. */
  lemma LostShows(u: Unit, p: seq<(StmtIdx, nat)>, x: VarId, q: seq<(StmtIdx, nat)>, t: StmtIdx,
                  worlds: nat -> World, stale: Value, made: Value) returns (exec: Meaning)
    requires Compiled(u) && Apart(worlds) && stale != made
    requires Walk(u.stmts, u.site, u.f.entry, p, u.f.entry) && x in Back(u) && TakenOn(u.stmts, p, x)
    requires Walk(u.stmts, u.site, u.f.entry, q, t) && t < |u.stmts| && u.stmts[t].Return?
    ensures !SameMeaning(u.stmts, u.f, u.site, u.code, exec, Copies(stale, |u.f.params|), worlds(0))
  {
    hide Compiled, Walk, SameMeaning, TakenOn;
    var k, d := LostDrive(u, p, x, q, t, worlds, stale, made);
    exec := Driving(u.stmts, d);
    var u' := u.(exec := exec);
    assert Compiled(u') && Driver(u', d, t) by { Redriven(u, d, t); }
    hide Driver, TestsLater, Untouched;
    SameTests(u, u', d, t, x, k, |p|);
    DrivesApart(u', d, t, x, k, |p|);
  }

  lemma SameTests(u: Unit, u': Unit, d: Drive, t: StmtIdx, x: VarId, k: nat, m: nat)
    requires u' == u.(exec := u'.exec) && TestsLater(u, d, x, k) && Untouched(u, d, t, x, m)
    ensures TestsLater(u', d, x, k) && Untouched(u', d, t, x, m)
  {
  }

  lemma LostDrive(u: Unit, p: seq<(StmtIdx, nat)>, x: VarId, q: seq<(StmtIdx, nat)>, t: StmtIdx,
                  worlds: nat -> World, stale: Value, made: Value) returns (k: nat, d: Drive)
    requires Walk(u.stmts, u.site, u.f.entry, p, u.f.entry) && x in Back(u) && TakenOn(u.stmts, p, x)
    requires Walk(u.stmts, u.site, u.f.entry, q, t)
    ensures d.worlds == worlds && d.stale == stale && d.made == made
    ensures Walk(u.stmts, u.site, u.f.entry, d.steps, t)
    ensures k < |p| && TestsLater(u, d, x, k) && Untouched(u, d, t, x, |p|)
  {
    k :| 0 <= k < |p| && p[k].0 < |u.stmts| && x in Operands(u.stmts[p[k].0]);
    var steps := p + q;
    WalkJoin(u.stmts, u.site, u.f.entry, p, u.f.entry, q, t);
    WalkInside(u.stmts, u.site, u.f.entry, steps, t);
    hide Walk, TakenOn, Untaken;
    var test := FirstTake(u.stmts, steps, |p|, x);
    var pos: nat := 0;
    if test < |steps| {
      pos :| 0 <= pos < |Operands(u.stmts[steps[test].0])| && Operands(u.stmts[steps[test].0])[pos] == x;
    }
    d := Drive(steps, worlds, stale, made, test, pos);
    assert steps[k] == p[k];
  }

  lemma Redriven(u: Unit, d: Drive, t: StmtIdx)
    requires Compiled(u) && Apart(d.worlds) && d.stale != d.made && Walk(u.stmts, u.site, u.f.entry, d.steps, t)
    ensures var u' := u.(exec := Driving(u.stmts, d)); Compiled(u') && Driver(u', d, t)
  {
    hide ValidStructure, Lowered, Runnable, Walk;
  }

  /** Where the blocks never return, the function does for some meaning. */
  lemma ReturnsAlone(u: Unit, q: seq<(StmtIdx, nat)>, t: StmtIdx, worlds: nat -> World, stale: Value, made: Value)
      returns (exec: Meaning)
    requires Built(u) && !EntryLands(u.stmts, u.f, u.st) && Apart(worlds) && stale != made
    requires Walk(u.stmts, u.site, u.f.entry, q, t) && t < |u.stmts| && u.stmts[t].Return?
    ensures !SameMeaning(u.stmts, u.f, u.site, u.code, exec, Copies(stale, |u.f.params|), worlds(0))
  {
    var d := Drive(q, worlds, stale, made, |q|, 0);
    exec := Driving(u.stmts, d);
    var u' := u.(exec := exec);
    assert Built(u') && Driver(u', d, t) by { hide Lowered, Walk; }
    hide Built, Driver, EntryLands, TReturns, Recursion.Answers;
    var args := Copies(stale, |u.f.params|);
    var values := OwnReturns(u', d, t, 0, |q|);
    NeverReturns(u', args, worlds(0), values, worlds(|q|));
    Recursion.ReturnsAnswers(u.stmts, u.f, u.site, exec, args, worlds(0), values, worlds(|q|));
  }

  /** Without a tail call a run follows the branches, and ends at a return. */
  lemma {:induction false} RunWalks(u: Unit, back: set<VarId>, args: seq<Value>, world: World, n: nat)
    requires u.site == {}
    ensures var c := ResetRun(u.stmts, u.f, back, {}, u.exec, args, world, n).config;
            && (c.Running? ==> c.stack == [] && Reached(u, c.pc))
            && (c.Done? ==> CanReturn(u.stmts, {}, u.f))
  {
    hide Reached, CanReturn, ResetRun;
    if n == 0 {
      EntryReached(u);
      StartOf(u, back, args, world);
    } else {
      RunWalks(u, back, args, world, n - 1);
      var r := ResetRun(u.stmts, u.f, back, {}, u.exec, args, world, n - 1);
      NextOf(u, back, args, world, n);
      RunWalksOn(u, back, r);
    }
  }

  lemma EntryReached(u: Unit)
    ensures Reached(u, u.f.entry)
  {
    assert Walk(u.stmts, {}, u.f.entry, [], u.f.entry);
  }

  lemma StartOf(u: Unit, back: set<VarId>, args: seq<Value>, world: World)
    ensures ResetRun(u.stmts, u.f, back, {}, u.exec, args, world, 0) == State(Enter(u.f, args, world, []), args)
  {
  }

  lemma NextOf(u: Unit, back: set<VarId>, args: seq<Value>, world: World, n: nat)
    requires n > 0
    ensures ResetRun(u.stmts, u.f, back, {}, u.exec, args, world, n)
         == ResetStep(u.stmts, u.f, back, {}, u.exec, ResetRun(u.stmts, u.f, back, {}, u.exec, args, world, n - 1))
  {
    hide ResetStep;
  }

  lemma RunWalksOn(u: Unit, back: set<VarId>, r: State)
    requires r.config.Running? ==> r.config.stack == [] && Reached(u, r.config.pc)
    requires r.config.Done? ==> CanReturn(u.stmts, {}, u.f)
    ensures var c := ResetStep(u.stmts, u.f, back, {}, u.exec, r).config;
            && (c.Running? ==> c.stack == [] && Reached(u, c.pc))
            && (c.Done? ==> CanReturn(u.stmts, {}, u.f))
  {
    hide Reached, CanReturn, Fallen;
    if r.config.Running? && r.config.pc < |u.stmts| {
      var s := r.config.pc;
      if u.stmts[s].Return? {
        ReturnReached(u, s);
      } else {
        var taken := CanTake(r.config.vars, Operands(u.stmts[s]));
        var out := u.exec(u.stmts[s].libfunc, r.config.world,
                          if taken then Lookup(r.config.vars, Operands(u.stmts[s])) else []);
        if out.branch < |Branches(u.stmts[s])| {
          var t := Next(s, Branches(u.stmts[s])[out.branch].target);
          ReachedNext(u, s, out.branch, t);
        }
      }
    }
  }

  lemma ReturnReached(u: Unit, t: StmtIdx)
    requires Reached(u, t) && t < |u.stmts| && u.stmts[t].Return?
    ensures CanReturn(u.stmts, {}, u.f)
  {
    hide Walk;
  }

  /** A function that cannot get to a return never returns, and neither do its blocks. */
  lemma NoneReturns(u: Unit, args: seq<Value>, world: World)
    requires Built(u) && u.site == {} && !u.st.recursive && !CanReturn(u.stmts, {}, u.f)
    ensures SameMeaning(u.stmts, u.f, {}, u.code, u.exec, args, world)
  {
    hide Built, CanReturn, TReturns, Recursion.Answers, ResetRun;
    forall values, world'
      ensures !Recursion.Answers(u.stmts, u.f, {}, u.exec, args, world, values, world')
      ensures !TReturns(u.code, u.exec, args, world, values, world')
    {
      NotAnswered(u, args, world, values, world');
      if EntryLands(u.stmts, u.f, u.st) {
        assert Compiled(u) by { BuiltRuns(u); }
        forall n: nat ensures DepthCounted(u, args, world, n) { NeverDeep(u, args, world, n); }
        BlocksReturn(u, args, world, values, world');
        forall n: nat ensures !ResetRun(u.stmts, u.f, Back(u), {}, u.exec, args, world, n).config.Done? {
          RunWalks(u, Back(u), args, world, n);
        }
      } else {
        NeverReturns(u, args, world, values, world');
      }
    }
  }

  lemma NotAnswered(u: Unit, args: seq<Value>, world: World, values: seq<Value>, world': World)
    requires u.site == {} && !CanReturn(u.stmts, {}, u.f)
    ensures !Recursion.Answers(u.stmts, u.f, {}, u.exec, args, world, values, world')
  {
    hide CanReturn, Recursion.Answers, ResetRun, Run;
    Recursion.ReturnsAnswers(u.stmts, u.f, {}, u.exec, args, world, values, world');
    forall n: nat ensures !Run(u.stmts, u.f, {}, u.exec, Enter(u.f, args, world, []), n).Done? {
      RunWalks(u, {}, args, world, n);
      NothingReset(u.stmts, u.f, {}, u.exec, args, world, n);
    }
  }

  lemma BuiltRuns(u: Unit)
    requires Built(u) && !u.st.recursive && EntryLands(u.stmts, u.f, u.st)
    ensures Compiled(u)
  {
    hide ValidStructure, Lowered, EntryLands;
  }

  lemma NeverDeep(u: Unit, args: seq<Value>, world: World, n: nat)
    requires u.site == {}
    ensures DepthCounted(u, args, world, n)
  {
    hide ResetRun;
    forall i: nat | i <= n ensures Depth(SourceRun(u, args, world, i).config) < COUNTER_MODULUS {
      RunWalks(u, Back(u), args, world, i);
    }
  }

  lemma IsBuilt(u: Unit)
    requires ValidStructure(u.stmts, u.f, u.st) && Lowered(u.stmts, u.f, u.st, u.site, u.cm, u.code)
    ensures Built(u)
  {
  }

  /** A function without a tail call is compiled right, for every meaning of its libfuncs and on all
      arguments, if and only if its entry block jumps past nothing that is needed and no way round to the
      entry takes a variable that the entry statement leaves alone, or it cannot return at all. */
  lemma EntryExact(stmts: seq<Statement>, f: Function, st: Structure, cm: map<StmtIdx, RegMap>, code: Code,
                   worlds: nat -> World, stale: Value, made: Value)
    requires ValidStructure(stmts, f, st) && !st.recursive && Lowered(stmts, f, st, {}, cm, code)
    requires Apart(worlds) && stale != made
    ensures (forall exec: Meaning, args, world :: SameMeaning(stmts, f, {}, code, exec, args, world))
       <==> (EntryLands(stmts, f, st) && EntryKept(stmts, f)) || !CanReturn(stmts, {}, f)
  {
    hide ValidStructure, Lowered, EntryLands, SameMeaning, Walk, TakenOn, Compiled, Built;
    var u := Unit(stmts, f, st, {}, cm, code, Driving(stmts, Drive([], worlds, stale, made, 0, 0)));
    IsBuilt(u);
    if CanReturn(stmts, {}, f) {
      var q, t: StmtIdx :| Walk(stmts, {}, f.entry, q, t) && t < |stmts| && stmts[t].Return?;
      if !EntryLands(stmts, f, st) {
        var exec := ReturnsAlone(u, q, t, worlds, stale, made);
        assert !SameMeaning(stmts, f, {}, code, exec, Copies(stale, |f.params|), worlds(0));
      } else {
        BuiltRuns(u);
        if !EntryKept(stmts, f) {
          var p, x :| Walk(stmts, {}, f.entry, p, f.entry) && x in Untaken(stmts, f) && TakenOn(stmts, p, x);
          var exec := LostShows(u, p, x, q, t, worlds, stale, made);
          assert !SameMeaning(stmts, f, {}, code, exec, Copies(stale, |f.params|), worlds(0));
        } else {
          forall exec: Meaning, args, world ensures SameMeaning(stmts, f, {}, code, exec, args, world) {
            NonRecursiveCountable(stmts, f, exec, args, world);
            var u' := Unit(stmts, f, st, {}, cm, code, exec);
            IsBuilt(u');
            BuiltRuns(u');
            CompiledMeansSame(u', args, world);
          }
        }
      }
    } else {
      forall exec: Meaning, args, world ensures SameMeaning(stmts, f, {}, code, exec, args, world) {
        var u' := Unit(stmts, f, st, {}, cm, code, exec);
        IsBuilt(u');
        NoneReturns(u', args, world);
      }
    }
  }
}
