/** Sierra functions and their meaning: a machine over a dictionary of variables. */
module Sierra {
  import opened VarMaps

  type Value(==, !new, 0)
  type World(==, !new, 0)
  type Ty(==, !new, 0)

  type StmtIdx = nat

  datatype Libfunc = Call(callee: nat) | Other(id: nat)

  datatype BranchTarget = Fallthrough | Statement(idx: StmtIdx)

  /** `types` are the types the libfunc's signature gives to the branch's results. */
  datatype Branch = Branch(target: BranchTarget, results: seq<VarId>, types: seq<Ty>)

  datatype Statement =
    | Invocation(libfunc: Libfunc, args: seq<VarId>, branches: seq<Branch>)
    | Return(vars: seq<VarId>)

  /** What the lowering of returns looks at in a return type. */
  datatype RetType = RetType(zeroSized: bool, memoryAllocated: bool)

  datatype Function = Function(
    id: nat, entry: StmtIdx,
    params: seq<VarId>, paramTypes: seq<Ty>, retTypes: seq<RetType>)

  function Next(s: StmtIdx, target: BranchTarget): StmtIdx {
    match target
    case Fallthrough => s + 1
    case Statement(idx) => idx
  }

  function Operands(stmt: Statement): seq<VarId> {
    match stmt
    case Invocation(_, args, _) => args
    case Return(vars) => vars
  }

  function Branches(stmt: Statement): seq<Branch> {
    match stmt
    case Invocation(_, _, branches) => branches
    case Return(_) => []
  }

  /** The meaning of a libfunc: what it does to the world, the branch it takes and what the
      branch returns. Calls to other functions are libfuncs too. */
  datatype Outcome = Outcome(branch: nat, world: World, results: seq<Value>)
  type Meaning = (Libfunc, World, seq<Value>) -> Outcome

  // ----- the source machine: recursion keeps the caller's variables on a stack -----

  datatype Frame = Frame(site: StmtIdx, rest: map<VarId, Value>)

  datatype Config =
    | Running(pc: StmtIdx, vars: map<VarId, Value>, world: World, stack: seq<Frame>)
    | Done(values: seq<Value>, world: World)
    | Stuck

  /** A statement continues on a branch: the results join the variables left. */
  function Continue(stmts: seq<Statement>, s: StmtIdx, b: nat, rest: map<VarId, Value>,
                    world: World, results: seq<Value>, stack: seq<Frame>): Config
    requires s < |stmts|
  {
    var branches := Branches(stmts[s]);
    if b < |branches| && |results| == |branches[b].results| && CanPut(rest, branches[b].results) then
      Running(Next(s, branches[b].target), Put(rest, branches[b].results, results), world, stack)
    else
      Stuck
  }

  function Enter(f: Function, args: seq<Value>, world: World, stack: seq<Frame>): Config {
    if |args| == |f.params| then
      Running(f.entry, ZipMap(f.params, args), world, stack)
    else
      Stuck
  }

  /** Leaving the function: to the caller at the top of the stack, or for good. */
  function Leave(stmts: seq<Statement>, values: seq<Value>, world: World, stack: seq<Frame>): Config {
    if stack == [] then
      Done(values, world)
    else
      var frame := stack[|stack| - 1];
      if frame.site < |stmts| then
        Continue(stmts, frame.site, 0, frame.rest, world, values, stack[..|stack| - 1])
      else
        Stuck
  }

  /** One step. The calls at `sites` recurse into `f` itself, anything else means what
      `exec` says. */
  function Step(stmts: seq<Statement>, f: Function, sites: set<StmtIdx>, exec: Meaning, c: Config): Config {
    match c
    case Running(pc, vars, world, stack) =>
      if pc >= |stmts| || !CanTake(vars, Operands(stmts[pc])) then
        Stuck
      else
        var values := Lookup(vars, Operands(stmts[pc]));
        var rest := Rest(vars, Operands(stmts[pc]));
        (match stmts[pc]
         case Invocation(libfunc, _, _) =>
           if pc in sites then
             Enter(f, values, world, stack + [Frame(pc, rest)])
           else
             var out := exec(libfunc, world, values);
             Continue(stmts, pc, out.branch, rest, out.world, out.results, stack)
         case Return(_) =>
           Leave(stmts, values, world, stack))
    case Done(_, _) => c
    case Stuck => c
  }

  function Run(stmts: seq<Statement>, f: Function, sites: set<StmtIdx>, exec: Meaning,
               c: Config, n: nat): Config
  {
    if n == 0 then c else Step(stmts, f, sites, exec, Run(stmts, f, sites, exec, c, n - 1))
  }

  ghost predicate Returns(stmts: seq<Statement>, f: Function, sites: set<StmtIdx>, exec: Meaning,
                          args: seq<Value>, world: World, values: seq<Value>, world': World)
  {
    exists n: nat :: Run(stmts, f, sites, exec, Enter(f, args, world, []), n) == Done(values, world')
  }

  function Depth(c: Config): nat {
    if c.Running? then |c.stack| else 0
  }

  // ----- what the compiler demands of a function -----

  function Targets(stmts: seq<Statement>, s: StmtIdx): set<StmtIdx>
    requires s < |stmts|
  {
    set b | 0 <= b < |Branches(stmts[s])| :: Next(s, Branches(stmts[s])[b].target)
  }

  ghost predicate Closed(stmts: seq<Statement>, dom: set<StmtIdx>) {
    forall s {:trigger Targets(stmts, s)} :: s in dom && s < |stmts| ==> Targets(stmts, s) <= dom
  }

  /** `dom` is exactly what control can reach from `entry`. */
  ghost predicate Reaches(stmts: seq<Statement>, entry: StmtIdx, dom: set<StmtIdx>) {
    && entry in dom && Closed(stmts, dom)
    && forall other :: Closed(stmts, other) && entry in other ==> dom <= other
  }

  ghost predicate ConsistentBranch(stmts: seq<Statement>, states: map<StmtIdx, map<VarId, Ty>>,
                                   s: StmtIdx, rest: map<VarId, Ty>, br: Branch)
  {
    && |br.types| == |br.results|
    && CanPut(rest, br.results)
    && Next(s, br.target) in states
    && states[Next(s, br.target)] == Put(rest, br.results, br.types)
  }

  /** The variables a statement finds are those its predecessors leave, and nothing is left
      after a return. */
  ghost predicate ConsistentAt(stmts: seq<Statement>, states: map<StmtIdx, map<VarId, Ty>>, s: StmtIdx)
    requires s in states
  {
    && s < |stmts|
    && CanTake(states[s], Operands(stmts[s]))
    && var rest := Rest(states[s], Operands(stmts[s]));
    && (stmts[s].Return? ==> rest == map[])
    && forall b :: 0 <= b < |Branches(stmts[s])| ==>
         ConsistentBranch(stmts, states, s, rest, Branches(stmts[s])[b])
  }

  ghost predicate Consistent(stmts: seq<Statement>, f: Function, states: map<StmtIdx, map<VarId, Ty>>) {
    && |f.params| == |f.paramTypes|
    && f.entry in states
    && states[f.entry] == ZipMap(f.params, f.paramTypes)
    && forall s {:trigger ConsistentAt(stmts, states, s)} :: s in states ==> ConsistentAt(stmts, states, s)
  }

  /** Functions that no assignment of variables to statements fits: a return has to take all there is and only
      what there is, a result must not replace a variable, and branches that meet have to bring the same
      variables. */
  lemma Inconsistent(stmts: seq<Statement>, f: Function, states: map<StmtIdx, map<VarId, Ty>>)
    requires f.entry < |stmts|
    requires var stmt := stmts[f.entry];
             || (stmt.Return? && IdSet(stmt.vars) != IdSet(f.params))
             || (exists x :: x in Operands(stmt) && x !in f.params)
             || (exists i, j :: 0 <= i < j < |Operands(stmt)| && Operands(stmt)[i] == Operands(stmt)[j])
             || (exists b, x :: 0 <= b < |Branches(stmt)| && x in Branches(stmt)[b].results
                                && x in f.params && x !in Operands(stmt))
             || (exists b, c :: 0 <= b < |Branches(stmt)| && 0 <= c < |Branches(stmt)|
                                && Next(f.entry, Branches(stmt)[b].target) == Next(f.entry, Branches(stmt)[c].target)
                                && IdSet(Branches(stmt)[b].results) != IdSet(Branches(stmt)[c].results))
    ensures !Consistent(stmts, f, states)
  {
    if Consistent(stmts, f, states) {
      assert ConsistentAt(stmts, states, f.entry);
      EntryFits(stmts, f, states);
      assert false;
    }
  }

  lemma EntryFits(stmts: seq<Statement>, f: Function, states: map<StmtIdx, map<VarId, Ty>>)
    requires Consistent(stmts, f, states)
    ensures f.entry < |stmts|
    ensures var stmt := stmts[f.entry];
            && NoDup(Operands(stmt)) && IdSet(Operands(stmt)) <= IdSet(f.params)
            && (stmt.Return? ==> IdSet(stmt.vars) == IdSet(f.params))
            && (forall b, x :: 0 <= b < |Branches(stmt)| && x in Branches(stmt)[b].results ==>
                  x !in IdSet(f.params) - IdSet(Operands(stmt)))
            && (forall b :: 0 <= b < |Branches(stmt)| ==>
                  Next(f.entry, Branches(stmt)[b].target) in states &&
                  states[Next(f.entry, Branches(stmt)[b].target)].Keys ==
                  IdSet(f.params) - IdSet(Operands(stmt)) + IdSet(Branches(stmt)[b].results))
  {
    assert ConsistentAt(stmts, states, f.entry);
    var stmt := stmts[f.entry];
    assert states[f.entry].Keys == IdSet(f.params);
    if stmt.Return? {
      assert Rest(states[f.entry], stmt.vars).Keys == IdSet(f.params) - IdSet(stmt.vars);
    }
    forall b | 0 <= b < |Branches(stmt)|
      ensures Next(f.entry, Branches(stmt)[b].target) in states &&
              states[Next(f.entry, Branches(stmt)[b].target)].Keys ==
              IdSet(f.params) - IdSet(Operands(stmt)) + IdSet(Branches(stmt)[b].results)
    {
      assert ConsistentBranch(stmts, states, f.entry, Rest(states[f.entry], Operands(stmt)), Branches(stmt)[b]);
    }
  }

  /** A call of `f` to itself after which no variable is live. */
  predicate TailCall(stmts: seq<Statement>, f: Function, states: map<StmtIdx, map<VarId, Ty>>, s: StmtIdx) {
    && s < |stmts| && s in states
    && stmts[s].Invocation? && stmts[s].libfunc == Call(f.id)
    && Rest(states[s], stmts[s].args) == map[]
  }

  function TailCalls(stmts: seq<Statement>, f: Function, states: map<StmtIdx, map<VarId, Ty>>): set<StmtIdx> {
    set s | s in states && TailCall(stmts, f, states, s)
  }
}
