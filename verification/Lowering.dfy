/** What the compiler's two passes must produce for a function: the shape of its blocks, the
    register that holds each variable at each statement, and the terminator of each block. */
module Lowering {
  import opened VarMaps
  import opened Sierra
  import opened Blocks

  // ----- the first pass -----

  /** The variables each reachable statement finds, how many branches lead to it, and whether
      the function has exactly one tail call to itself. */
  datatype Structure = Structure(
    states: map<StmtIdx, map<VarId, Ty>>, predecessors: map<StmtIdx, nat>, recursive: bool)
  {
    /** Statements that several branches lead to get a landing block. */
    predicate HasLanding(s: StmtIdx) {
      s in predecessors && predecessors[s] > 1
    }
  }

  predicate IsEdge(stmts: seq<Statement>, s: StmtIdx, b: nat, t: StmtIdx) {
    s < |stmts| && b < |Branches(stmts[s])| && Next(s, Branches(stmts[s])[b].target) == t
  }

  /** The branches from statements of `dom` to `t`. */
  ghost function InEdges(stmts: seq<Statement>, dom: set<StmtIdx>, t: StmtIdx): set<(StmtIdx, nat)> {
    set s, b | s in dom && s < |stmts| && 0 <= b < |Branches(stmts[s])| && IsEdge(stmts, s, b, t) :: (s, b)
  }

  /** The predecessors counted are the edges seen. */
  ghost predicate Counted(stmts: seq<Statement>, visited: set<StmtIdx>, counts: map<StmtIdx, nat>) {
    forall t :: CountsAt(stmts, visited, counts, t)
  }

  ghost predicate CountsAt(stmts: seq<Statement>, visited: set<StmtIdx>, counts: map<StmtIdx, nat>, t: StmtIdx) {
    t in counts ==> counts[t] == |InEdges(stmts, visited, t)|
  }

  ghost predicate ValidStructure(stmts: seq<Statement>, f: Function, st: Structure) {
    && Consistent(stmts, f, st.states)
    && Reaches(stmts, f.entry, st.states.Keys)
    && st.predecessors.Keys == st.states.Keys
    && Counted(stmts, st.states.Keys, st.predecessors)
    && (st.recursive <==> |TailCalls(stmts, f, st.states)| == 1)
  }

  /** Exactly the statements to which two branches lead get a landing block. */
  lemma LandingForTwo(stmts: seq<Statement>, f: Function, st: Structure, t: StmtIdx)
    requires ValidStructure(stmts, f, st) && t in st.states
    ensures st.HasLanding(t) <==>
      exists a, b :: a in InEdges(stmts, st.states.Keys, t) && b in InEdges(stmts, st.states.Keys, t) && a != b
  {
    hide Consistent, Reaches, InEdges;
    assert CountsAt(stmts, st.states.Keys, st.predecessors, t);
    TwoOfMany(InEdges(stmts, st.states.Keys, t));
  }

  lemma TwoOfMany<T>(s: set<T>)
    ensures |s| > 1 <==> exists a, b :: a in s && b in s && a != b
  {
    forall a, b | a in s && b in s && a != b ensures |s| > 1 {
      assert b in s - {a} && |s - {a}| == |s| - 1;
    }
    if |s| > 1 {
      var a :| a in s;
      assert |s - {a}| == |s| - 1;
      var b :| b in s - {a};
      assert a != b;
    }
  }

  // ----- the second pass -----

  type RegMap = map<VarId, Reg>

  function EntryRegs(f: Function): RegMap {
    ZipMap(f.params, ArgRegs(Entry, |f.params|))
  }

  /** The landing block takes the live variables in the order of their ids. */
  function LandingVars(st: Structure, s: StmtIdx): seq<VarId>
    requires s in st.states
  {
    Sorted(st.states[s].Keys)
  }

  function LandingRegs(st: Structure, s: StmtIdx): RegMap
    requires s in st.states
  {
    ZipMap(LandingVars(st, s), ArgRegs(Landing(s), |LandingVars(st, s)|))
  }

  /** The registers a branch's results are recorded in: for the tail call these are the
      arguments of the block that control resumes in. */
  function BranchRegs(site: set<StmtIdx>, s: StmtIdx, b: nat, n: nat): (rs: seq<Reg>)
    ensures |rs| == n
  {
    if s in site then ArgRegs(Resume(s), n) else ResultRegs(s, b, n)
  }

  function OperandFor(br: Branch, rest: RegMap, x: VarId): Operand
    requires x in br.results || x in rest
  {
    if x in br.results then Returned(IndexOf(br.results, x)) else External(rest[x])
  }

  function TargetBlock(st: Structure, t: StmtIdx): BlockId {
    if st.HasLanding(t) then Landing(t) else Body(t)
  }

  function TargetVars(stmts: seq<Statement>, st: Structure, t: StmtIdx): seq<VarId>
    requires t < |stmts| && t in st.states
  {
    if st.HasLanding(t) then LandingVars(st, t) else Operands(stmts[t])
  }

  predicate HasOperands(stmts: seq<Statement>, st: Structure, s: StmtIdx, br: Branch, rest: RegMap) {
    && Next(s, br.target) < |stmts| && Next(s, br.target) in st.states
    && forall x :: x in TargetVars(stmts, st, Next(s, br.target)) ==> x in br.results || x in rest
  }

  function EdgeFor(stmts: seq<Statement>, st: Structure, s: StmtIdx, br: Branch, rest: RegMap): (e: Edge)
    requires HasOperands(stmts, st, s, br, rest)
    ensures e.target == TargetBlock(st, Next(s, br.target))
    ensures |e.operands| == |TargetVars(stmts, st, Next(s, br.target))|
  {
    var vars := TargetVars(stmts, st, Next(s, br.target));
    Edge(TargetBlock(st, Next(s, br.target)),
         seq(|vars|, i requires 0 <= i < |vars| => OperandFor(br, rest, vars[i])))
  }

  predicate IsEdgeFor(stmts: seq<Statement>, st: Structure, s: StmtIdx, br: Branch, rest: RegMap, e: Edge) {
    HasOperands(stmts, st, s, br, rest) && e == EdgeFor(stmts, st, s, br, rest)
  }

  /** How the function hands back its results, from its return types: `None` for nothing or a
      single plain value, `Some(true)` for a single memory-allocated value. */
  datatype ReturnPointer = NoPointer | Multiple | Pointer

  function HasReturnPointer(f: Function): ReturnPointer {
    if |f.retTypes| > 1 then Multiple
    else if |f.retTypes| == 1 && f.retTypes[0].memoryAllocated then Pointer
    else NoPointer
  }

  /** The values a return passes on to the block that control resumes in. */
  function TailValues<T>(ptr: ReturnPointer, types: seq<RetType>, values: seq<T>): seq<T>
    requires |types| == |values|
  {
    if types == [] then [] else
      var keep := !types[0].zeroSized && (ptr == Pointer ==> !types[0].memoryAllocated);
      (if keep then [values[0]] else []) + TailValues(ptr, types[1..], values[1..])
  }

  predicate NoZeroSized(types: seq<RetType>) {
    forall i :: 0 <= i < |types| ==> !types[i].zeroSized
  }

  /** Returns can be handed to the resumed block whole. */
  predicate TailReturnsWhole(f: Function) {
    HasReturnPointer(f) == Multiple && NoZeroSized(f.retTypes)
  }

  lemma {:induction false} TailValuesWhole<T>(ptr: ReturnPointer, types: seq<RetType>, values: seq<T>)
    requires |types| == |values|
    ensures |TailValues(ptr, types, values)| <= |values|
    ensures |TailValues(ptr, types, values)| == |values| <==>
      forall i :: 0 <= i < |types| ==> !types[i].zeroSized && (ptr == Pointer ==> !types[i].memoryAllocated)
    ensures |TailValues(ptr, types, values)| == |values| ==> TailValues(ptr, types, values) == values
  {
    if types != [] {
      TailValuesWhole(ptr, types[1..], values[1..]);
      if forall i :: 0 <= i < |types| ==> !types[i].zeroSized && (ptr == Pointer ==> !types[i].memoryAllocated) {
        assert forall i :: 0 <= i < |types[1..]| ==> types[1..][i] == types[i + 1];
        assert values == [values[0]] + values[1..];
      } else {
        var i :| 0 <= i < |types| && !(!types[i].zeroSized && (ptr == Pointer ==> !types[i].memoryAllocated));
        if i > 0 {
          assert types[1..][i - 1] == types[i];
        }
      }
    }
  }

  /** A tail-recursive return hands over as many values as there are exactly if there are several, none of size
      zero. There is no pointer to return through exactly if nothing is returned, or one value that does not
      live in memory. */
  lemma TailReturnArity(f: Function, values: seq<Reg>)
    requires |values| == |f.retTypes|
    ensures HasReturnPointer(f) == NoPointer <==>
      f.retTypes == [] || (|f.retTypes| == 1 && !f.retTypes[0].memoryAllocated)
    ensures TailReturnsWhole(f) <==>
      |f.retTypes| > 1 && forall i :: 0 <= i < |f.retTypes| ==> !f.retTypes[i].zeroSized
    ensures HasReturnPointer(f) != NoPointer ==>
      (|TailValues(HasReturnPointer(f), f.retTypes, values)| == |f.retTypes| <==> TailReturnsWhole(f))
  {
    TailValuesWhole(HasReturnPointer(f), f.retTypes, values);
    if HasReturnPointer(f) == Pointer {
      assert f.retTypes[0].memoryAllocated;
    }
  }

  /** The registers that hold the variables at each reachable statement. */
  ghost predicate ValidRegisters(stmts: seq<Statement>, f: Function, st: Structure,
                                 site: set<StmtIdx>, cm: map<StmtIdx, RegMap>)
  {
    && cm.Keys == st.states.Keys
    && (forall s :: s in cm ==> s < |stmts| && cm[s].Keys == st.states[s].Keys)
    && (forall s :: s in cm && st.HasLanding(s) ==> cm[s] == LandingRegs(st, s))
    && (f.entry in cm && !st.HasLanding(f.entry) ==> cm[f.entry] == EntryRegs(f))
    && (forall s, b: nat, t :: s in cm && t in cm && t != f.entry && !st.HasLanding(t) && IsEdge(stmts, s, b, t) ==>
          var br := Branches(stmts[s])[b];
          cm[t] == Put(Rest(cm[s], Operands(stmts[s])), br.results, BranchRegs(site, s, b, |br.results|)))
    && (forall s, x :: s in cm && x in cm[s] ==> OldRegister(cm[s][x], s))
  }

  /** A register that running statement `s` and entering its body leave alone. */
  predicate OldRegister(r: Reg, s: StmtIdx) {
    match r
    case Arg(block, _) => !block.Body?
    case Result(u, _, _) => u != s
  }

  /** The terminator of the body of `s`. */
  ghost predicate LoweredBody(stmts: seq<Statement>, f: Function, st: Structure, site: set<StmtIdx>,
                              cm: map<StmtIdx, RegMap>, code: Code, s: StmtIdx)
    requires s < |stmts| && s in cm
  {
    && Body(s) in code.blocks && |code.blocks[Body(s)]| == 1
    && Body(s) in code.arity && code.arity[Body(s)] == |Operands(stmts[s])|
    && (forall x :: x in Operands(stmts[s]) ==> x in cm[s])
    && var rest := Rest(cm[s], Operands(stmts[s]));
    && var t := code.blocks[Body(s)][0];
    match stmts[s]
    case Invocation(libfunc, _, branches) =>
      if s in site then
        && t == Recurse
        && |branches| == 1 && |branches[0].results| == |f.retTypes|
        && Resume(s) in code.arity && code.arity[Resume(s)] == |f.retTypes|
        && Resume(s) in code.blocks && |code.blocks[Resume(s)]| == 1 && code.blocks[Resume(s)][0].Resumed?
        && IsEdgeFor(stmts, st, s, branches[0], rest, code.blocks[Resume(s)][0].edge)
      else
        && t.RunLibfunc? && t.libfunc == libfunc && t.stmt == s
        && |t.edges| == |t.arities| == |branches|
        && (forall b :: 0 <= b < |branches| ==> t.arities[b] == |branches[b].results|)
        && (forall b :: 0 <= b < |branches| ==> IsEdgeFor(stmts, st, s, branches[b], rest, t.edges[b]))
    case Return(vars) =>
      var values := Lookup(cm[s], vars);
      if site == {} then
        t == ReturnPlain(values)
      else
        && |vars| == |f.retTypes| && HasReturnPointer(f) != NoPointer
        && t.ReturnTail? && t.values == values
        && t.passed == TailValues(HasReturnPointer(f), f.retTypes, values)
        && t.resume.Resume? && t.resume.stmt in site
  }

  ghost predicate LoweredLanding(stmts: seq<Statement>, st: Structure, cm: map<StmtIdx, RegMap>, code: Code, s: StmtIdx)
    requires s < |stmts| && s in cm && s in st.states
  {
    && Landing(s) in code.arity && code.arity[Landing(s)] == |LandingVars(st, s)|
    && Landing(s) in code.blocks
    && (forall x :: x in Operands(stmts[s]) ==> x in cm[s])
    && code.blocks[Landing(s)] == [Jump(Body(s), Lookup(cm[s], Operands(stmts[s])))]
  }

  ghost predicate LoweredEntry(stmts: seq<Statement>, f: Function, code: Code) {
    && Entry in code.arity && code.arity[Entry] == |f.params|
    && f.entry < |stmts|
    && (forall x :: x in Operands(stmts[f.entry]) ==> x in EntryRegs(f))
    && Entry in code.blocks
    && code.blocks[Entry] == [Jump(Body(f.entry), Lookup(EntryRegs(f), Operands(stmts[f.entry])))]
  }

  /** Landing blocks of returns that may have to wait for the tail call. */
  predicate MayBeDeferred(stmts: seq<Statement>, st: Structure, s: StmtIdx) {
    s < |stmts| && stmts[s].Return? && st.recursive
  }

  ghost predicate Lowered(stmts: seq<Statement>, f: Function, st: Structure,
                          site: set<StmtIdx>, cm: map<StmtIdx, RegMap>, code: Code)
  {
    && ValidRegisters(stmts, f, st, site, cm)
    && site == (if st.recursive then TailCalls(stmts, f, st.states) else {})
    && LoweredEntry(stmts, f, code)
    && (forall s {:trigger LoweredBody(stmts, f, st, site, cm, code, s)} :: s in cm ==>
          LoweredBody(stmts, f, st, site, cm, code, s))
    && (forall s {:trigger LoweredLanding(stmts, st, cm, code, s)} ::
          s in cm && st.HasLanding(s) && !MayBeDeferred(stmts, st, s) ==>
          LoweredLanding(stmts, st, cm, code, s))
  }

  // ----- control coming back to the entry statement -----

  /** The parameters that the entry statement does not take. */
  function Untaken(stmts: seq<Statement>, f: Function): set<VarId> {
    if f.entry < |stmts| && stmts[f.entry].Invocation? then IdSet(f.params) - IdSet(stmts[f.entry].args)
    else IdSet(f.params)
  }

  /** The entry block jumps past any landing block of the entry statement, so nothing may be read from
      that landing block's arguments. */
  ghost predicate EntryLands(stmts: seq<Statement>, f: Function, st: Structure) {
    st.HasLanding(f.entry) ==> Untaken(stmts, f) == {}
  }

  /** The statement that comes after `i` of the steps to `t`. */
  function StmtAt(steps: seq<(StmtIdx, nat)>, t: StmtIdx, i: nat): StmtIdx {
    if i < |steps| then steps[i].0 else t
  }

  /** Branches that lead from `s` to `t` one after the other, none of them of a statement in `avoid`. */
  ghost predicate Walk(stmts: seq<Statement>, avoid: set<StmtIdx>, s: StmtIdx, steps: seq<(StmtIdx, nat)>, t: StmtIdx) {
    StmtAt(steps, t, 0) == s && forall i :: 0 <= i < |steps| ==> StepOn(stmts, avoid, steps, t, i)
  }

  predicate StepOn(stmts: seq<Statement>, avoid: set<StmtIdx>, steps: seq<(StmtIdx, nat)>, t: StmtIdx, i: nat)
    requires i < |steps|
  {
    steps[i].0 !in avoid && IsEdge(stmts, steps[i].0, steps[i].1, StmtAt(steps, t, i + 1))
  }

  /** Some statement on the way takes the variable. */
  ghost predicate TakenOn(stmts: seq<Statement>, steps: seq<(StmtIdx, nat)>, x: VarId) {
    exists i :: 0 <= i < |steps| && steps[i].0 < |stmts| && x in Operands(stmts[steps[i].0])
  }

  /** No way round from the entry statement to itself takes a variable that the entry statement leaves
      alone; on the way round such a variable keeps the value of the parameter. */
  ghost predicate EntryKept(stmts: seq<Statement>, f: Function) {
    forall steps, x :: Walk(stmts, {}, f.entry, steps, f.entry) && x in Untaken(stmts, f) ==> !TakenOn(stmts, steps, x)
  }

  /** The functions whose blocks can be followed statement by statement. */
  ghost predicate Runnable(stmts: seq<Statement>, f: Function, st: Structure) {
    && EntryLands(stmts, f, st)
    && (st.recursive ==> TailReturnsWhole(f))
    && forall s :: s in st.states && MayBeDeferred(stmts, st, s) ==> !st.HasLanding(s)
  }

  /** The functions whose compiled code is meant to behave like them. */
  ghost predicate Faithful(stmts: seq<Statement>, f: Function, st: Structure) {
    Runnable(stmts, f, st) && EntryKept(stmts, f)
  }
}
