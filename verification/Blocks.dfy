/** The target of the compiler: blocks with arguments over SSA registers, one terminator
    each, and a depth counter for the function that calls itself last. */
module Blocks {
  import opened VarMaps
  import opened Sierra

  datatype BlockId = Entry | Landing(stmt: StmtIdx) | Body(stmt: StmtIdx) | Resume(stmt: StmtIdx)

  datatype Reg = Arg(block: BlockId, idx: nat) | Result(stmt: StmtIdx, branch: nat, idx: nat)

  /** What an edge passes: a register from outside the libfunc, or one of its results. */
  datatype Operand = External(reg: Reg) | Returned(idx: nat)

  datatype Edge = Edge(target: BlockId, operands: seq<Operand>)

  datatype Terminator =
    | Jump(target: BlockId, operands: seq<Reg>)
    | RunLibfunc(libfunc: Libfunc, stmt: StmtIdx, arities: seq<nat>, edges: seq<Edge>)
    | Recurse
    | Resumed(edge: Edge)
    | ReturnPlain(values: seq<Reg>)
    | ReturnTail(values: seq<Reg>, passed: seq<Reg>, resume: BlockId)

  /** Operations are appended to blocks, so a block can end up with several terminators; it
      is then not valid. */
  datatype Code = Code(arity: map<BlockId, nat>, blocks: map<BlockId, seq<Terminator>>)

  type Registers = map<Reg, Value>

  datatype TConfig =
    | TRunning(block: BlockId, regs: Registers, world: World, counter: nat)
    | TDone(values: seq<Value>, world: World)
    | TStuck

  /** The counter has the machine's index type. */
  const COUNTER_MODULUS: nat := 0x1_0000_0000_0000_0000

  function ArgMap(block: BlockId, vals: seq<Value>): Registers {
    map i | 0 <= i < |vals| :: Arg(block, i) := vals[i]
  }

  function ResultMap(s: StmtIdx, b: nat, vals: seq<Value>): Registers {
    map i | 0 <= i < |vals| :: Result(s, b, i) := vals[i]
  }

  predicate Readable(regs: Registers, rs: seq<Reg>) {
    forall i :: 0 <= i < |rs| ==> rs[i] in regs
  }

  function Read(regs: Registers, rs: seq<Reg>): (vals: seq<Value>)
    requires Readable(regs, rs)
    ensures |vals| == |rs|
  {
    seq(|rs|, i requires 0 <= i < |rs| => regs[rs[i]])
  }

  function ArgRegs(block: BlockId, n: nat): (rs: seq<Reg>)
    ensures |rs| == n && forall i :: 0 <= i < n ==> rs[i] == Arg(block, i)
  {
    seq(n, i requires 0 <= i < n => Arg(block, i))
  }

  function ResultRegs(s: StmtIdx, b: nat, n: nat): (rs: seq<Reg>)
    ensures |rs| == n && forall i :: 0 <= i < n ==> rs[i] == Result(s, b, i)
  {
    seq(n, i requires 0 <= i < n => Result(s, b, i))
  }

  function EnterBlock(code: Code, block: BlockId, vals: seq<Value>, regs: Registers,
                      world: World, counter: nat): TConfig
  {
    if block in code.arity && code.arity[block] == |vals| then
      TRunning(block, regs + ArgMap(block, vals), world, counter)
    else
      TStuck
  }

  predicate Resolvable(operands: seq<Operand>, regs: Registers, results: seq<Value>) {
    forall i :: 0 <= i < |operands| ==>
      match operands[i] case External(r) => r in regs case Returned(k) => k < |results|
  }

  function Resolve(operands: seq<Operand>, regs: Registers, results: seq<Value>): (vals: seq<Value>)
    requires Resolvable(operands, regs, results)
    ensures |vals| == |operands|
  {
    seq(|operands|, i requires 0 <= i < |operands| =>
      match operands[i] case External(r) => regs[r] case Returned(k) => results[k])
  }

  function Follow(code: Code, edge: Edge, regs: Registers, results: seq<Value>,
                  world: World, counter: nat): TConfig
  {
    if Resolvable(edge.operands, regs, results) then
      EnterBlock(code, edge.target, Resolve(edge.operands, regs, results), regs, world, counter)
    else
      TStuck
  }

  function Execute(code: Code, exec: Meaning, t: Terminator, c: TConfig): TConfig
    requires c.TRunning? && c.block in code.arity
    requires Readable(c.regs, ArgRegs(c.block, code.arity[c.block]))
  {
    var args := Read(c.regs, ArgRegs(c.block, code.arity[c.block]));
    match t
    case Jump(target, operands) =>
      if Readable(c.regs, operands) then
        EnterBlock(code, target, Read(c.regs, operands), c.regs, c.world, c.counter)
      else
        TStuck
    case RunLibfunc(libfunc, s, arities, edges) =>
      var out := exec(libfunc, c.world, args);
      if out.branch < |edges| && out.branch < |arities| && |out.results| == arities[out.branch] then
        Follow(code, edges[out.branch], c.regs + ResultMap(s, out.branch, out.results), out.results,
               out.world, c.counter)
      else
        TStuck
    case Recurse =>
      EnterBlock(code, Entry, args, c.regs, c.world, (c.counter + 1) % COUNTER_MODULUS)
    case Resumed(edge) =>
      Follow(code, edge, c.regs, args, c.world, c.counter)
    case ReturnPlain(values) =>
      if Readable(c.regs, values) then TDone(Read(c.regs, values), c.world) else TStuck
    case ReturnTail(values, passed, resume) =>
      if !Readable(c.regs, values) || !Readable(c.regs, passed) then
        TStuck
      else if c.counter == 0 then
        TDone(Read(c.regs, values), c.world)
      else
        EnterBlock(code, resume, Read(c.regs, passed), c.regs, c.world, c.counter - 1)
  }

  /** The depth counter is a 64-bit word: the call deeper than it can count starts it at zero again. */
  lemma CounterWraps(code: Code, exec: Meaning, c: TConfig)
    requires c.TRunning? && c.block in code.arity && Readable(c.regs, ArgRegs(c.block, code.arity[c.block]))
    requires c.counter < 0x1_0000_0000_0000_0000
    ensures Execute(code, exec, Recurse, c) ==
            EnterBlock(code, Entry, Read(c.regs, ArgRegs(c.block, code.arity[c.block])), c.regs, c.world,
                       if c.counter == 0xFFFF_FFFF_FFFF_FFFF then 0 else c.counter + 1)
  {
    hide EnterBlock, Readable, Read, ArgRegs;
  }

  function TStep(code: Code, exec: Meaning, c: TConfig): TConfig {
    match c
    case TRunning(block, regs, _, _) =>
      if block in code.blocks && |code.blocks[block]| == 1 && block in code.arity
         && Readable(regs, ArgRegs(block, code.arity[block]))
      then
        Execute(code, exec, code.blocks[block][0], c)
      else
        TStuck
    case TDone(_, _) => c
    case TStuck => c
  }

  function TRun(code: Code, exec: Meaning, c: TConfig, n: nat): TConfig {
    if n == 0 then c else TStep(code, exec, TRun(code, exec, c, n - 1))
  }

  /** The pre-entry block runs once: it clears the counter and jumps to the entry block. */
  function TStart(code: Code, args: seq<Value>, world: World): TConfig {
    EnterBlock(code, Entry, args, map[], world, 0)
  }

  ghost predicate TReturns(code: Code, exec: Meaning, args: seq<Value>, world: World,
                           values: seq<Value>, world': World)
  {
    exists n: nat :: TRun(code, exec, TStart(code, args, world), n) == TDone(values, world')
  }

  lemma {:induction false} TRunAdd(code: Code, exec: Meaning, c: TConfig, m: nat, n: nat)
    ensures TRun(code, exec, TRun(code, exec, c, m), n) == TRun(code, exec, c, m + n)
    decreases n
  {
    if n > 0 {
      TRunAdd(code, exec, c, m, n - 1);
    }
  }

  /** A run that has stopped stays where it is. */
  lemma {:induction false} TRunStops(code: Code, exec: Meaning, c: TConfig, m: nat, n: nat)
    requires m <= n && !TRun(code, exec, c, m).TRunning?
    ensures TRun(code, exec, c, n) == TRun(code, exec, c, m)
    decreases n - m
  {
    if m < n {
      TRunStops(code, exec, c, m, n - 1);
    }
  }
}
