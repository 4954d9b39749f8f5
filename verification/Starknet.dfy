/** The stub syscall handler, re-entered by the contracts that it calls. */
module Starknet {
  import opened Options

  type Felt = nat
  type FunctionId = nat

  const U64_MAX: nat := 0xFFFF_FFFF_FFFF_FFFF
  const STEP: nat := 100
  /** What a call must cost besides what is given back to the called code. */
  const CALL_OVERHEAD: nat := 10 * STEP + 500 * STEP
  const DEPLOY_OVERHEAD: nat := 200 * STEP + 500 * STEP

  datatype Error =
    | OutOfGas
    | ClassHashNotFound
    | ContractAlreadyDeployed
    | InvalidCalldataLen
    | ConstructorFailed
    | ClassHashNotDeclared
    | EntryPointNotFound
    | EntryPointFailed
    | ContractNotDeployed
    | UnsupportedAddressDomain
    | FromContract(felt: Felt)

  datatype Result = Ok(felts: seq<Felt>) | Err(errors: seq<Error>)

  datatype ContractInfo = ContractInfo(ctor: Option<FunctionId>, externals: map<Felt, FunctionId>)

  /** What does not change: the declared classes, the cost of an entry point that is given back, and how
      addresses come from deployer, salt, class and calldata. */
  datatype World = World(classes: map<Felt, ContractInfo>, entryPointCost: nat,
                         addressOf: (Felt, Felt, Felt, seq<Felt>) -> Felt)

  /** What an entry point turns out to do when it is called: spend gas, make syscalls, and end. The code
      may or may not report what gas remains. */
  datatype Code = Code(steps: seq<Step>, reportsGas: bool, result: Result)

  datatype Step = Spend(amount: nat) | Do(call: Syscall)

  datatype Syscall =
    | Deploy(classHash: Felt, salt: Felt, calldata: seq<Felt>, fromZero: bool, inner: Code)
    | ReplaceClass(classHash: Felt)
    | LibraryCall(classHash: Felt, selector: Felt, calldata: seq<Felt>, inner: Code)
    | CallContract(address: Felt, selector: Felt, calldata: seq<Felt>, inner: Code)
    | StorageRead(domain: nat, key: Felt)
    | StorageWrite(domain: nat, key: Felt, value: Felt)
    | GetExecutionInfo

  datatype State = State(storage: map<Felt, map<Felt, Felt>>, deployed: map<Felt, Felt>, contract: Felt, caller: Felt)

  /** The state and the gas after something, its result, and how deep contract code was nested in it. */
  datatype Done = Done(state: State, gas: nat, result: Result, depth: nat)

  function Cost(w: World, call: Syscall): nat {
    match call
    case Deploy(_, _, _, _, _) => DEPLOY_OVERHEAD + w.entryPointCost
    case LibraryCall(_, _, _, _) => CALL_OVERHEAD + w.entryPointCost
    case CallContract(_, _, _, _) => CALL_OVERHEAD + w.entryPointCost
    case GetExecutionInfo => 10 * STEP
    case _ => 50 * STEP
  }

  function Stored(s: State, contract: Felt, key: Felt): Felt {
    if contract in s.storage && key in s.storage[contract] then s.storage[contract][key] else 0
  }

  function Store(s: State, key: Felt, value: Felt): State {
    var own := if s.contract in s.storage then s.storage[s.contract] else map[];
    s.(storage := s.storage[s.contract := own[key := value]])
  }

  // ----- what every syscall does -----

  function Perform(w: World, s: State, call: Syscall, gas: nat): Done
    decreases call
  {
    if gas < Cost(w, call) then Done(s, gas, Err([OutOfGas]), 0)
    else
      var gas := gas - Cost(w, call);
      match call
      case Deploy(classHash, salt, calldata, fromZero, inner) =>
        var deployer := if fromZero then 0 else s.contract;
        var address := w.addressOf(deployer, salt, classHash, calldata);
        if classHash !in w.classes then Done(s, gas, Err([ClassHashNotFound]), 0)
        else
          var s' := s.(deployed := s.deployed[address := classHash]);
          if address in s.deployed then Done(s', gas, Err([ContractAlreadyDeployed]), 0)
          else if w.classes[classHash].ctor.Some? then
            var r := Enter(w, s'.(contract := address, caller := deployer), inner, gas);
            var back := r.(state := r.state.(contract := s.contract, caller := s.caller));
            if r.result.Ok? then back.(result := Ok([address] + r.result.felts))
            else back.(result := Err(r.result.errors + [ConstructorFailed]))
          else if calldata == [] then Done(s', gas, Ok([address]), 0)
          else Done(s.(deployed := s'.deployed - {address}), gas, Err([InvalidCalldataLen]), 0)
      case ReplaceClass(classHash) =>
        if classHash !in w.classes then Done(s, gas, Err([ClassHashNotFound]), 0)
        else Done(s.(deployed := s.deployed[s.contract := classHash]), gas, Ok([]), 0)
      case LibraryCall(classHash, selector, _, inner) =>
        if classHash !in w.classes then Done(s, gas, Err([ClassHashNotDeclared]), 0)
        else if selector !in w.classes[classHash].externals then
          Done(s, gas, Err([EntryPointNotFound, EntryPointFailed]), 0)
        else Failing(Enter(w, s, inner, gas))
      case CallContract(address, selector, _, inner) =>
        if address !in s.deployed then Done(s, gas, Err([ContractNotDeployed, EntryPointFailed]), 0)
        else if s.deployed[address] !in w.classes then Done(s, gas, Err([]), 0) // the handler panics
        else if selector !in w.classes[s.deployed[address]].externals then
          Done(s, gas, Err([EntryPointNotFound, EntryPointFailed]), 0)
        else
          var r := Enter(w, s.(contract := address, caller := s.contract), inner, gas);
          Failing(r.(state := r.state.(contract := s.contract, caller := s.caller)))
      case StorageRead(domain, key) =>
        if domain != 0 then Done(s, gas, Err([UnsupportedAddressDomain]), 0)
        else Done(s, gas, Ok([Stored(s, s.contract, key)]), 0)
      case StorageWrite(domain, key, value) =>
        if domain != 0 then Done(s, gas, Err([UnsupportedAddressDomain]), 0)
        else Done(Store(s, key, value), gas, Ok([]), 0)
      case GetExecutionInfo => Done(s, gas, Ok([s.contract, s.caller]), 0)
  }

  function Failing(r: Done): Done {
    if r.result.Ok? then r else r.(result := Err(r.result.errors + [EntryPointFailed]))
  }

  /** Running an entry point: the cost of one is given back first. */
  function Enter(w: World, s: State, code: Code, gas: nat): Done
    decreases code
  {
    var r := RunSteps(w, s, code.steps, gas + w.entryPointCost);
    Done(r.state, if code.reportsGas then r.gas else gas, code.result, r.depth + 1)
  }

  function RunSteps(w: World, s: State, steps: seq<Step>, gas: nat): Done
    decreases steps
  {
    if steps == [] then Done(s, gas, Ok([]), 0)
    else
      var r := RunSteps(w, s, steps[..|steps| - 1], gas);
      var last := RunStep(w, r.state, steps[|steps| - 1], r.gas);
      last.(depth := if r.depth < last.depth then last.depth else r.depth)
  }

  function RunStep(w: World, s: State, step: Step, gas: nat): Done
    decreases step
  {
    match step
    case Spend(amount) => Done(s, if amount < gas then gas - amount else 0, Ok([]), 0)
    case Do(call) => Perform(w, s, call, gas)
  }

  // ----- what holds of every tree -----

  /** Every deployed contract has a declared class. */
  ghost predicate Declared(w: World, s: State) {
    forall a :: a in s.deployed ==> s.deployed[a] in w.classes
  }

  /** The addresses are as before, and deployed contracts still have declared classes. */
  ghost predicate Restored(w: World, s: State, r: Done) {
    r.state.contract == s.contract && r.state.caller == s.caller && Declared(w, r.state)
  }

  lemma {:induction false} PerformRestores(w: World, s: State, call: Syscall, gas: nat)
    requires Declared(w, s)
    ensures Restored(w, s, Perform(w, s, call, gas))
    decreases call
  {
    if gas >= Cost(w, call) {
      var left := gas - Cost(w, call);
      match call {
        case Deploy(classHash, salt, calldata, fromZero, inner) =>
          var deployer := if fromZero then 0 else s.contract;
          var address := w.addressOf(deployer, salt, classHash, calldata);
          if classHash in w.classes {
            var s' := s.(deployed := s.deployed[address := classHash]);
            assert Declared(w, s');
            EnterRestores(w, s'.(contract := address, caller := deployer), inner, left);
          }
        case LibraryCall(_, _, _, inner) => EnterRestores(w, s, inner, left);
        case CallContract(address, _, _, inner) =>
          EnterRestores(w, s.(contract := address, caller := s.contract), inner, left);
        case _ =>
      }
    }
  }

  lemma {:induction false} EnterRestores(w: World, s: State, code: Code, gas: nat)
    requires Declared(w, s)
    ensures Restored(w, s, Enter(w, s, code, gas))
    decreases code
  {
    RunStepsRestores(w, s, code.steps, gas + w.entryPointCost);
  }

  /** Whatever code does, be it called as a library, it sees its own addresses again after each syscall. */
  lemma {:induction false} RunStepsRestores(w: World, s: State, steps: seq<Step>, gas: nat)
    requires Declared(w, s)
    ensures Restored(w, s, RunSteps(w, s, steps, gas))
    decreases steps
  {
    if steps != [] {
      var r := RunSteps(w, s, steps[..|steps| - 1], gas);
      RunStepsRestores(w, s, steps[..|steps| - 1], gas);
      RunStepRestores(w, r.state, steps[|steps| - 1], r.gas);
    }
  }

  lemma {:induction false} RunStepRestores(w: World, s: State, step: Step, gas: nat)
    requires Declared(w, s)
    ensures Restored(w, s, RunStep(w, s, step, gas))
    decreases step
  {
    if step.Do? {
      PerformRestores(w, s, step.call, gas);
    }
  }

  /** Gas never grows; a syscall that reaches contract code, at whatever depth, ends with less than it
      began with by at least the overhead, and the depth is bounded by the gas. */
  ghost predicate Spends(call: Syscall, gas: nat, r: Done) {
    && r.gas <= gas
    && (r.depth > 0 ==> r.gas + (if call.Deploy? then DEPLOY_OVERHEAD else CALL_OVERHEAD) <= gas)
    && CALL_OVERHEAD * r.depth <= gas
  }

  lemma {:induction false} PerformSpends(w: World, s: State, call: Syscall, gas: nat)
    ensures Spends(call, gas, Perform(w, s, call, gas))
    decreases call
  {
    if gas >= Cost(w, call) {
      var left := gas - Cost(w, call);
      match call {
        case Deploy(classHash, salt, calldata, fromZero, inner) =>
          var deployer := if fromZero then 0 else s.contract;
          var address := w.addressOf(deployer, salt, classHash, calldata);
          if classHash in w.classes {
            var s' := s.(deployed := s.deployed[address := classHash]);
            EnterSpends(w, s'.(contract := address, caller := deployer), inner, left);
          }
        case LibraryCall(_, _, _, inner) => EnterSpends(w, s, inner, left);
        case CallContract(address, _, _, inner) =>
          EnterSpends(w, s.(contract := address, caller := s.contract), inner, left);
        case _ =>
      }
    }
  }

  lemma {:induction false} EnterSpends(w: World, s: State, code: Code, gas: nat)
    ensures var r := Enter(w, s, code, gas);
            r.gas <= gas + w.entryPointCost && CALL_OVERHEAD * (r.depth - 1) <= gas + w.entryPointCost && r.depth > 0
    decreases code
  {
    RunStepsSpends(w, s, code.steps, gas + w.entryPointCost);
  }

  lemma {:induction false} RunStepsSpends(w: World, s: State, steps: seq<Step>, gas: nat)
    ensures var r := RunSteps(w, s, steps, gas); r.gas <= gas && CALL_OVERHEAD * r.depth <= gas
    decreases steps
  {
    if steps != [] {
      var r := RunSteps(w, s, steps[..|steps| - 1], gas);
      RunStepsSpends(w, s, steps[..|steps| - 1], gas);
      RunStepSpends(w, r.state, steps[|steps| - 1], r.gas);
    }
  }

  lemma {:induction false} RunStepSpends(w: World, s: State, step: Step, gas: nat)
    ensures var r := RunStep(w, s, step, gas); r.gas <= gas && CALL_OVERHEAD * r.depth <= gas
    decreases step
  {
    if step.Do? {
      PerformSpends(w, s, step.call, gas);
    }
  }

  /** With n units of gas contract code is never nested deeper than n / 51000, and gas that fits 64 bits
      does so all the way down. */
  lemma NestingIsBounded(w: World, s: State, call: Syscall, gas: nat)
    requires gas <= U64_MAX
    ensures Perform(w, s, call, gas).depth <= gas / 51000
    ensures Perform(w, s, call, gas).gas <= U64_MAX
  {
    PerformSpends(w, s, call, gas);
    assert CALL_OVERHEAD == 51000;
  }

  /** What is written is read back, by the same contract at the same key and nowhere else. */
  lemma StorageReadsBack(w: World, s: State, key: Felt, value: Felt, gas: nat, contract': Felt, key': Felt, gas': nat)
    requires 50 * STEP <= gas && 50 * STEP <= gas'
    ensures var written := Perform(w, s, StorageWrite(0, key, value), gas).state;
            var before := Perform(w, s.(contract := contract'), StorageRead(0, key'), gas').result;
            var after := Perform(w, written.(contract := contract'), StorageRead(0, key'), gas').result;
            after == if contract' == s.contract && key' == key then Ok([value]) else before
  {
  }

  // ----- in whose name code runs -----

  /** What is left of a call when the code it reached has run: its state but for the addresses, which are
      those of before. */
  ghost predicate Returned(s: State, steps: Done, inner: Code, unspent: nat, d: Done) {
    && d.state == steps.state.(contract := s.contract, caller := s.caller)
    && d.gas == if inner.reportsGas then steps.gas else unspent
  }

  /** Called code runs as the contract called, and its caller is the contract that calls. It starts with
      what is left after 51000 units. */
  lemma CalledCodeRuns(w: World, s: State, address: Felt, selector: Felt, calldata: seq<Felt>, inner: Code, gas: nat)
    requires Declared(w, s) && gas >= 51000 + w.entryPointCost
    requires address in s.deployed && selector in w.classes[s.deployed[address]].externals
    ensures var steps := RunSteps(w, s.(contract := address, caller := s.contract), inner.steps, gas - 51000);
            Returned(s, steps, inner, gas - 51000 - w.entryPointCost,
                     Perform(w, s, CallContract(address, selector, calldata, inner), gas))
    ensures Perform(w, s, CallContract(address, selector, calldata, inner), gas).result ==
            if inner.result.Ok? then inner.result else Err(inner.result.errors + [EntryPointFailed])
  {
    assert CALL_OVERHEAD == 51000;
    hide RunSteps;
  }

  /** A library's code runs in the name of the contract that calls it. */
  lemma LibraryCodeRuns(w: World, s: State, classHash: Felt, selector: Felt, calldata: seq<Felt>, inner: Code, gas: nat)
    requires Declared(w, s) && gas >= 51000 + w.entryPointCost
    requires classHash in w.classes && selector in w.classes[classHash].externals
    ensures var steps := RunSteps(w, s, inner.steps, gas - 51000);
            Returned(s, steps, inner, gas - 51000 - w.entryPointCost,
                     Perform(w, s, LibraryCall(classHash, selector, calldata, inner), gas))
    ensures Perform(w, s, LibraryCall(classHash, selector, calldata, inner), gas).result ==
            if inner.result.Ok? then inner.result else Err(inner.result.errors + [EntryPointFailed])
  {
    assert CALL_OVERHEAD == 51000;
    RunStepsRestores(w, s, inner.steps, gas - 51000);
    hide RunSteps;
  }

  /** A constructor runs as the new contract, which is deployed by then, and its caller is the deployer. */
  lemma ConstructorRuns(w: World, s: State, classHash: Felt, salt: Felt, calldata: seq<Felt>, fromZero: bool,
                        inner: Code, gas: nat)
    requires gas >= 70000 + w.entryPointCost && classHash in w.classes && w.classes[classHash].ctor.Some?
    requires w.addressOf(if fromZero then 0 else s.contract, salt, classHash, calldata) !in s.deployed
    ensures var deployer := if fromZero then 0 else s.contract;
            var address := w.addressOf(deployer, salt, classHash, calldata);
            var inside := State(s.storage, s.deployed[address := classHash], address, deployer);
            var steps := RunSteps(w, inside, inner.steps, gas - 70000);
            var d := Perform(w, s, Deploy(classHash, salt, calldata, fromZero, inner), gas);
            && Returned(s, steps, inner, gas - 70000 - w.entryPointCost, d)
            && d.result ==
               if inner.result.Ok? then Ok([address] + inner.result.felts)
               else Err(inner.result.errors + [ConstructorFailed])
  {
    assert DEPLOY_OVERHEAD == 70000;
    hide RunSteps;
  }

  /** A contract without a constructor is deployed if it is given no calldata, and not otherwise. */
  lemma PlainDeployment(w: World, s: State, classHash: Felt, salt: Felt, calldata: seq<Felt>, fromZero: bool,
                        inner: Code, gas: nat)
    requires gas >= 70000 + w.entryPointCost && classHash in w.classes && w.classes[classHash].ctor.None?
    requires w.addressOf(if fromZero then 0 else s.contract, salt, classHash, calldata) !in s.deployed
    ensures var address := w.addressOf(if fromZero then 0 else s.contract, salt, classHash, calldata);
            var d := Perform(w, s, Deploy(classHash, salt, calldata, fromZero, inner), gas);
            && d.gas == gas - 70000 - w.entryPointCost
            && if calldata == [] then
                 d.state == s.(deployed := s.deployed[address := classHash]) && d.result == Ok([address])
               else d.state == s && d.result == Err([InvalidCalldataLen])
  {
    var address := w.addressOf(if fromZero then 0 else s.contract, salt, classHash, calldata);
    assert s.deployed[address := classHash] - {address} == s.deployed;
  }

  /** The steps of code are taken in order: a syscall does what it does alone, spending stops at zero. */
  lemma {:induction false} StepsInOrder(w: World, s: State, first: Step, rest: seq<Step>, gas: nat)
    ensures var a := if first.Do? then Perform(w, s, first.call, gas)
                     else Done(s, if first.amount < gas then gas - first.amount else 0, Ok([]), 0);
            var r, b := RunSteps(w, s, [first] + rest, gas), RunSteps(w, a.state, rest, a.gas);
            r.state == b.state && r.gas == b.gas
    decreases |rest|
  {
    var steps := [first] + rest;
    if rest == [] {
      assert steps[..|steps| - 1] == [];
    } else {
      StepsInOrder(w, s, first, rest[..|rest| - 1], gas);
      assert steps[..|steps| - 1] == [first] + rest[..|rest| - 1];
    }
  }

  /** What is stored under every contract when one value has been written. */
  ghost predicate OnlyWrote(s: State, s': State, contract: Felt, key: Felt, value: Felt) {
    forall a, k :: Stored(s', a, k) == if a == contract && k == key then value else Stored(s, a, k)
  }

  lemma OneWrite(w: World, s: State, key: Felt, value: Felt, gas: nat)
    requires gas >= 5000
    ensures var r := RunSteps(w, s, [Do(StorageWrite(0, key, value))], gas);
            && OnlyWrote(s, r.state, s.contract, key, value) && r.gas == gas - 5000
            && r.state == s.(storage := r.state.storage)
  {
    hide RunSteps;
    var step := Do(StorageWrite(0, key, value));
    StepsInOrder(w, s, step, [], gas);
    assert [step] + [] == [step];
    NoSteps(w, Store(s, key, value), gas - 5000);
  }

  lemma NoSteps(w: World, s: State, gas: nat)
    ensures RunSteps(w, s, [], gas) == Done(s, gas, Ok([]), 0)
  {
  }

  /** Where the contract and its caller do not matter. */
  lemma SameStorage(s: State, s': State, r: State, r': State, contract: Felt, key: Felt, value: Felt)
    requires OnlyWrote(s, r, contract, key, value) && s'.storage == s.storage && r'.storage == r.storage
    ensures OnlyWrote(s', r', contract, key, value)
  {
    forall a, k ensures Stored(r', a, k) == if a == contract && k == key then value else Stored(s', a, k) {
      assert Stored(r', a, k) == Stored(r, a, k) && Stored(s', a, k) == Stored(s, a, k);
    }
  }

  /** A contract that is called writes to its own storage, and a library to the storage of the contract that
      uses it. */
  lemma WhoseStorage(w: World, s: State, address: Felt, classHash: Felt, selector: Felt, calldata: seq<Felt>, key: Felt,
                     value: Felt, reports: bool, result: Result, gas: nat)
    requires Declared(w, s) && gas >= 56000 + w.entryPointCost
    requires address in s.deployed && selector in w.classes[s.deployed[address]].externals
    requires classHash in w.classes && selector in w.classes[classHash].externals
    ensures var inner := Code([Do(StorageWrite(0, key, value))], reports, result);
            var called := Perform(w, s, CallContract(address, selector, calldata, inner), gas).state;
            var used := Perform(w, s, LibraryCall(classHash, selector, calldata, inner), gas).state;
            && OnlyWrote(s, called, address, key, value) && called == s.(storage := called.storage)
            && OnlyWrote(s, used, s.contract, key, value) && used == s.(storage := used.storage)
  {
    var inner := Code([Do(StorageWrite(0, key, value))], reports, result);
    CalledCodeRuns(w, s, address, selector, calldata, inner, gas);
    LibraryCodeRuns(w, s, classHash, selector, calldata, inner, gas);
    hide Perform, RunSteps, OnlyWrote;
    var inside := s.(contract := address, caller := s.contract);
    OneWrite(w, inside, key, value, gas - 51000);
    OneWrite(w, s, key, value, gas - 51000);
    SameStorage(inside, s, RunSteps(w, inside, inner.steps, gas - 51000).state,
                Perform(w, s, CallContract(address, selector, calldata, inner), gas).state, address, key, value);
  }

  /** Syscalls that run no code: what they answer and change, and what they cost. */
  lemma PlainSyscalls(w: World, s: State, classHash: Felt, domain: nat, key: Felt, value: Felt, gas: nat)
    ensures Perform(w, s, GetExecutionInfo, gas) ==
            if gas < 1000 then Done(s, gas, Err([OutOfGas]), 0) else Done(s, gas - 1000, Ok([s.contract, s.caller]), 0)
    ensures gas < 5000 ==> forall call: Syscall :: call.ReplaceClass? || call.StorageRead? || call.StorageWrite? ==>
              Perform(w, s, call, gas) == Done(s, gas, Err([OutOfGas]), 0)
    ensures gas >= 5000 ==>
      Perform(w, s, ReplaceClass(classHash), gas) ==
      if classHash in w.classes then Done(s.(deployed := s.deployed[s.contract := classHash]), gas - 5000, Ok([]), 0)
      else Done(s, gas - 5000, Err([ClassHashNotFound]), 0)
    ensures gas >= 5000 && domain != 0 ==>
      && Perform(w, s, StorageRead(domain, key), gas) == Done(s, gas - 5000, Err([UnsupportedAddressDomain]), 0)
      && Perform(w, s, StorageWrite(domain, key, value), gas) ==
         Done(s, gas - 5000, Err([UnsupportedAddressDomain]), 0)
    ensures gas >= 5000 ==>
      && Perform(w, s, StorageRead(0, key), gas) == Done(s, gas - 5000, Ok([Stored(s, s.contract, key)]), 0)
      && var d := Perform(w, s, StorageWrite(0, key, value), gas);
         d.gas == gas - 5000 && d.result == Ok([]) && OnlyWrote(s, d.state, s.contract, key, value)
  {
  }

  /** Why a call or a deployment is refused, and that no code runs then. */
  lemma Refusals(w: World, s: State, address: Felt, classHash: Felt, selector: Felt, calldata: seq<Felt>, salt: Felt,
                 fromZero: bool, inner: Code, gas: nat)
    requires Declared(w, s)
    ensures var d := Perform(w, s, CallContract(address, selector, calldata, inner), gas);
            && (gas < 51000 + w.entryPointCost ==> d == Done(s, gas, Err([OutOfGas]), 0))
            && (gas >= 51000 + w.entryPointCost && address !in s.deployed ==>
                  d == Done(s, gas - 51000 - w.entryPointCost, Err([ContractNotDeployed, EntryPointFailed]), 0))
            && (gas >= 51000 + w.entryPointCost && address in s.deployed
                && selector !in w.classes[s.deployed[address]].externals ==>
                  d == Done(s, gas - 51000 - w.entryPointCost, Err([EntryPointNotFound, EntryPointFailed]), 0))
    ensures var d := Perform(w, s, LibraryCall(classHash, selector, calldata, inner), gas);
            && (gas < 51000 + w.entryPointCost ==> d == Done(s, gas, Err([OutOfGas]), 0))
            && (gas >= 51000 + w.entryPointCost && classHash !in w.classes ==>
                  d == Done(s, gas - 51000 - w.entryPointCost, Err([ClassHashNotDeclared]), 0))
            && (gas >= 51000 + w.entryPointCost && classHash in w.classes
                && selector !in w.classes[classHash].externals ==>
                  d == Done(s, gas - 51000 - w.entryPointCost, Err([EntryPointNotFound, EntryPointFailed]), 0))
    ensures var d := Perform(w, s, Deploy(classHash, salt, calldata, fromZero, inner), gas);
            && (gas < 70000 + w.entryPointCost ==> d == Done(s, gas, Err([OutOfGas]), 0))
            && (gas >= 70000 + w.entryPointCost && classHash !in w.classes ==>
                  d == Done(s, gas - 70000 - w.entryPointCost, Err([ClassHashNotFound]), 0))
  {
    assert CALL_OVERHEAD == 51000 && DEPLOY_OVERHEAD == 70000;
  }

  /** An address that is deployed already is taken over by the class of the attempt, which fails. */
  lemma DeployedAlready(w: World, s: State, classHash: Felt, salt: Felt, calldata: seq<Felt>, fromZero: bool,
                        inner: Code, gas: nat)
    requires gas >= 70000 + w.entryPointCost && classHash in w.classes
    requires w.addressOf(if fromZero then 0 else s.contract, salt, classHash, calldata) in s.deployed
    ensures var address := w.addressOf(if fromZero then 0 else s.contract, salt, classHash, calldata);
            Perform(w, s, Deploy(classHash, salt, calldata, fromZero, inner), gas) ==
            Done(s.(deployed := s.deployed[address := classHash]), gas - 70000 - w.entryPointCost,
                 Err([ContractAlreadyDeployed]), 0)
  {
  }

  // ----- the handler -----

  class Handler {
    const world: World
    var storage: map<Felt, map<Felt, Felt>>
    var deployed: map<Felt, Felt>
    var contract: Felt
    var caller: Felt

    ghost function Now(): State
      reads this
    {
      State(storage, deployed, contract, caller)
    }

    /** Replaces the addresses in the context and tells what they were. */
    method OpenCallerContext(newContract: Felt, newCaller: Felt) returns (oldContract: Felt, oldCaller: Felt)
      modifies this`contract, this`caller
      ensures oldContract == old(contract) && oldCaller == old(caller)
      ensures contract == newContract && caller == newCaller
    {
      oldContract, oldCaller := contract, caller;
      contract, caller := newContract, newCaller;
    }

    method CloseCallerContext(oldContract: Felt, oldCaller: Felt)
      modifies this`contract, this`caller
      ensures contract == oldContract && caller == oldCaller
    {
      contract, caller := oldContract, oldCaller;
    }

    /** The gas that is given back fits 64 bits, because the syscall has just paid more. */
    method CallEntryPoint(code: Code, gas: nat) returns (result: Result, gasLeft: nat)
      requires Declared(world, Now()) && gas + world.entryPointCost <= U64_MAX
      modifies this
      ensures var r := Enter(world, old(Now()), code, gas);
              Now() == r.state && gasLeft == r.gas && result == r.result
      decreases code
    {
      ghost var start := Now();
      var inner := gas + world.entryPointCost;
      RunStepsRestores(world, start, code.steps, inner);
      RunStepsSpends(world, start, code.steps, inner);
      inner := RunCode(code.steps, inner);
      gasLeft := if code.reportsGas then inner else gas;
      result := code.result;
    }

    method RunCode(steps: seq<Step>, gas: nat) returns (gasLeft: nat)
      requires Declared(world, Now()) && gas <= U64_MAX
      modifies this
      ensures var r := RunSteps(world, old(Now()), steps, gas); Now() == r.state && gasLeft == r.gas
      decreases steps
    {
      gasLeft := gas;
      ghost var start := Now();
      var i := 0;
      while i < |steps|
        invariant 0 <= i <= |steps|
        invariant var r := RunSteps(world, start, steps[..i], gas); Now() == r.state && gasLeft == r.gas
      {
        assert steps[..i + 1][..i] == steps[..i];
        RunStepsRestores(world, start, steps[..i], gas);
        RunStepsSpends(world, start, steps[..i], gas);
        gasLeft := TakeStep(steps[i], gasLeft);
        i := i + 1;
      }
      assert steps[..i] == steps;
    }

    method TakeStep(step: Step, gas: nat) returns (gasLeft: nat)
      requires Declared(world, Now()) && gas <= U64_MAX
      modifies this
      ensures var r := RunStep(world, old(Now()), step, gas); Now() == r.state && gasLeft == r.gas
      decreases step
    {
      match step {
        case Spend(amount) => gasLeft := if amount < gas then gas - amount else 0;
        case Do(call) =>
          var result;
          result, gasLeft := Handle(call, gas);
      }
    }

    /** Each syscall deducts its cost first. The lookup of a deployed contract's class never fails. */
    method Handle(call: Syscall, gas: nat) returns (result: Result, gasLeft: nat)
      requires Declared(world, Now()) && gas <= U64_MAX
      modifies this
      ensures var r := Perform(world, old(Now()), call, gas);
              Now() == r.state && gasLeft == r.gas && result == r.result
      decreases call
    {
      if gas < Cost(world, call) {
        return Err([OutOfGas]), gas;
      }
      gasLeft := gas - Cost(world, call);
      match call {
        case Deploy(classHash, salt, calldata, fromZero, inner) =>
          var deployer := if fromZero then 0 else contract;
          var address := world.addressOf(deployer, salt, classHash, calldata);
          if classHash !in world.classes {
            return Err([ClassHashNotFound]), gasLeft;
          }
          var already := address in deployed;
          deployed := deployed[address := classHash];
          if already {
            return Err([ContractAlreadyDeployed]), gasLeft;
          }
          if world.classes[classHash].ctor.Some? {
            var c, f := OpenCallerContext(address, deployer);
            result, gasLeft := CallEntryPoint(inner, gasLeft);
            CloseCallerContext(c, f);
            result := if result.Ok? then Ok([address] + result.felts) else Err(result.errors + [ConstructorFailed]);
          } else if calldata == [] {
            result := Ok([address]);
          } else {
            deployed := deployed - {address};
            result := Err([InvalidCalldataLen]);
          }
        case ReplaceClass(classHash) =>
          if classHash !in world.classes {
            return Err([ClassHashNotFound]), gasLeft;
          }
          deployed := deployed[contract := classHash];
          result := Ok([]);
        case LibraryCall(classHash, selector, _, inner) =>
          if classHash !in world.classes {
            return Err([ClassHashNotDeclared]), gasLeft;
          }
          if selector !in world.classes[classHash].externals {
            return Err([EntryPointNotFound, EntryPointFailed]), gasLeft;
          }
          result, gasLeft := CallEntryPoint(inner, gasLeft);
          result := if result.Ok? then result else Err(result.errors + [EntryPointFailed]);
        case CallContract(address, selector, _, inner) =>
          if address !in deployed {
            return Err([ContractNotDeployed, EntryPointFailed]), gasLeft;
          }
          assert deployed[address] in world.classes;
          if selector !in world.classes[deployed[address]].externals {
            return Err([EntryPointNotFound, EntryPointFailed]), gasLeft;
          }
          var c, f := OpenCallerContext(address, contract);
          result, gasLeft := CallEntryPoint(inner, gasLeft);
          CloseCallerContext(c, f);
          result := if result.Ok? then result else Err(result.errors + [EntryPointFailed]);
        case StorageRead(domain, key) =>
          if domain != 0 {
            return Err([UnsupportedAddressDomain]), gasLeft;
          }
          result := Ok([if contract in storage && key in storage[contract] then storage[contract][key] else 0]);
        case StorageWrite(domain, key, value) =>
          if domain != 0 {
            return Err([UnsupportedAddressDomain]), gasLeft;
          }
          var own := if contract in storage then storage[contract] else map[];
          storage := storage[contract := own[key := value]];
          result := Ok([]);
        case GetExecutionInfo => result := Ok([contract, caller]);
      }
    }
  }
}
