/** Profiled runs on many threads: one process-wide lock, a depth counter per thread, a trace-id symbol
    per library and a table of slots. One step per access to shared state. */
module Profile {
  import opened Options

  type Tid = nat
  type Lib = nat
  type Id = nat

  datatype Outcome = Succeeded | Failed | Panicked

  /** How far a profiled run has come, with its trace id and the symbol's previous value. */
  datatype Stage =
    | Called
    | Waiting
    | Entered
    | Counted
    | HasId(id: Id)
    | HasSlot(id: Id)
    | HasOld(id: Id, prev: Id)
    | Running(id: Id, prev: Id)
    | Finished(id: Id, prev: Id, outcome: Outcome)
    | Drained(id: Id, prev: Id, outcome: Outcome)
    | Restored(id: Id, drained: bool)
    | Cleared
    | Uncounted

  /** A profiled run of a library; whether it is the one that took the lock. */
  datatype Frame = Frame(lib: Lib, outermost: bool, stage: Stage)

  datatype Thread = Thread(depth: nat, stack: seq<Frame>)

  datatype State = State(lock: Option<Tid>, threads: map<Tid, Thread>, symbols: map<Lib, Id>, slots: set<Id>,
                         counter: Id)

  datatype Action = Call(lib: Lib) | Finish(outcome: Outcome) | Advance

  function At(s: State, t: Tid): Thread {
    if t in s.threads then s.threads[t] else Thread(0, [])
  }

  function Init<T>(s: seq<T>): seq<T>
    requires s != []
  {
    s[..|s| - 1]
  }

  function Last<T>(s: seq<T>): T
    requires s != []
  {
    s[|s| - 1]
  }

  function Put(s: State, t: Tid, th: Thread): State {
    s.(threads := s.threads[t := th])
  }

  /** The thread's innermost run moves on to a stage. */
  function ToStage(s: State, t: Tid, stage: Stage): State
    requires At(s, t).stack != []
  {
    var th := At(s, t);
    Put(s, t, th.(stack := Init(th.stack) + [Last(th.stack).(stage := stage)]))
  }

  /** Code of the library, or the caller's callback, is running and may start further profiled runs. */
  predicate Open(stage: Stage) {
    stage.Running? || (stage.Drained? && stage.outcome.Succeeded?)
  }

  /** One step of a thread, if it can take it. */
  function Step(s: State, t: Tid, a: Action): Option<State> {
    var th := At(s, t);
    match a
    case Call(lib) =>
      if th.stack == [] || Open(Last(th.stack).stage)
      then Some(Put(s, t, th.(stack := th.stack + [Frame(lib, false, Called)])))
      else None
    case Finish(outcome) =>
      if th.stack != [] && Last(th.stack).stage.Running?
      then Some(ToStage(s, t, Finished(Last(th.stack).stage.id, Last(th.stack).stage.prev, outcome)))
      else None
    case Advance => if th.stack == [] then None else Advanced(s, t, Last(th.stack))
  }

  function Advanced(s: State, t: Tid, f: Frame): Option<State>
    requires At(s, t).stack != [] && f == Last(At(s, t).stack)
  {
    var th := At(s, t);
    match f.stage
    case Called =>
      if th.depth == 0
      then Some(Put(s, t, th.(stack := Init(th.stack) + [Frame(f.lib, true, Waiting)])))
      else Some(ToStage(s, t, Entered))
    case Waiting => if s.lock.None? then Some(ToStage(s, t, Entered).(lock := Some(t))) else None
    case Entered =>
      var s' := ToStage(s, t, Counted);
      Some(Put(s', t, s'.threads[t].(depth := th.depth + 1)))
    case Counted =>
      if f.lib in s.symbols then Some(ToStage(s, t, HasId(s.counter)).(counter := s.counter + 1))
      else Some(ToStage(s, t, Cleared))
    case HasId(id) => Some(ToStage(s, t, HasSlot(id)).(slots := s.slots + {id}))
    case HasSlot(id) => if f.lib in s.symbols then Some(ToStage(s, t, HasOld(id, s.symbols[f.lib]))) else None
    case HasOld(id, prev) => Some(ToStage(s, t, Running(id, prev)).(symbols := s.symbols[f.lib := id]))
    case Running(_, _) => None
    case Finished(id, prev, outcome) =>
      if outcome.Panicked?
      then Some(ToStage(s, t, Restored(id, false)).(symbols := s.symbols[f.lib := prev]))
      else Some(ToStage(s, t, Drained(id, prev, outcome)).(slots := s.slots - {id}))
    case Drained(id, prev, _) => Some(ToStage(s, t, Restored(id, true)).(symbols := s.symbols[f.lib := prev]))
    case Restored(id, _) => Some(ToStage(s, t, Cleared).(slots := s.slots - {id}))
    case Cleared =>
      var s' := ToStage(s, t, Uncounted);
      Some(Put(s', t, s'.threads[t].(depth := if th.depth == 0 then 0 else th.depth - 1)))
    case Uncounted =>
      var s' := Put(s, t, th.(stack := Init(th.stack)));
      Some(if f.outermost then s'.(lock := None) else s')
  }

  // ----- what is true of every state -----

  predicate HasDepth(stage: Stage) {
    !stage.Called? && !stage.Waiting? && !stage.Entered? && !stage.Uncounted?
  }

  /** The runs of a thread that its depth counts. */
  function Depth(stack: seq<Frame>): nat {
    if stack == [] then 0 else Depth(Init(stack)) + if HasDepth(Last(stack).stage) then 1 else 0
  }

  /** The stages in which the symbol holds the run's id. */
  predicate Traced(stage: Stage) {
    stage.Running? || stage.Finished? || stage.Drained?
  }

  /** The id of a library's innermost traced run, or the value its symbol began with. */
  function Innermost(stack: seq<Frame>, lib: Lib, base: Id): Id {
    if stack == [] then base
    else if Last(stack).lib == lib && Traced(Last(stack).stage) then Last(stack).stage.id
    else Innermost(Init(stack), lib, base)
  }

  predicate WithId(stage: Stage) {
    HasDepth(stage) && !stage.Counted? && !stage.Cleared?
  }

  function Ids(stack: seq<Frame>): set<Id> {
    if stack == [] then {}
    else Ids(Init(stack)) + if WithId(Last(stack).stage) then {Last(stack).stage.id} else {}
  }

  predicate WithSlot(stage: Stage) {
    stage.HasSlot? || stage.HasOld? || stage.Running? || stage.Finished? || (stage.Restored? && !stage.drained)
  }

  function SlotIds(stack: seq<Frame>): set<Id> {
    if stack == [] then {}
    else SlotIds(Init(stack)) + if WithSlot(Last(stack).stage) then {Last(stack).stage.id} else {}
  }

  predicate WithOld(stage: Stage) {
    stage.HasOld? || Traced(stage)
  }

  /** Ids are new, each run remembers what its library's symbol was, and runs that are not the innermost
      are open. */
  ghost predicate Chain(stack: seq<Frame>, symbols: map<Lib, Id>, first: Id, counter: Id) {
    stack != [] ==>
      var f := Last(stack);
      && Chain(Init(stack), symbols, first, counter)
      && (|stack| > 1 ==> Open(Last(Init(stack)).stage))
      && (f.outermost <==> |stack| == 1 && !f.stage.Called?)
      && (f.stage.Waiting? ==> |stack| == 1)
      && (WithId(f.stage) ==> first <= f.stage.id < counter && f.stage.id !in Ids(Init(stack)) && f.lib in symbols)
      && (WithOld(f.stage) ==> f.lib in symbols && f.stage.prev == Innermost(Init(stack), f.lib, symbols[f.lib]))
  }

  /** The thread has the lock. */
  predicate Inside(stack: seq<Frame>) {
    stack != [] && !stack[0].stage.Called? && !stack[0].stage.Waiting?
  }

  function Holder(s: State): seq<Frame> {
    if s.lock.Some? then At(s, s.lock.value).stack else []
  }

  ghost predicate ThreadInv(th: Thread, hasLock: bool, symbols: map<Lib, Id>, first: Id, counter: Id) {
    && Chain(th.stack, symbols, first, counter)
    && th.depth == Depth(th.stack)
    && (hasLock <==> Inside(th.stack))
  }

  /** The symbols and the slots are what the lock's holder makes of those at the start. */
  ghost predicate SharedInv(stack: seq<Frame>, symbols: map<Lib, Id>, slots: set<Id>, start: State) {
    && symbols.Keys == start.symbols.Keys
    && (forall lib :: lib in symbols ==> symbols[lib] == Innermost(stack, lib, start.symbols[lib]))
    && slots == start.slots + SlotIds(stack)
  }

  ghost predicate Invariant(s: State, start: State) {
    && start.counter <= s.counter
    && (forall t: Tid :: ThreadInv(At(s, t), s.lock == Some(t), start.symbols, start.counter, s.counter))
    && SharedInv(Holder(s), s.symbols, s.slots, start)
  }

  /** No profiled run has begun; ids in use are below the counter. */
  ghost predicate Start(s: State) {
    && s.lock == None && s.threads == map[]
    && (forall id :: id in s.slots ==> id < s.counter)
  }

  lemma StartInvariant(s: State)
    requires Start(s)
    ensures Invariant(s, s)
  {
  }

  // ----- one step -----

  lemma {:induction false} ChainIds(stack: seq<Frame>, symbols: map<Lib, Id>, first: Id, counter: Id)
    requires Chain(stack, symbols, first, counter)
    ensures forall id :: id in Ids(stack) ==> first <= id < counter
    ensures SlotIds(stack) <= Ids(stack)
  {
    if stack != [] {
      ChainIds(Init(stack), symbols, first, counter);
    }
  }

  lemma {:induction false} ChainLater(stack: seq<Frame>, symbols: map<Lib, Id>, first: Id, counter: Id, counter': Id)
    requires Chain(stack, symbols, first, counter) && counter <= counter'
    ensures Chain(stack, symbols, first, counter')
  {
    if stack != [] {
      ChainLater(Init(stack), symbols, first, counter, counter');
    }
  }

  /** What a thread's runs amount to, seen from the innermost one. */
  lemma Unfold(stack: seq<Frame>, f: Frame)
    ensures Init(stack + [f]) == stack && Last(stack + [f]) == f
    ensures Depth(stack + [f]) == Depth(stack) + if HasDepth(f.stage) then 1 else 0
    ensures SlotIds(stack + [f]) == SlotIds(stack) + if WithSlot(f.stage) then {f.stage.id} else {}
    ensures forall lib, base :: Innermost(stack + [f], lib, base)
              == if f.lib == lib && Traced(f.stage) then f.stage.id else Innermost(stack, lib, base)
    ensures stack != [] ==> Inside(stack + [f]) == Inside(stack)
  {
    assert Init(stack + [f]) == stack;
  }

  lemma Refold(stack: seq<Frame>)
    requires stack != []
    ensures Init(stack) + [Last(stack)] == stack
  {
  }

  /** A thread that has a run inside a run has the lock, and counts. */
  lemma {:induction false} NestedInside(stack: seq<Frame>, symbols: map<Lib, Id>, first: Id, counter: Id)
    requires Chain(stack, symbols, first, counter) && stack != [] && Open(Last(stack).stage)
    ensures Inside(stack) && Depth(stack) > 0
  {
    if |stack| > 1 {
      NestedInside(Init(stack), symbols, first, counter);
      assert stack[0] == Init(stack)[0];
    }
  }

  /** What the innermost run must satisfy, given the ones around it. */
  ghost predicate TopOk(init: seq<Frame>, f: Frame, symbols: map<Lib, Id>, first: Id, counter: Id) {
    && (init != [] ==> Open(Last(init).stage))
    && (f.outermost <==> init == [] && !f.stage.Called?)
    && (f.stage.Waiting? ==> init == [])
    && (WithId(f.stage) ==> first <= f.stage.id < counter && f.stage.id !in Ids(init) && f.lib in symbols)
    && (WithOld(f.stage) ==> f.lib in symbols && f.stage.prev == Innermost(init, f.lib, symbols[f.lib]))
  }

  lemma ChainTop(init: seq<Frame>, f: Frame, symbols: map<Lib, Id>, first: Id, counter: Id)
    ensures Chain(init + [f], symbols, first, counter) <==>
      Chain(init, symbols, first, counter) && TopOk(init, f, symbols, first, counter)
  {
    assert Init(init + [f]) == init && Last(init + [f]) == f;
  }

  /** Threads that took no step keep their invariant. */
  lemma OthersKeep(s: State, s': State, t: Tid, start: State)
    requires Invariant(s, start) && s.counter <= s'.counter
    requires forall u: Tid :: u != t ==> At(s', u) == At(s, u) && (s'.lock == Some(u) <==> s.lock == Some(u))
    ensures forall u: Tid :: u != t ==>
      ThreadInv(At(s', u), s'.lock == Some(u), start.symbols, start.counter, s'.counter)
  {
    forall u: Tid | u != t
      ensures ThreadInv(At(s', u), s'.lock == Some(u), start.symbols, start.counter, s'.counter)
    {
      assert ThreadInv(At(s, u), s.lock == Some(u), start.symbols, start.counter, s.counter);
      ChainLater(At(s, u).stack, start.symbols, start.counter, s.counter, s'.counter);
    }
  }

  /** A step of the lock's holder that changes its innermost run and what that run accounts for. */
  lemma HolderStep(s: State, s': State, t: Tid, start: State, init: seq<Frame>, f: Frame)
    requires Invariant(s, start) && s.lock == Some(t) == s'.lock && s.counter <= s'.counter
    requires forall u: Tid :: u != t ==> At(s', u) == At(s, u)
    requires At(s', t).stack == init + [f] && At(s', t).depth == Depth(init + [f]) && Inside(init + [f])
    requires Chain(init, start.symbols, start.counter, s.counter)
    requires TopOk(init, f, start.symbols, start.counter, s'.counter)
    requires SharedInv(init + [f], s'.symbols, s'.slots, start)
    ensures Invariant(s', start)
  {
    hide Chain, TopOk, Depth, SharedInv, Inside;
    OthersKeep(s, s', t, start);
    ChainLater(init, start.symbols, start.counter, s.counter, s'.counter);
    ChainTop(init, f, start.symbols, start.counter, s'.counter);
  }

  /** A step of a thread that is still outside. */
  lemma OutsideStep(s: State, s': State, t: Tid, start: State, stack: seq<Frame>)
    requires Invariant(s, start) && s.lock == s'.lock != Some(t) && s.counter == s'.counter
    requires forall u: Tid :: u != t ==> At(s', u) == At(s, u)
    requires At(s', t) == Thread(Depth(stack), stack) && !Inside(stack)
    requires Chain(stack, start.symbols, start.counter, s'.counter)
    requires s'.symbols == s.symbols && s'.slots == s.slots
    ensures Invariant(s', start)
  {
    hide Chain, Depth, SharedInv, Inside;
    OthersKeep(s, s', t, start);
    assert Holder(s') == Holder(s);
  }

  /** The facts about a thread that can take a step. */
  lemma Facts(s: State, start: State, t: Tid, f: Frame)
    requires Invariant(s, start) && At(s, t).stack != [] && f == Last(At(s, t).stack)
    ensures var init := Init(At(s, t).stack);
            && At(s, t).stack == init + [f]
            && Chain(init, start.symbols, start.counter, s.counter)
            && TopOk(init, f, start.symbols, start.counter, s.counter)
            && At(s, t).depth == Depth(init + [f])
            && (s.lock == Some(t) <==> Inside(init + [f]))
            && (init != [] ==> Inside(init) && s.lock == Some(t) && Depth(init) > 0)
  {
    var init := Init(At(s, t).stack);
    assert ThreadInv(At(s, t), s.lock == Some(t), start.symbols, start.counter, s.counter);
    Refold(At(s, t).stack);
    ChainTop(init, f, start.symbols, start.counter, s.counter);
    if init != [] {
      NestedInside(init, start.symbols, start.counter, s.counter);
      Unfold(init, f);
    }
  }

  /** A library's code comes back: only the stage of the innermost run changes. */
  lemma FinishTop(s: State, t: Tid, outcome: Outcome)
    requires Step(s, t, Finish(outcome)).Some?
    ensures At(s, t).stack != [] && Last(At(s, t).stack).stage.Running?
    ensures var s', f := Step(s, t, Finish(outcome)).value, Last(At(s, t).stack);
            && At(s', t).stack
               == Init(At(s, t).stack) + [f.(stage := Finished(f.stage.id, f.stage.prev, outcome))]
            && At(s', t).depth == At(s, t).depth && s' == s.(threads := s'.threads)
            && forall u: Tid :: u != t ==> At(s', u) == At(s, u)
  {
  }

  lemma FinishKeeps(s: State, start: State, t: Tid, outcome: Outcome)
    requires Invariant(s, start) && Step(s, t, Finish(outcome)).Some?
    ensures Invariant(Step(s, t, Finish(outcome)).value, start)
  {
    hide Step;
    FinishTop(s, t, outcome);
    var s', f := Step(s, t, Finish(outcome)).value, Last(At(s, t).stack);
    var init := Init(At(s, t).stack);
    var f' := f.(stage := Finished(f.stage.id, f.stage.prev, outcome));
    Facts(s, start, t, f);
    StillInside(init, f, f');
    hide Chain, Inside;
    assert SharedInv(init + [f], s.symbols, s.slots, start);
    FinishShared(init, f, outcome, s, start);
    hide SharedInv, TopOk, Depth, At;
    HolderStep(s, s', t, start, init, f');
  }

  lemma FinishShared(init: seq<Frame>, f: Frame, outcome: Outcome, s: State, start: State)
    requires f.stage.Running? && SharedInv(init + [f], s.symbols, s.slots, start)
    requires TopOk(init, f, start.symbols, start.counter, s.counter)
    ensures var f' := f.(stage := Finished(f.stage.id, f.stage.prev, outcome));
            && SharedInv(init + [f'], s.symbols, s.slots, start)
            && TopOk(init, f', start.symbols, start.counter, s.counter)
            && Depth(init + [f']) == Depth(init + [f])
  {
    hide Depth, Innermost, SlotIds, Ids;
    Unfold(init, f);
    Unfold(init, f.(stage := Finished(f.stage.id, f.stage.prev, outcome)));
  }

  lemma StillInside(init: seq<Frame>, f: Frame, f': Frame)
    requires !f.stage.Called? && !f.stage.Waiting? && !f'.stage.Called? && !f'.stage.Waiting?
    requires init == [] || Inside(init)
    ensures Inside(init + [f]) && Inside(init + [f'])
  {
    if init != [] {
      Unfold(init, f);
      Unfold(init, f');
    }
  }

  lemma CalledKeeps(s: State, start: State, t: Tid, f: Frame)
    requires Invariant(s, start) && At(s, t).stack != [] && f == Last(At(s, t).stack) && f.stage.Called?
    ensures Advanced(s, t, f).Some? && Invariant(Advanced(s, t, f).value, start)
  {
    Facts(s, start, t, f);
    if At(s, t).depth == 0 {
      WaitsFirst(s, start, t, f);
    } else {
      EntersAgain(s, start, t, f);
    }
  }

  /** The thread's outermost run has the lock to wait for. */
  lemma WaitsFirst(s: State, start: State, t: Tid, f: Frame)
    requires Invariant(s, start) && At(s, t).stack != [] && f == Last(At(s, t).stack) && f.stage.Called?
    requires At(s, t).depth == 0
    ensures Advanced(s, t, f).Some? && Invariant(Advanced(s, t, f).value, start)
  {
    hide Chain, Depth, SharedInv, Inside, TopOk, Invariant, Advanced, At;
    var init := Init(At(s, t).stack);
    Facts(s, start, t, f);
    Unfold(init, f);
    OnlyCalled(f);
    WaitStep(s, t, f);
    OnlyWaiting(f.lib, start.symbols, start.counter, s.counter);
    OutsideStep(s, Advanced(s, t, f).value, t, start, [Frame(f.lib, true, Waiting)]);
  }

  lemma WaitStep(s: State, t: Tid, f: Frame)
    requires At(s, t).stack == [f] && f.stage.Called? && At(s, t).depth == 0
    ensures Advanced(s, t, f).Some?
    ensures var s' := Advanced(s, t, f).value;
            && s' == s.(threads := s'.threads) && At(s', t) == Thread(0, [Frame(f.lib, true, Waiting)])
            && forall u: Tid :: u != t ==> At(s', u) == At(s, u)
  {
  }

  lemma OnlyCalled(f: Frame)
    requires f.stage.Called?
    ensures !Inside([] + [f])
  {
  }

  lemma OnlyWaiting(lib: Lib, symbols: map<Lib, Id>, first: Id, counter: Id)
    ensures Chain([Frame(lib, true, Waiting)], symbols, first, counter)
    ensures Depth([Frame(lib, true, Waiting)]) == 0 && !Inside([Frame(lib, true, Waiting)])
  {
  }

  /** A run inside a run has the lock already. */
  lemma EntersAgain(s: State, start: State, t: Tid, f: Frame)
    requires Invariant(s, start) && At(s, t).stack != [] && f == Last(At(s, t).stack) && f.stage.Called?
    requires At(s, t).depth > 0
    ensures Advanced(s, t, f).Some? && Invariant(Advanced(s, t, f).value, start)
  {
    var init, s', f' := Init(At(s, t).stack), Advanced(s, t, f).value, f.(stage := Entered);
    Facts(s, start, t, f);
    Unfold(init, f);
    Unfold(init, f');
    assert init != [];
    HolderStep(s, s', t, start, init, f');
  }

  /** The lock is taken: nobody else was inside, and nothing had been changed. */
  lemma WaitingKeeps(s: State, start: State, t: Tid, f: Frame)
    requires Invariant(s, start) && At(s, t).stack != [] && f == Last(At(s, t).stack) && f.stage.Waiting?
    requires Advanced(s, t, f).Some?
    ensures Invariant(Advanced(s, t, f).value, start)
  {
    var init, s', f' := Init(At(s, t).stack), Advanced(s, t, f).value, f.(stage := Entered);
    Facts(s, start, t, f);
    Unfold(init, f);
    Unfold(init, f');
    assert init == [] && At(s', t).stack == init + [f'];
    OthersKeep(s, s', t, start);
    ChainTop(init, f', start.symbols, start.counter, s.counter);
  }

  /** Stages of the lock's holder between taking the lock and being done with shared state. */
  predicate Busy(stage: Stage) {
    !stage.Called? && !stage.Waiting? && !stage.Uncounted?
  }

  /** What the top run's step must preserve, for the step to preserve the invariant. */
  lemma BusyKeeps(s: State, start: State, t: Tid, f: Frame)
    requires Invariant(s, start) && At(s, t).stack != [] && f == Last(At(s, t).stack) && Busy(f.stage) && Fresh(start)
    requires Advanced(s, t, f).Some?
    ensures Invariant(Advanced(s, t, f).value, start)
  {
    var init, s' := Init(At(s, t).stack), Advanced(s, t, f).value;
    Facts(s, start, t, f);
    var f' := Last(At(s', t).stack);
    assert Holder(s) == init + [f];
    BusyTop(s, t, f);
    StillInside(init, f, f');
    hide Chain, TopOk, Depth, Inside, Advanced;
    BusyDepth(s, t, init, f);
    BusyTopOk(s, start, t, init, f);
    BusySymbols(s, start, t, init, f);
    BusySlots(s, start, t, init, f);
    assert SharedInv(init + [f'], s'.symbols, s'.slots, start);
    hide SharedInv;
    HolderStep(s, s', t, start, init, f');
  }

  lemma BusyTop(s: State, t: Tid, f: Frame)
    requires At(s, t).stack != [] && f == Last(At(s, t).stack) && Busy(f.stage) && Advanced(s, t, f).Some?
    ensures var s', init := Advanced(s, t, f).value, Init(At(s, t).stack);
            && At(s', t).stack != [] && At(s', t).stack == init + [Last(At(s', t).stack)]
            && !Last(At(s', t).stack).stage.Called? && !Last(At(s', t).stack).stage.Waiting?
            && s'.lock == s.lock && s.counter <= s'.counter
            && Last(At(s', t).stack).lib == f.lib && Last(At(s', t).stack).outermost == f.outermost
    ensures forall u: Tid :: u != t ==> At(Advanced(s, t, f).value, u) == At(s, u)
  {
  }

  lemma BusyDepth(s: State, t: Tid, init: seq<Frame>, f: Frame)
    requires At(s, t).stack == init + [f] && Busy(f.stage) && Last(At(s, t).stack) == f && Init(At(s, t).stack) == init
    requires Advanced(s, t, f).Some? && At(s, t).depth == Depth(init + [f])
    requires At(Advanced(s, t, f).value, t).stack == init + [Last(At(Advanced(s, t, f).value, t).stack)]
    ensures At(Advanced(s, t, f).value, t).depth == Depth(At(Advanced(s, t, f).value, t).stack)
  {
    hide Depth, Innermost, SlotIds, Inside;
    Unfold(init, f);
    Unfold(init, Last(At(Advanced(s, t, f).value, t).stack));
  }

  lemma BusyTopOk(s: State, start: State, t: Tid, init: seq<Frame>, f: Frame)
    requires At(s, t).stack == init + [f] && Busy(f.stage) && Last(At(s, t).stack) == f && Init(At(s, t).stack) == init
    requires Advanced(s, t, f).Some? && SharedInv(init + [f], s.symbols, s.slots, start) && start.counter <= s.counter
    requires Chain(init, start.symbols, start.counter, s.counter) &&
             TopOk(init, f, start.symbols, start.counter, s.counter)
    requires At(Advanced(s, t, f).value, t).stack == init + [Last(At(Advanced(s, t, f).value, t).stack)]
    ensures var s' := Advanced(s, t, f).value;
            TopOk(init, Last(At(s', t).stack), start.symbols, start.counter, s'.counter)
  {
    hide Ids, Innermost, Chain, Depth, SlotIds;
    ChainIds(init, start.symbols, start.counter, s.counter);
    Unfold(init, f);
  }

  /** What a step does to the run, the symbols and the slots. */
  lemma Effects(s: State, t: Tid, f: Frame)
    requires At(s, t).stack != [] && f == Last(At(s, t).stack) && Busy(f.stage) && Advanced(s, t, f).Some?
    ensures var s' := Advanced(s, t, f).value;
            var f' := Last(At(s', t).stack);
            && At(s', t).stack != [] && f'.lib == f.lib
            && match f.stage
               case HasId(id) => f'.stage == HasSlot(id) && s'.symbols == s.symbols && s'.slots == s.slots + {id}
               case HasSlot(id) => f'.stage.HasOld? && f'.stage.id == id && s'.symbols == s.symbols &&
                   s'.slots == s.slots
               case HasOld(id, prev) =>
                 f'.stage == Running(id, prev) && s'.symbols == s.symbols[f.lib := id] && s'.slots == s.slots
               case Finished(id, prev, outcome) =>
                 if outcome.Panicked?
                 then f'.stage == Restored(id, false) && s'.symbols == s.symbols[f.lib := prev] && s'.slots == s.slots
                 else f'.stage == Drained(id, prev, outcome) && s'.symbols == s.symbols && s'.slots == s.slots - {id}
               case Drained(id, prev, _) =>
                 f'.stage == Restored(id, true) && s'.symbols == s.symbols[f.lib := prev] && s'.slots == s.slots
               case Restored(id, _) => f'.stage == Cleared && s'.symbols == s.symbols && s'.slots == s.slots - {id}
               case _ => !Traced(f'.stage) && !WithSlot(f'.stage) && s'.symbols == s.symbols && s'.slots == s.slots
  {
  }

  lemma BusySymbols(s: State, start: State, t: Tid, init: seq<Frame>, f: Frame)
    requires At(s, t).stack == init + [f] && Busy(f.stage) && Last(At(s, t).stack) == f && Init(At(s, t).stack) == init
    requires Advanced(s, t, f).Some? && Fresh(start) && SharedInv(init + [f], s.symbols, s.slots, start)
    requires Chain(init, start.symbols, start.counter, s.counter) &&
             TopOk(init, f, start.symbols, start.counter, s.counter)
    requires At(Advanced(s, t, f).value, t).stack == init + [Last(At(Advanced(s, t, f).value, t).stack)]
    ensures var s' := Advanced(s, t, f).value;
            && s'.symbols.Keys == start.symbols.Keys
            && forall lib :: lib in s'.symbols ==>
                 s'.symbols[lib] == Innermost(At(s', t).stack, lib, start.symbols[lib])
  {
    hide Chain, Depth, Ids, SlotIds, Innermost, Inside;
    var s' := Advanced(s, t, f).value;
    var f' := Last(At(s', t).stack);
    Unfold(init, f);
    Unfold(init, f');
    Effects(s, t, f);
    hide Advanced, At, ToStage, WithSlot, WithId;
    forall lib | lib in s'.symbols
      ensures s'.symbols[lib] == Innermost(init + [f'], lib, start.symbols[lib])
    {
      assert lib in s.symbols && s.symbols[lib] == Innermost(init + [f], lib, start.symbols[lib]);
    }
  }

  lemma BusySlots(s: State, start: State, t: Tid, init: seq<Frame>, f: Frame)
    requires At(s, t).stack == init + [f] && Busy(f.stage) && Last(At(s, t).stack) == f && Init(At(s, t).stack) == init
    requires Advanced(s, t, f).Some? && Fresh(start) && SharedInv(init + [f], s.symbols, s.slots, start)
    requires Chain(init, start.symbols, start.counter, s.counter) &&
             TopOk(init, f, start.symbols, start.counter, s.counter)
    requires At(Advanced(s, t, f).value, t).stack == init + [Last(At(Advanced(s, t, f).value, t).stack)]
    ensures var s' := Advanced(s, t, f).value; s'.slots == start.slots + SlotIds(At(s', t).stack)
  {
    hide Chain, Depth, Ids, SlotIds, Innermost, Inside;
    var s' := Advanced(s, t, f).value;
    var f' := Last(At(s', t).stack);
    ChainIds(init, start.symbols, start.counter, s.counter);
    Unfold(init, f);
    Unfold(init, f');
    Effects(s, t, f);
    hide Advanced, At, ToStage;
    assert s.slots == start.slots + SlotIds(init + [f]);
  }

  /** The slots at the start have ids that are never given out again. */
  ghost predicate Fresh(start: State) {
    forall id :: id in start.slots ==> id < start.counter
  }

  lemma UncountedKeeps(s: State, start: State, t: Tid, f: Frame)
    requires Invariant(s, start) && At(s, t).stack != [] && f == Last(At(s, t).stack) && f.stage.Uncounted?
    ensures Advanced(s, t, f).Some? && Invariant(Advanced(s, t, f).value, start)
  {
    hide Ids, Innermost, SlotIds;
    var init, s' := Init(At(s, t).stack), Advanced(s, t, f).value;
    Facts(s, start, t, f);
    Unfold(init, f);
    hide Depth, TopOk;
    OthersKeep(s, s', t, start);
  }

  lemma StepKeeps(s: State, start: State, t: Tid, a: Action)
    requires Invariant(s, start) && Fresh(start) && Step(s, t, a).Some?
    ensures Invariant(Step(s, t, a).value, start)
  {
    match a {
      case Call(lib) =>
        var s', stack, f := Step(s, t, a).value, At(s, t).stack, Frame(lib, false, Called);
        assert ThreadInv(At(s, t), s.lock == Some(t), start.symbols, start.counter, s.counter);
        Unfold(stack, f);
        ChainTop(stack, f, start.symbols, start.counter, s.counter);
        hide Chain, Depth, Ids, SlotIds, Innermost;
        if stack == [] {
          OutsideStep(s, s', t, start, stack + [f]);
        } else {
          NestedInside(stack, start.symbols, start.counter, s.counter);
          HolderStep(s, s', t, start, stack, f);
        }
      case Finish(outcome) => FinishKeeps(s, start, t, outcome);
      case Advance =>
        hide Invariant, Advanced;
        var f := Last(At(s, t).stack);
        if f.stage.Called? {
          CalledKeeps(s, start, t, f);
        } else if f.stage.Waiting? {
          WaitingKeeps(s, start, t, f);
        } else if f.stage.Uncounted? {
          UncountedKeeps(s, start, t, f);
        } else {
          BusyKeeps(s, start, t, f);
        }
    }
  }

  // ----- all runs -----

  /** The state after any interleaving of steps of any threads. */
  function Run(s: State, steps: seq<(Tid, Action)>): Option<State> {
    if steps == [] then Some(s)
    else
      var before := Run(s, steps[..|steps| - 1]);
      if before.None? then None else Step(before.value, steps[|steps| - 1].0, steps[|steps| - 1].1)
  }

  lemma {:induction false} RunKeeps(start: State, steps: seq<(Tid, Action)>)
    requires Start(start) && Run(start, steps).Some?
    ensures Invariant(Run(start, steps).value, start)
  {
    hide Invariant, Step;
    if steps == [] {
      StartInvariant(start);
    } else {
      RunKeeps(start, steps[..|steps| - 1]);
      StepKeeps(Run(start, steps[..|steps| - 1]).value, start, steps[|steps| - 1].0, steps[|steps| - 1].1);
    }
  }

  /** In every run at most one thread is inside, and it is the one that has the lock. */
  lemma OneInside(start: State, steps: seq<(Tid, Action)>, t: Tid, u: Tid)
    requires Start(start) && Run(start, steps).Some?
    requires var s := Run(start, steps).value; Inside(At(s, t).stack) && Inside(At(s, u).stack)
    ensures t == u && Run(start, steps).value.lock == Some(t)
  {
    RunKeeps(start, steps);
    var s := Run(start, steps).value;
    hide Run, Chain, Depth;
    assert ThreadInv(At(s, t), s.lock == Some(t), start.symbols, start.counter, s.counter);
    assert ThreadInv(At(s, u), s.lock == Some(u), start.symbols, start.counter, s.counter);
  }

  /** A thread that waits for the lock does not have it, so it never waits for itself. */
  lemma NeverWaitsForItself(start: State, steps: seq<(Tid, Action)>, t: Tid)
    requires Start(start) && Run(start, steps).Some?
    requires var stack := At(Run(start, steps).value, t).stack; stack != [] && Last(stack).stage.Waiting?
    ensures Run(start, steps).value.lock != Some(t)
  {
    RunKeeps(start, steps);
    var s := Run(start, steps).value;
    hide Run, Depth;
    assert ThreadInv(At(s, t), s.lock == Some(t), start.symbols, start.counter, s.counter);
  }

  /** Nobody is stuck: a waiting thread can go on if the lock is free, and otherwise its holder, whose
      code may always finish, can take a step. */
  lemma SomebodyCanStep(start: State, steps: seq<(Tid, Action)>, t: Tid)
    requires Start(start) && Run(start, steps).Some? && At(Run(start, steps).value, t).stack != []
    ensures var s := Run(start, steps).value;
            var u := if s.lock.Some? then s.lock.value else t;
            Step(s, u, Advance).Some? || Step(s, u, Finish(Succeeded)).Some?
  {
    RunKeeps(start, steps);
    var s := Run(start, steps).value;
    var u := if s.lock.Some? then s.lock.value else t;
    hide Run, Invariant, Step;
    HasRun(s, start, u, t);
    NotStuck(s, start, u);
  }

  lemma NotStuck(s: State, start: State, u: Tid)
    requires Invariant(s, start) && At(s, u).stack != [] && (s.lock.Some? ==> s.lock == Some(u))
    ensures Step(s, u, Advance).Some? || Step(s, u, Finish(Succeeded)).Some?
  {
    hide Step, Chain, Depth, Innermost, Ids, SlotIds;
    var f := Last(At(s, u).stack);
    Facts(s, start, u, f);
    assert f.stage.HasSlot? ==> f.lib in s.symbols;
    assert f.stage.Waiting? ==> s.lock.None?;
    CanStep(s, u, f);
  }

  lemma CanStep(s: State, u: Tid, f: Frame)
    requires At(s, u).stack != [] && f == Last(At(s, u).stack)
    requires (f.stage.Waiting? ==> s.lock.None?) && (f.stage.HasSlot? ==> f.lib in s.symbols)
    ensures Step(s, u, Advance).Some? || Step(s, u, Finish(Succeeded)).Some?
  {
    hide ToStage, Put;
  }

  lemma HasRun(s: State, start: State, u: Tid, t: Tid)
    requires Invariant(s, start) && At(s, t).stack != [] && u == if s.lock.Some? then s.lock.value else t
    ensures At(s, u).stack != []
  {
    assert ThreadInv(At(s, u), s.lock == Some(u), start.symbols, start.counter, s.counter);
  }

  /** While a library's code runs, its symbol holds the id of its innermost run, whose slot is there; and
      so do the symbols of the libraries further out. */
  lemma SymbolsFollowTheStack(start: State, steps: seq<(Tid, Action)>, t: Tid)
    requires Start(start) && Run(start, steps).Some? && Inside(At(Run(start, steps).value, t).stack)
    ensures var s := Run(start, steps).value;
            && s.symbols.Keys == start.symbols.Keys
            && (forall lib :: lib in s.symbols ==>
                  s.symbols[lib] == Innermost(At(s, t).stack, lib, start.symbols[lib]))
            && s.slots == start.slots + SlotIds(At(s, t).stack)
    ensures var s := Run(start, steps).value;
            var f := Last(At(s, t).stack);
            f.stage.Running? ==> f.lib in s.symbols && s.symbols[f.lib] == f.stage.id && f.stage.id in s.slots
  {
    RunKeeps(start, steps);
    var s := Run(start, steps).value;
    hide Run, Depth;
    assert ThreadInv(At(s, t), s.lock == Some(t), start.symbols, start.counter, s.counter);
    assert Holder(s) == At(s, t).stack;
  }

  /** Whenever nobody is inside, be it after runs that succeeded, failed, panicked or found no symbol, the
      symbols and the slots are as they were at the start. */
  lemma EverythingRestored(start: State, steps: seq<(Tid, Action)>)
    requires Start(start) && Run(start, steps).Some?
    requires forall t: Tid :: !Inside(At(Run(start, steps).value, t).stack)
    ensures var s := Run(start, steps).value;
            s.lock == None && s.symbols == start.symbols && s.slots == start.slots
  {
    RunKeeps(start, steps);
    var s := Run(start, steps).value;
    hide Run, Depth, Chain;
    assert s.symbols.Keys == start.symbols.Keys;
    HolderInside(s, start);
    assert Holder(s) == [];
    assert s.symbols == start.symbols;
  }

  lemma HolderInside(s: State, start: State)
    requires Invariant(s, start)
    ensures s.lock.Some? ==> Inside(At(s, s.lock.value).stack)
  {
    hide Chain, Depth;
    if s.lock.Some? {
      assert ThreadInv(At(s, s.lock.value), true, start.symbols, start.counter, s.counter);
    }
  }

  /** A thread's depth is the number of its runs that entered and have not left. */
  lemma DepthCounts(start: State, steps: seq<(Tid, Action)>, t: Tid)
    requires Start(start) && Run(start, steps).Some?
    ensures var th := At(Run(start, steps).value, t); th.depth == Depth(th.stack) && (th.stack == [] ==> th.depth == 0)
  {
    RunKeeps(start, steps);
    var s := Run(start, steps).value;
    hide Run, Chain;
    assert ThreadInv(At(s, t), s.lock == Some(t), start.symbols, start.counter, s.counter);
  }

  // ----- what a run does -----

  /** A thread going on a number of times. */
  function Ahead(s: State, t: Tid, n: nat): Option<State> {
    if n == 0 then Some(s)
    else
      var before := Ahead(s, t, n - 1);
      if before.None? then None else Step(before.value, t, Advance)
  }

  /** A state in which a thread has the lock and one run, and all other threads are as in `base`. */
  function One(base: State, t: Tid, depth: nat, lib: Lib, stage: Stage, symbols: map<Lib, Id>, slots: set<Id>,
               counter: Id): State {
    State(Some(t), base.threads[t := Thread(depth, [Frame(lib, true, stage)])], symbols, slots, counter)
  }

  lemma OneMoves(base: State, t: Tid, depth: nat, lib: Lib, stage: Stage, symbols: map<Lib, Id>, slots: set<Id>,
                 counter: Id, next: Stage)
    ensures var s := One(base, t, depth, lib, stage, symbols, slots, counter);
            && At(s, t) == Thread(depth, [Frame(lib, true, stage)]) && Last(At(s, t).stack).stage == stage
            && ToStage(s, t, next) == One(base, t, depth, lib, next, symbols, slots, counter)
  {
    var s := One(base, t, depth, lib, stage, symbols, slots, counter);
    assert Init([Frame(lib, true, stage)]) + [Frame(lib, true, next)] == [Frame(lib, true, next)];
    assert ToStage(s, t, next).threads == One(base, t, depth, lib, next, symbols, slots, counter).threads;
  }

  lemma DepthMoves(base: State, t: Tid, depth: nat, lib: Lib, stage: Stage, symbols: map<Lib, Id>, slots: set<Id>,
                   counter: Id, depth': nat)
    ensures var s := One(base, t, depth, lib, stage, symbols, slots, counter);
            Put(s, t, s.threads[t].(depth := depth')) == One(base, t, depth', lib, stage, symbols, slots, counter)
  {
    var s := One(base, t, depth, lib, stage, symbols, slots, counter);
    assert Put(s, t, s.threads[t].(depth := depth')).threads ==
           One(base, t, depth', lib, stage, symbols, slots, counter).threads;
  }

  /** Entering: the depth is counted, and the id taken is the next one. */
  lemma Begins(base: State, t: Tid, lib: Lib, symbols: map<Lib, Id>, slots: set<Id>, c: Id)
    requires lib in symbols
    ensures Step(One(base, t, 0, lib, Entered, symbols, slots, c), t, Advance)
            == Some(One(base, t, 1, lib, Counted, symbols, slots, c))
    ensures Step(One(base, t, 1, lib, Counted, symbols, slots, c), t, Advance)
            == Some(One(base, t, 1, lib, HasId(c), symbols, slots, c + 1))
  {
    hide ToStage, Put;
    OneMoves(base, t, 0, lib, Entered, symbols, slots, c, Counted);
    DepthMoves(base, t, 0, lib, Counted, symbols, slots, c, 1);
    OneMoves(base, t, 1, lib, Counted, symbols, slots, c, HasId(c));
  }

  /** The slot is there before the symbol points at the id. */
  lemma Traces(base: State, t: Tid, lib: Lib, symbols: map<Lib, Id>, slots: set<Id>, c: Id, id: Id)
    requires lib in symbols
    ensures Step(One(base, t, 1, lib, HasId(id), symbols, slots, c), t, Advance)
            == Some(One(base, t, 1, lib, HasSlot(id), symbols, slots + {id}, c))
    ensures Step(One(base, t, 1, lib, HasSlot(id), symbols, slots, c), t, Advance)
            == Some(One(base, t, 1, lib, HasOld(id, symbols[lib]), symbols, slots, c))
    ensures Step(One(base, t, 1, lib, HasOld(id, symbols[lib]), symbols, slots, c), t, Advance)
            == Some(One(base, t, 1, lib, Running(id, symbols[lib]), symbols[lib := id], slots, c))
  {
    hide ToStage, Put;
    OneMoves(base, t, 1, lib, HasId(id), symbols, slots, c, HasSlot(id));
    OneMoves(base, t, 1, lib, HasSlot(id), symbols, slots, c, HasOld(id, symbols[lib]));
    OneMoves(base, t, 1, lib, HasOld(id, symbols[lib]), symbols, slots, c, Running(id, symbols[lib]));
  }

  /** The symbol is put back; unless the library panicked, its slot has been emptied by then. */
  lemma Ends(base: State, t: Tid, lib: Lib, symbols: map<Lib, Id>, slots: set<Id>, c: Id, id: Id, prev: Id,
             outcome: Outcome)
    ensures Step(One(base, t, 1, lib, Running(id, prev), symbols, slots, c), t, Finish(outcome))
            == Some(One(base, t, 1, lib, Finished(id, prev, outcome), symbols, slots, c))
    ensures Step(One(base, t, 1, lib, Finished(id, prev, outcome), symbols, slots, c), t, Advance)
            == Some(if outcome.Panicked?
                    then One(base, t, 1, lib, Restored(id, false), symbols[lib := prev], slots, c)
                    else One(base, t, 1, lib, Drained(id, prev, outcome), symbols, slots - {id}, c))
    ensures Step(One(base, t, 1, lib, Drained(id, prev, outcome), symbols, slots, c), t, Advance)
            == Some(One(base, t, 1, lib, Restored(id, true), symbols[lib := prev], slots, c))
  {
    hide ToStage, Put;
    OneMoves(base, t, 1, lib, Running(id, prev), symbols, slots, c, Finished(id, prev, outcome));
    OneMoves(base, t, 1, lib, Finished(id, prev, outcome), symbols, slots, c, Restored(id, false));
    OneMoves(base, t, 1, lib, Finished(id, prev, outcome), symbols, slots, c, Drained(id, prev, outcome));
    OneMoves(base, t, 1, lib, Drained(id, prev, outcome), symbols, slots, c, Restored(id, true));
  }

  /** Leaving: the slot is gone, the depth is counted down, and the lock is released. */
  lemma Leaves(base: State, t: Tid, lib: Lib, symbols: map<Lib, Id>, slots: set<Id>, c: Id, id: Id, drained: bool)
    ensures Step(One(base, t, 1, lib, Restored(id, drained), symbols, slots, c), t, Advance)
            == Some(One(base, t, 1, lib, Cleared, symbols, slots - {id}, c))
    ensures Step(One(base, t, 1, lib, Cleared, symbols, slots, c), t, Advance)
            == Some(One(base, t, 0, lib, Uncounted, symbols, slots, c))
    ensures Step(One(base, t, 0, lib, Uncounted, symbols, slots, c), t, Advance)
            == Some(State(None, base.threads[t := Thread(0, [])], symbols, slots, c))
  {
    hide ToStage;
    OneMoves(base, t, 1, lib, Restored(id, drained), symbols, slots, c, Cleared);
    OneMoves(base, t, 1, lib, Cleared, symbols, slots, c, Uncounted);
    DepthMoves(base, t, 1, lib, Uncounted, symbols, slots, c, 0);
    OneMoves(base, t, 0, lib, Uncounted, symbols, slots, c, Uncounted);
    assert Init([Frame(lib, true, Uncounted)]) == [];
    assert base.threads[t := Thread(0, [Frame(lib, true, Uncounted)])][t := Thread(0, [])]
        == base.threads[t := Thread(0, [])];
  }

  /** Without a symbol nothing is traced: no id is used up, and the run leaves at once. */
  lemma Untraced(base: State, t: Tid, lib: Lib, symbols: map<Lib, Id>, slots: set<Id>, c: Id)
    requires lib !in symbols
    ensures Step(One(base, t, 1, lib, Counted, symbols, slots, c), t, Advance)
            == Some(One(base, t, 1, lib, Cleared, symbols, slots, c))
  {
    hide ToStage, Put;
    OneMoves(base, t, 1, lib, Counted, symbols, slots, c, Cleared);
  }

  lemma GetsLock(s: State, t: Tid, lib: Lib)
    requires s.lock == None
    ensures Step(s.(threads := s.threads[t := Thread(0, [Frame(lib, true, Waiting)])]), t, Advance)
            == Some(One(s, t, 0, lib, Entered, s.symbols, s.slots, s.counter))
  {
    hide ToStage;
    var b := s.(threads := s.threads[t := Thread(0, [Frame(lib, true, Waiting)])]);
    OneMoves(s, t, 0, lib, Waiting, s.symbols, s.slots, s.counter, Entered);
    assert At(b, t) == Thread(0, [Frame(lib, true, Waiting)]) && Last(At(b, t).stack).stage == Waiting;
    assert ToStage(b, t, Entered).(lock := Some(t)) == One(s, t, 0, lib, Entered, s.symbols, s.slots, s.counter) by {
      StageOfOther(s, t, lib);
    }
  }

  lemma StageOfOther(s: State, t: Tid, lib: Lib)
    ensures var b := s.(threads := s.threads[t := Thread(0, [Frame(lib, true, Waiting)])]);
            ToStage(b, t, Entered).(lock := Some(t)) == One(s, t, 0, lib, Entered, s.symbols, s.slots, s.counter)
  {
    var waiting, entered := Frame(lib, true, Waiting), Frame(lib, true, Entered);
    assert Init([waiting]) + [entered] == [entered];
    assert s.threads[t := Thread(0, [waiting])][t := Thread(0, [entered])] == s.threads[t := Thread(0, [entered])];
  }

  lemma Calls(s: State, t: Tid, lib: Lib)
    requires At(s, t) == Thread(0, [])
    ensures Step(s, t, Call(lib)) == Some(s.(threads := s.threads[t := Thread(0, [Frame(lib, false, Called)])]))
  {
    hide Advanced;
    assert [] + [Frame(lib, false, Called)] == [Frame(lib, false, Called)];
  }

  lemma Waits(s: State, t: Tid, lib: Lib)
    ensures Step(s.(threads := s.threads[t := Thread(0, [Frame(lib, false, Called)])]), t, Advance)
            == Some(s.(threads := s.threads[t := Thread(0, [Frame(lib, true, Waiting)])]))
  {
    var called, waiting := Frame(lib, false, Called), Frame(lib, true, Waiting);
    assert Init([called]) + [waiting] == [waiting] && Last([called]) == called;
    assert s.threads[t := Thread(0, [called])][t := Thread(0, [waiting])] == s.threads[t := Thread(0, [waiting])];
  }

  lemma TakesLock(s: State, t: Tid, lib: Lib)
    requires s.lock == None && At(s, t) == Thread(0, [])
    ensures Step(s, t, Call(lib)).Some?
    ensures Ahead(Step(s, t, Call(lib)).value, t, 2)
            == Some(One(s, t, 0, lib, Entered, s.symbols, s.slots, s.counter))
  {
    hide Step, Ahead;
    Calls(s, t, lib);
    Waits(s, t, lib);
    GetsLock(s, t, lib);
    var a := Step(s, t, Call(lib)).value;
    AheadNone(a, t);
    AheadMore(a, t, 0);
    AheadMore(a, t, 1);
  }

  lemma AheadMore(s: State, t: Tid, n: nat)
    requires Ahead(s, t, n).Some?
    ensures Ahead(s, t, n + 1) == Step(Ahead(s, t, n).value, t, Advance)
  {
  }

  lemma AheadNone(s: State, t: Tid)
    ensures Ahead(s, t, 0) == Some(s)
  {
  }

  /** A run that nobody disturbs takes the lock, the next id and a slot for it, and points the library's
      symbol at its id before the library's code runs. */
  lemma RunBegins(s: State, t: Tid, lib: Lib)
    requires s.lock == None && At(s, t) == Thread(0, []) && lib in s.symbols
    ensures Step(s, t, Call(lib)).Some?
    ensures var id, prev := s.counter, s.symbols[lib];
            Ahead(Step(s, t, Call(lib)).value, t, 7) ==
            Some(One(s, t, 1, lib, Running(id, prev), s.symbols[lib := id], s.slots + {id}, id + 1))
  {
    hide *;
    TakesLock(s, t, lib);
    var a, id := Step(s, t, Call(lib)).value, s.counter;
    var slots := s.slots + {id};
    Begins(s, t, lib, s.symbols, s.slots, id);
    Traces(s, t, lib, s.symbols, s.slots, id + 1, id);
    Traces(s, t, lib, s.symbols, slots, id + 1, id);
    AheadMore(a, t, 2);
    assert Ahead(a, t, 3) == Some(One(s, t, 1, lib, Counted, s.symbols, s.slots, id));
    AheadMore(a, t, 3);
    assert Ahead(a, t, 4) == Some(One(s, t, 1, lib, HasId(id), s.symbols, s.slots, id + 1));
    AheadMore(a, t, 4);
    assert Ahead(a, t, 5) == Some(One(s, t, 1, lib, HasSlot(id), s.symbols, slots, id + 1));
    AheadMore(a, t, 5);
    AheadMore(a, t, 6);
  }

  /** When the library's code has come to an end, the symbol and the slots are as they were before, and the
      lock is free; only the id is used up. Without a panic the slot is emptied first. */
  lemma RunEnds(s: State, t: Tid, lib: Lib, outcome: Outcome)
    requires lib in s.symbols && s.counter !in s.slots
    ensures var id, prev := s.counter, s.symbols[lib];
            var running := One(s, t, 1, lib, Running(id, prev), s.symbols[lib := id], s.slots + {id}, id + 1);
            var r := Step(running, t, Finish(outcome));
            && r.Some?
            && (!outcome.Panicked? ==>
                  Ahead(r.value, t, 1) ==
                  Some(One(s, t, 1, lib, Drained(id, prev, outcome), s.symbols[lib := id], s.slots, id + 1)))
            && Ahead(r.value, t, if outcome.Panicked? then 4 else 5) ==
               Some(State(None, s.threads[t := Thread(0, [])], s.symbols, s.slots, id + 1))
  {
    hide Step, Ahead, One;
    var id, prev := s.counter, s.symbols[lib];
    var symbols, slots, c := s.symbols[lib := id], s.slots + {id}, id + 1;
    assert symbols[lib := prev] == s.symbols && slots - {id} == s.slots && s.slots - {id} == s.slots;
    Ends(s, t, lib, symbols, slots, c, id, prev, outcome);
    Ends(s, t, lib, symbols, s.slots, c, id, prev, outcome);
    Leaves(s, t, lib, s.symbols, slots, c, id, false);
    Leaves(s, t, lib, s.symbols, s.slots, c, id, true);
    var a := Step(One(s, t, 1, lib, Running(id, prev), symbols, slots, c), t, Finish(outcome)).value;
    AheadNone(a, t);
    AheadMore(a, t, 0);
    AheadMore(a, t, 1);
    AheadMore(a, t, 2);
    AheadMore(a, t, 3);
    if !outcome.Panicked? {
      AheadMore(a, t, 4);
    }
  }

}
