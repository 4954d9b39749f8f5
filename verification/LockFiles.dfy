/** Compiling to a path that other processes compile to and load from at the same time. One step per
    file operation. */
module LockFiles {
  import opened Options

  type Pid = nat
  type Serial = nat

  /** What a file holds: `Partial` while it is being written. */
  datatype Content = Empty | Partial | Whole

  /** A lock file, told apart from others of the same name by when it was created. */
  datatype LockFile = LockFile(serial: Serial, content: Content)

  /** How far a process has come. From `Locked` to `JsonWritten`, and while it gives up, it has a guard
      that names the lock file. */
  datatype Stage =
    | Idle
    | Locked(serial: Serial)
    | Linking(serial: Serial)
    | Linked(serial: Serial)
    | WritingJson(serial: Serial)
    | JsonWritten(serial: Serial)
    | GivingUp(serial: Serial)
    | Loading
    | Opened
    | Loaded
    | LoadFailed(jsonMissing: bool)
    | Dead

  datatype State = State(lock: Option<LockFile>, json: Content, lib: Option<Content>, stages: map<Pid, Stage>,
                         next: Serial)

  /** Beginning to compile or to load, going on, meeting an error, or being killed. */
  datatype Action = Compile | Load | Advance | Fail | Kill

  function At(s: State, p: Pid): Stage {
    if p in s.stages then s.stages[p] else Idle
  }

  function To(s: State, p: Pid, stage: Stage): State {
    s.(stages := s.stages[p := stage])
  }

  predicate AtRest(stage: Stage) {
    stage.Idle? || stage.Loaded? || stage.LoadFailed?
  }

  function Step(s: State, p: Pid, a: Action): Option<State> {
    var stage := At(s, p);
    match a
    case Compile =>
      if !AtRest(stage) then None
      else if s.lock.Some? then Some(To(s, p, Idle))
      else Some(To(s, p, Locked(s.next)).(lock := Some(LockFile(s.next, Empty)), next := s.next + 1))
    case Load => if AtRest(stage) then Some(To(s, p, Loading)) else None
    case Advance => Advanced(s, p, stage)
    case Fail => if HasGuard(stage) && !stage.GivingUp? then Some(To(s, p, GivingUp(stage.serial))) else None
    case Kill => if stage.Dead? then None else Some(To(s, p, Dead))
  }

  /** The linker writes into the lock file, whichever that is; the rename and the removal are also of
      whatever file has the lock's name. */
  function Advanced(s: State, p: Pid, stage: Stage): Option<State> {
    match stage
    case Locked(n) =>
      Some(To(s, p, Linking(n)).(lock := if s.lock.Some? then Some(s.lock.value.(content := Partial)) else None))
    case Linking(n) =>
      Some(To(s, p, Linked(n)).(lock := if s.lock.Some? then Some(s.lock.value.(content := Whole)) else None))
    case Linked(n) => Some(To(s, p, WritingJson(n)).(json := Partial))
    case WritingJson(n) => Some(To(s, p, JsonWritten(n)).(json := Whole))
    case JsonWritten(n) =>
      if s.lock.Some? then Some(To(s, p, Loading).(lib := Some(s.lock.value.content), lock := None))
      else Some(To(s, p, GivingUp(n)))
    case GivingUp(_) => Some(To(s, p, Idle).(lock := None))
    case Loading => Some(To(s, p, if s.lib.Some? then Opened else LoadFailed(false)))
    case Opened => Some(To(s, p, if s.json == Whole then Loaded else LoadFailed(s.json == Empty)))
    case _ => None
  }

  /** The process will rename or remove the lock file before it does anything else. */
  predicate HasGuard(stage: Stage) {
    stage.Locked? || stage.Linking? || stage.Linked? || stage.WritingJson? || stage.JsonWritten? || stage.GivingUp?
  }

  predicate HasLinked(stage: Stage) {
    stage.Linked? || stage.WritingJson? || stage.JsonWritten?
  }

  /** What one process may rely on. */
  ghost predicate Relies(s: State, stage: Stage) {
    && (HasGuard(stage) ==> s.lock.Some? && s.lock.value.serial == stage.serial)
    && (HasLinked(stage) ==> s.lock.Some? && s.lock.value.content == Whole)
    && (stage.JsonWritten? ==> s.json == Whole)
    && (stage.Opened? ==> s.lib.Some?)
    && (stage.LoadFailed? ==> !stage.jsonMissing)
  }

  ghost predicate Invariant(s: State) {
    && (forall p: Pid :: Relies(s, At(s, p)))
    && (forall p: Pid, q: Pid :: HasGuard(At(s, p)) && HasGuard(At(s, q)) ==> p == q)
    && (s.lib.Some? ==> s.lib.value == Whole && s.json != Empty)
  }

  /** Nothing is there yet, or something was published before; nobody is at work. */
  ghost predicate Start(s: State) {
    s.lock == None && s.stages == map[] && (s.lib.Some? ==> s.lib.value == Whole && s.json != Empty)
  }

  lemma StepRelies(s: State, p: Pid, a: Action, q: Pid)
    requires Invariant(s) && Step(s, p, a).Some?
    ensures Relies(Step(s, p, a).value, At(Step(s, p, a).value, q))
  {
    assert Relies(s, At(s, p)) && Relies(s, At(s, q));
  }

  lemma StepExcludes(s: State, p: Pid, a: Action, q: Pid, r: Pid)
    requires Invariant(s) && Step(s, p, a).Some?
    requires HasGuard(At(Step(s, p, a).value, q)) && HasGuard(At(Step(s, p, a).value, r))
    ensures q == r
  {
    hide Step, HasGuard;
    GuardBefore(s, p, a, q);
    GuardBefore(s, p, a, r);
    assert Relies(s, At(s, q)) && Relies(s, At(s, r));
  }

  /** A process has a guard from before, or is the one that has just found no lock. */
  lemma GuardBefore(s: State, p: Pid, a: Action, q: Pid)
    requires Step(s, p, a).Some? && HasGuard(At(Step(s, p, a).value, q))
    ensures HasGuard(At(s, q)) || (q == p && s.lock.None?)
  {
  }

  lemma StepPublishes(s: State, p: Pid, a: Action)
    requires Invariant(s) && Step(s, p, a).Some?
    ensures var s' := Step(s, p, a).value; s'.lib.Some? ==> s'.lib.value == Whole && s'.json != Empty
  {
    assert Relies(s, At(s, p));
  }

  lemma StepKeeps(s: State, p: Pid, a: Action)
    requires Invariant(s) && Step(s, p, a).Some?
    ensures Invariant(Step(s, p, a).value)
  {
    hide Step, Relies, HasGuard;
    var s' := Step(s, p, a).value;
    forall q: Pid ensures Relies(s', At(s', q)) {
      StepRelies(s, p, a, q);
    }
    forall q: Pid, r: Pid | HasGuard(At(s', q)) && HasGuard(At(s', r)) ensures q == r {
      StepExcludes(s, p, a, q, r);
    }
    StepPublishes(s, p, a);
  }

  function Run(s: State, steps: seq<(Pid, Action)>): Option<State> {
    if steps == [] then Some(s)
    else
      var before := Run(s, steps[..|steps| - 1]);
      if before.None? then None else Step(before.value, steps[|steps| - 1].0, steps[|steps| - 1].1)
  }

  lemma {:induction false} RunKeeps(start: State, steps: seq<(Pid, Action)>)
    requires Start(start) && Run(start, steps).Some?
    ensures Invariant(Run(start, steps).value)
  {
    hide Step;
    if steps != [] {
      hide Invariant;
      RunKeeps(start, steps[..|steps| - 1]);
      StepKeeps(Run(start, steps[..|steps| - 1]).value, steps[|steps| - 1].0, steps[|steps| - 1].1);
    }
  }

  /** At most one process is compiling to the path. */
  lemma OneHolder(start: State, steps: seq<(Pid, Action)>, p: Pid, q: Pid)
    requires Start(start) && Run(start, steps).Some?
    requires var s := Run(start, steps).value; HasGuard(At(s, p)) && HasGuard(At(s, q))
    ensures p == q
  {
    hide Run;
    RunKeeps(start, steps);
  }

  /** Whatever a process renames, removes or links into is the lock file that it created itself. */
  lemma OnlyItsOwnLock(start: State, steps: seq<(Pid, Action)>, p: Pid)
    requires Start(start) && Run(start, steps).Some? && HasGuard(At(Run(start, steps).value, p))
    ensures var s := Run(start, steps).value; s.lock.Some? && s.lock.value.serial == At(s, p).serial
  {
    hide Run;
    RunKeeps(start, steps);
    assert Relies(Run(start, steps).value, At(Run(start, steps).value, p));
  }

  /** A step that takes the lock file away is by the process that created it. */
  lemma OthersKeepTheLock(start: State, steps: seq<(Pid, Action)>, p: Pid, a: Action)
    requires Start(start) && Run(start, steps).Some?
    requires var s := Run(start, steps).value;
             && s.lock.Some? && Step(s, p, a).Some?
             && (Step(s, p, a).value.lock.None? || Step(s, p, a).value.lock.value.serial != s.lock.value.serial)
    ensures var s := Run(start, steps).value; HasGuard(At(s, p)) && At(s, p).serial == s.lock.value.serial
  {
    hide Run;
    RunKeeps(start, steps);
    assert Relies(Run(start, steps).value, At(Run(start, steps).value, p));
  }

  /** A library that is visible is whole, and its json is there: a loader, which opens the library first,
      never finds the json missing. */
  lemma LoadersFindTheJson(start: State, steps: seq<(Pid, Action)>, p: Pid)
    requires Start(start) && Run(start, steps).Some?
    ensures var s := Run(start, steps).value;
            && (s.lib.Some? ==> s.lib.value == Whole && s.json != Empty)
            && (At(s, p).Opened? ==> s.lib.Some? && s.json != Empty)
            && (At(s, p).LoadFailed? ==> !At(s, p).jsonMissing)
  {
    hide Run;
    RunKeeps(start, steps);
    assert Relies(Run(start, steps).value, At(Run(start, steps).value, p));
  }

  // ----- what gets done -----

  /** A compilation that reaches the rename publishes a whole library beside its whole json. */
  lemma Publishes(start: State, steps: seq<(Pid, Action)>, p: Pid)
    requires Start(start) && Run(start, steps).Some? && At(Run(start, steps).value, p).JsonWritten?
    ensures var s := Step(Run(start, steps).value, p, Advance);
            && s.Some? && s.value.lib == Some(Whole) && s.value.lock == None && s.value.json == Whole
            && At(s.value, p) == Loading
  {
    hide Run;
    RunKeeps(start, steps);
    assert Relies(Run(start, steps).value, At(Run(start, steps).value, p));
  }

  /** The actions of one process among those of all. */
  function Own(steps: seq<(Pid, Action)>, p: Pid): seq<Action> {
    if steps == [] then []
    else
      var last := steps[|steps| - 1];
      Own(steps[..|steps| - 1], p) + if last.0 == p then [last.1] else []
  }

  /** Nothing but going on, a number of times. */
  function Goes(n: nat): seq<Action> {
    seq(n, _ => Advance)
  }

  /** Where a compilation is after going on a number of times. */
  function Later(serial: Serial, n: nat): Stage {
    match n
    case 0 => Locked(serial)
    case 1 => Linking(serial)
    case 2 => Linked(serial)
    case 3 => WritingJson(serial)
    case _ => JsonWritten(serial)
  }

  /** Other processes change neither a process's stage nor, while it has the lock, the lock. */
  lemma OthersLeave(s: State, p: Pid, q: Pid, a: Action)
    requires Invariant(s) && p != q && Step(s, q, a).Some?
    ensures At(Step(s, q, a).value, p) == At(s, p)
    ensures HasGuard(At(s, p)) ==> Step(s, q, a).value.lock == s.lock
  {
    assert Relies(s, At(s, p)) && Relies(s, At(s, q));
  }

  lemma GoesOn(s: State, p: Pid, serial: Serial, n: nat)
    requires n < 4 && At(s, p) == Later(serial, n)
    ensures Step(s, p, Advance).Some? && At(Step(s, p, Advance).value, p) == Later(serial, n + 1)
  {
  }

  lemma OwnLast(steps: seq<(Pid, Action)>, p: Pid, n: nat)
    requires steps != [] && Own(steps, p) == Goes(n)
    ensures var init, last := steps[..|steps| - 1], steps[|steps| - 1];
            if last.0 == p then n > 0 && last.1 == Advance && Own(init, p) == Goes(n - 1) else Own(init, p) == Goes(n)
  {
    var init, last := steps[..|steps| - 1], steps[|steps| - 1];
    if last.0 == p {
      assert |Own(steps, p)| == n && Own(steps, p)[n - 1] == last.1;
      assert Own(steps, p)[..n - 1] == Own(init, p);
      assert Goes(n)[..n - 1] == Goes(n - 1);
    } else {
      assert Own(steps, p) == Own(init, p);
    }
  }

  /** Whatever the others do meanwhile, a compilation that has its lock gets on. */
  lemma {:induction false} GetsOn(s: State, steps: seq<(Pid, Action)>, p: Pid, serial: Serial, n: nat)
    requires Invariant(s) && At(s, p) == Locked(serial) && Run(s, steps).Some? && Own(steps, p) == Goes(n) && n <= 4
    ensures Invariant(Run(s, steps).value) && At(Run(s, steps).value, p) == Later(serial, n)
  {
    hide Step, Invariant, At;
    if steps == [] {
      assert |Own(steps, p)| == n;
    } else {
      var init, last := steps[..|steps| - 1], steps[|steps| - 1];
      OwnLast(steps, p, n);
      if last.0 == p {
        GetsOn(s, init, p, serial, n - 1);
        GoesOn(Run(s, init).value, p, serial, n - 1);
      } else {
        GetsOn(s, init, p, serial, n);
        OthersLeave(Run(s, init).value, p, last.0, last.1);
      }
      StepKeeps(Run(s, init).value, last.0, last.1);
    }
  }

  /** Compilation without an error publishes: whatever other processes do in between, a process that finds
      no lock file and then goes on five times leaves a whole library, its json, and no lock file. */
  lemma CompilationPublishes(start: State, before: seq<(Pid, Action)>, p: Pid, during: seq<(Pid, Action)>)
    requires Start(start) && Run(start, before).Some?
    requires AtRest(At(Run(start, before).value, p)) && Run(start, before).value.lock == None
    requires var locked := Step(Run(start, before).value, p, Compile);
             locked.Some? ==> Run(locked.value, during).Some? && Own(during, p) == Goes(4)
    ensures var locked := Step(Run(start, before).value, p, Compile);
            && locked.Some? && HasGuard(At(locked.value, p))
            && var s := Step(Run(locked.value, during).value, p, Advance);
               s.Some? && s.value.lib == Some(Whole) && s.value.lock == None && s.value.json == Whole
  {
    hide Run, Own;
    RunKeeps(start, before);
    var s := Run(start, before).value;
    StepKeeps(s, p, Compile);
    var locked := Step(s, p, Compile).value;
    GetsOn(locked, during, p, s.next, 4);
    assert Relies(Run(locked, during).value, At(Run(locked, during).value, p));
  }

  lemma RunThen(s: State, steps: seq<(Pid, Action)>, p: Pid, a: Action)
    requires Run(s, steps).Some?
    ensures Run(s, steps + [(p, a)]) == Step(Run(s, steps).value, p, a)
  {
    assert (steps + [(p, a)])[..|steps|] == steps;
  }

  /** A process that finds the library and a whole json, and is not disturbed, loads it. */
  lemma Loads(s: State, p: Pid)
    requires AtRest(At(s, p)) && s.lib.Some? && s.json == Whole
    ensures var r := Run(s, [(p, Load), (p, Advance), (p, Advance)]); r.Some? && At(r.value, p) == Loaded
  {
    RunThen(s, [], p, Load);
    RunThen(s, [(p, Load)], p, Advance);
    RunThen(s, [(p, Load), (p, Advance)], p, Advance);
    assert [] + [(p, Load)] == [(p, Load)];
    assert [(p, Load)] + [(p, Advance)] == [(p, Load), (p, Advance)];
    assert [(p, Load), (p, Advance)] + [(p, Advance)] == [(p, Load), (p, Advance), (p, Advance)];
  }

  /** A process going on alone. */
  function Alone(p: Pid, n: nat): seq<(Pid, Action)> {
    seq(n, _ => (p, Advance))
  }

  lemma AloneThen(s: State, p: Pid, n: nat)
    requires Run(s, Alone(p, n)).Some?
    ensures Run(s, Alone(p, n + 1)) == Step(Run(s, Alone(p, n)).value, p, Advance)
  {
    RunThen(s, Alone(p, n), p, Advance);
    assert Alone(p, n) + [(p, Advance)] == Alone(p, n + 1);
  }

  /** A process that finds no lock file, and is not disturbed, compiles the library and loads it. */
  lemma CompilesAndLoads(start: State, before: seq<(Pid, Action)>, p: Pid)
    requires Start(start) && Run(start, before).Some?
    requires AtRest(At(Run(start, before).value, p)) && Run(start, before).value.lock == None
    ensures var locked := Step(Run(start, before).value, p, Compile);
            && locked.Some?
            && var r := Run(locked.value, Alone(p, 7));
               && r.Some? && At(r.value, p) == Loaded
               && r.value.lib == Some(Whole) && r.value.json == Whole && r.value.lock == None
  {
    RunKeeps(start, before);
    hide Alone, Run;
    var s := Run(start, before).value;
    var locked := Step(s, p, Compile).value;
    StepKeeps(s, p, Compile);
    FourSteps(locked, p, s.next);
    var c := Run(locked, Alone(p, 4)).value;
    assert Relies(c, At(c, p));
    AloneThen(locked, p, 4);
    AloneThen(locked, p, 5);
    AloneThen(locked, p, 6);
  }

  lemma FourSteps(s: State, p: Pid, serial: Serial)
    requires Invariant(s) && At(s, p) == Locked(serial)
    ensures var r := Run(s, Alone(p, 4)); r.Some? && Invariant(r.value) && At(r.value, p) == JsonWritten(serial)
  {
    hide Run, Alone, Invariant, Step, At;
    NoSteps(s, p);
    OneStep(s, p, serial, 0);
    OneStep(s, p, serial, 1);
    OneStep(s, p, serial, 2);
    OneStep(s, p, serial, 3);
  }

  lemma NoSteps(s: State, p: Pid)
    ensures Run(s, Alone(p, 0)) == Some(s)
  {
  }

  lemma OneStep(s: State, p: Pid, serial: Serial, n: nat)
    requires n < 4 && Run(s, Alone(p, n)).Some? && Invariant(Run(s, Alone(p, n)).value)
    requires At(Run(s, Alone(p, n)).value, p) == Later(serial, n)
    ensures Run(s, Alone(p, n + 1)).Some? && Invariant(Run(s, Alone(p, n + 1)).value)
    ensures At(Run(s, Alone(p, n + 1)).value, p) == Later(serial, n + 1)
  {
    hide Run, Alone, Invariant, Step, At;
    GoesOn(Run(s, Alone(p, n)).value, p, serial, n);
    StepKeeps(Run(s, Alone(p, n)).value, p, Advance);
    AloneThen(s, p, n);
  }

  /** A process that finds a lock file, or meets an error, leaves the library alone; its own lock file goes. */
  lemma GivesUp(start: State, steps: seq<(Pid, Action)>, p: Pid)
    requires Start(start) && Run(start, steps).Some?
    ensures var s := Run(start, steps).value;
            && (AtRest(At(s, p)) && s.lock.Some? ==> Step(s, p, Compile) == Some(To(s, p, Idle)))
            && (HasGuard(At(s, p)) && !At(s, p).GivingUp? ==>
                  Run(s, [(p, Fail), (p, Advance)]) == Some(To(s, p, Idle).(lock := None)))
  {
    hide Run;
    var s := Run(start, steps).value;
    if HasGuard(At(s, p)) && !At(s, p).GivingUp? {
      FailsAndStops(s, p);
    }
  }

  lemma FailsAndStops(s: State, p: Pid)
    requires HasGuard(At(s, p)) && !At(s, p).GivingUp?
    ensures Run(s, [(p, Fail), (p, Advance)]) == Some(To(s, p, Idle).(lock := None))
  {
    RunThen(s, [], p, Fail);
    RunThen(s, [(p, Fail)], p, Advance);
    assert [] + [(p, Fail)] == [(p, Fail)];
    assert [(p, Fail)] + [(p, Advance)] == [(p, Fail), (p, Advance)];
    var a := To(s, p, GivingUp(At(s, p).serial));
    assert To(a, p, Idle).(lock := None) == To(s, p, Idle).(lock := None);
  }
}
