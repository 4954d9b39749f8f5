/** The compiler's first pass: a worklist over the statements that finds the variables of each
    reachable statement, counts its predecessors, and counts the tail calls. */
module StructurePass {
  import opened VarMaps
  import opened Sierra
  import opened Lowering

  datatype Result<T> = Ok(value: T) | Err

  type States = map<StmtIdx, map<VarId, Ty>>

  /** What the program registry has checked before compilation starts. */
  ghost predicate Registered(stmts: seq<Statement>, f: Function) {
    && |f.params| == |f.paramTypes|
    && forall s, b :: 0 <= s < |stmts| && 0 <= b < |Branches(stmts[s])| ==>
         |Branches(stmts[s])[b].types| == |Branches(stmts[s])[b].results|
  }

  ghost predicate Agrees(states: States, other: States) {
    forall t :: t in states ==> t in other && other[t] == states[t]
  }

  /** The branches of the processed statements lead to known ones. */
  ghost predicate Within(stmts: seq<Statement>, visited: set<StmtIdx>, dom: set<StmtIdx>) {
    forall v {:trigger Targets(stmts, v)} :: v in visited && v < |stmts| ==> Targets(stmts, v) <= dom
  }

  lemma TargetsKnown(stmts: seq<Statement>, states: States, s: StmtIdx)
    requires s in states && ConsistentAt(stmts, states, s)
    ensures Targets(stmts, s) <= states.Keys
  {
    forall t | t in Targets(stmts, s) ensures t in states {
      var b :| 0 <= b < |Branches(stmts[s])| && t == Next(s, Branches(stmts[s])[b].target);
      assert ConsistentBranch(stmts, states, s, Rest(states[s], Operands(stmts[s])), Branches(stmts[s])[b]);
    }
  }

  /** The edges to `t` seen when `visited` is done and the first `k` branches of `s` are. */
  ghost function EdgesSoFar(stmts: seq<Statement>, visited: set<StmtIdx>, s: StmtIdx, k: nat, t: StmtIdx)
    : set<(StmtIdx, nat)>
  {
    set v, b | v in visited + {s} && v < |stmts| && 0 <= b < |Branches(stmts[v])| && IsEdge(stmts, v, b, t)
               && (v in visited || b < k) :: (v, b)
  }

  lemma EdgesStart(stmts: seq<Statement>, visited: set<StmtIdx>, s: StmtIdx, t: StmtIdx)
    ensures EdgesSoFar(stmts, visited, s, 0, t) == InEdges(stmts, visited, t)
  {
  }

  lemma EdgesEnd(stmts: seq<Statement>, visited: set<StmtIdx>, s: StmtIdx, t: StmtIdx)
    requires s < |stmts|
    ensures EdgesSoFar(stmts, visited, s, |Branches(stmts[s])|, t) == InEdges(stmts, visited + {s}, t)
  {
    var l, r := EdgesSoFar(stmts, visited, s, |Branches(stmts[s])|, t), InEdges(stmts, visited + {s}, t);
    forall e | e in l ensures e in r { }
    forall e | e in r ensures e in l { }
  }

  lemma EdgesMore(stmts: seq<Statement>, visited: set<StmtIdx>, s: StmtIdx, k: nat, t: StmtIdx, e: (StmtIdx, nat))
    requires s < |stmts| && k < |Branches(stmts[s])| && s !in visited
    ensures e in EdgesSoFar(stmts, visited, s, k + 1, t) <==>
      e in EdgesSoFar(stmts, visited, s, k, t) || (e == (s, k) && IsEdge(stmts, s, k, t))
    ensures (s, k) !in EdgesSoFar(stmts, visited, s, k, t)
  {
  }

  lemma EdgesNext(stmts: seq<Statement>, visited: set<StmtIdx>, s: StmtIdx, k: nat, t: StmtIdx)
    requires s < |stmts| && k < |Branches(stmts[s])| && s !in visited
    ensures var was, now := EdgesSoFar(stmts, visited, s, k, t), EdgesSoFar(stmts, visited, s, k + 1, t);
            |now| == |was| + if IsEdge(stmts, s, k, t) then 1 else 0
  {
    hide EdgesSoFar;
    var was, now := EdgesSoFar(stmts, visited, s, k, t), EdgesSoFar(stmts, visited, s, k + 1, t);
    forall e ensures e in now <==> e in was || (e == (s, k) && IsEdge(stmts, s, k, t)) {
      EdgesMore(stmts, visited, s, k, t, e);
    }
    EdgesMore(stmts, visited, s, k, t, (s, k));
    if IsEdge(stmts, s, k, t) {
      assert now == was + {(s, k)};
    } else {
      assert now == was;
    }
  }

  lemma NoEdges(stmts: seq<Statement>, visited: set<StmtIdx>, t: StmtIdx)
    requires forall v :: v in visited && v < |stmts| ==> t !in Targets(stmts, v)
    ensures InEdges(stmts, visited, t) == {}
  {
  }

  /** A target seen for the first time has no edge yet. */
  lemma NoTargetYet(stmts: seq<Statement>, visited: set<StmtIdx>, s: StmtIdx, k: nat, t: StmtIdx)
    requires s < |stmts| && k <= |Branches(stmts[s])|
    requires forall v :: v in visited && v < |stmts| ==> t !in Targets(stmts, v)
    requires forall j :: 0 <= j < k ==> Next(s, Branches(stmts[s])[j].target) != t
    ensures EdgesSoFar(stmts, visited, s, k, t) == {}
  {
    NoEdges(stmts, visited, t);
  }

  ghost predicate ConsistentBranches(stmts: seq<Statement>, states: States, s: StmtIdx, rest: map<VarId, Ty>)
    requires s < |stmts|
  {
    forall b :: 0 <= b < |Branches(stmts[s])| ==> ConsistentBranch(stmts, states, s, rest, Branches(stmts[s])[b])
  }

  /** The targets of the first `k` branches. */
  function FirstTargets(stmts: seq<Statement>, s: StmtIdx, k: nat): set<StmtIdx>
    requires s < |stmts| && k <= |Branches(stmts[s])|
  {
    set j | 0 <= j < k :: Next(s, Branches(stmts[s])[j].target)
  }

  ghost predicate CountsSoFar(stmts: seq<Statement>, visited: set<StmtIdx>, s: StmtIdx, k: nat,
                              counts: map<StmtIdx, nat>) {
    forall t :: CountsSoFarAt(stmts, visited, s, k, counts, t)
  }

  ghost predicate CountsSoFarAt(stmts: seq<Statement>, visited: set<StmtIdx>, s: StmtIdx, k: nat,
                                counts: map<StmtIdx, nat>, t: StmtIdx)
  {
    t in counts ==> counts[t] == |EdgesSoFar(stmts, visited, s, k, t)|
  }

  lemma CountsStep(stmts: seq<Statement>, visited: set<StmtIdx>, s: StmtIdx, k: nat, counts: map<StmtIdx, nat>,
                   known: set<StmtIdx>)
    requires s < |stmts| && k < |Branches(stmts[s])| && s !in visited
    requires CountsSoFar(stmts, visited, s, k, counts)
    requires counts.Keys == known + FirstTargets(stmts, s, k)
    requires Within(stmts, visited, known)
    ensures var t := Next(s, Branches(stmts[s])[k].target);
            CountsSoFar(stmts, visited, s, k + 1, counts[t := (if t in counts then counts[t] else 0) + 1])
  {
    var t := Next(s, Branches(stmts[s])[k].target);
    hide EdgesSoFar;
    var counts' := counts[t := (if t in counts then counts[t] else 0) + 1];
    forall u | u in counts' ensures CountsSoFarAt(stmts, visited, s, k + 1, counts', u) {
      assert CountsSoFarAt(stmts, visited, s, k, counts, u);
      EdgesNext(stmts, visited, s, k, u);
      if u !in counts {
        forall v | v in visited && v < |stmts| ensures u !in Targets(stmts, v) { assert Targets(stmts, v) <= known; }
        NoTargetYet(stmts, visited, s, k, u);
      }
    }
  }

  type BranchStates = seq<(StmtIdx, map<VarId, Ty>)>

  /** The first branches are consistent and `out` lists the state each gives its target. */
  ghost predicate Taken(stmts: seq<Statement>, s: StmtIdx, rest: map<VarId, Ty>, states: States, out: BranchStates)
    requires s < |stmts| && |out| <= |Branches(stmts[s])|
  {
    forall b :: 0 <= b < |out| ==>
      && ConsistentBranch(stmts, states, s, rest, Branches(stmts[s])[b])
      && out[b].0 == Next(s, Branches(stmts[s])[b].target)
      && out[b].1 == states[out[b].0]
  }

  lemma TakenStep(stmts: seq<Statement>, s: StmtIdx, rest: map<VarId, Ty>, states: States, states': States,
                  out: BranchStates)
    requires s < |stmts| && |out| < |Branches(stmts[s])|
    requires Taken(stmts, s, rest, states, out) && Agrees(states, states')
    requires ConsistentBranch(stmts, states', s, rest, Branches(stmts[s])[|out|])
    ensures var t := Next(s, Branches(stmts[s])[|out|].target);
            Taken(stmts, s, rest, states', out + [(t, states'[t])])
  {
    var t := Next(s, Branches(stmts[s])[|out|].target);
    var out' := out + [(t, states'[t])];
    forall b | 0 <= b < |out'|
      ensures ConsistentBranch(stmts, states', s, rest, Branches(stmts[s])[b])
           && out'[b].0 == Next(s, Branches(stmts[s])[b].target) && out'[b].1 == states'[out'[b].0]
    {
      if b < |out| {
        assert out'[b] == out[b];
        assert ConsistentBranch(stmts, states, s, rest, Branches(stmts[s])[b]);
      }
    }
  }

  /** Whatever consistent states a program has, they extend what has been found. */
  ghost predicate Forced(stmts: seq<Statement>, s: StmtIdx, rest: map<VarId, Ty>, states0: States, states: States)
    requires s < |stmts|
  {
    forall other :: Agrees(states0, other) && ConsistentBranches(stmts, other, s, rest) ==> Agrees(states, other)
  }

  lemma ForcedStep(stmts: seq<Statement>, s: StmtIdx, b: nat, rest: map<VarId, Ty>, states0: States, states: States,
                   other: States)
    requires s < |stmts| && b < |Branches(stmts[s])|
    requires Forced(stmts, s, rest, states0, states)
    requires Agrees(states0, other) && ConsistentBranches(stmts, other, s, rest)
    ensures var br := Branches(stmts[s])[b];
            var t := Next(s, br.target);
            && |br.types| == |br.results| && CanPut(rest, br.results)
            && Agrees(states, other) && t in other && other[t] == Put(rest, br.results, br.types)
  {
    assert ConsistentBranch(stmts, other, s, rest, Branches(stmts[s])[b]);
  }

  /** Putting in the state a branch demands forces nothing more. */
  lemma ForcedNext(stmts: seq<Statement>, s: StmtIdx, b: nat, rest: map<VarId, Ty>, states0: States, states: States)
    requires s < |stmts| && b < |Branches(stmts[s])|
    requires Forced(stmts, s, rest, states0, states)
    requires |Branches(stmts[s])[b].types| == |Branches(stmts[s])[b].results|
    ensures var br := Branches(stmts[s])[b];
            Forced(stmts, s, rest, states0, states[Next(s, br.target) := Put(rest, br.results, br.types)])
  {
    hide ConsistentBranches;
    forall other | Agrees(states0, other) && ConsistentBranches(stmts, other, s, rest)
      ensures var br := Branches(stmts[s])[b];
              Agrees(states[Next(s, br.target) := Put(rest, br.results, br.types)], other)
    {
      ForcedStep(stmts, s, b, rest, states0, states, other);
    }
  }

  /** A branch that cannot be taken rules every consistent assignment out. */
  lemma Refuted(stmts: seq<Statement>, s: StmtIdx, b: nat, rest: map<VarId, Ty>, states0: States, states: States)
    requires s < |stmts| && b < |Branches(stmts[s])|
    requires Forced(stmts, s, rest, states0, states)
    requires var br := Branches(stmts[s])[b];
             var t := Next(s, br.target);
             |br.types| == |br.results| &&
             (!CanPut(rest, br.results) || (t in states && states[t] != Put(rest, br.results, br.types)))
    ensures forall other :: Agrees(states0, other) ==> !ConsistentBranches(stmts, other, s, rest)
  {
    hide ConsistentBranches;
    forall other | Agrees(states0, other) && ConsistentBranches(stmts, other, s, rest) ensures false {
      ForcedStep(stmts, s, b, rest, states0, states, other);
    }
  }

  lemma BranchesStart(stmts: seq<Statement>, s: StmtIdx, rest: map<VarId, Ty>,
                      states: States, counts: map<StmtIdx, nat>, visited: set<StmtIdx>)
    requires s < |stmts|
    requires Counted(stmts, visited, counts)
    ensures CountsSoFar(stmts, visited, s, 0, counts)
    ensures Taken(stmts, s, rest, states, []) && Forced(stmts, s, rest, states, states)
    ensures FirstTargets(stmts, s, 0) == {}
  {
    forall t ensures CountsSoFarAt(stmts, visited, s, 0, counts, t) {
      assert CountsAt(stmts, visited, counts, t);
      EdgesStart(stmts, visited, s, t);
    }
  }

  lemma BranchesEnd(stmts: seq<Statement>, s: StmtIdx, counts: map<StmtIdx, nat>, visited: set<StmtIdx>)
    requires s < |stmts|
    requires CountsSoFar(stmts, visited, s, |Branches(stmts[s])|, counts)
    ensures Counted(stmts, visited + {s}, counts)
    ensures FirstTargets(stmts, s, |Branches(stmts[s])|) == Targets(stmts, s)
  {
    hide EdgesSoFar, InEdges;
    forall t ensures CountsAt(stmts, visited + {s}, counts, t) {
      assert CountsSoFarAt(stmts, visited, s, |Branches(stmts[s])|, counts, t);
      EdgesEnd(stmts, visited, s, t);
    }
  }

  lemma FirstTargetsNext(stmts: seq<Statement>, s: StmtIdx, b: nat)
    requires s < |stmts| && b < |Branches(stmts[s])|
    ensures FirstTargets(stmts, s, b + 1) == FirstTargets(stmts, s, b) + {Next(s, Branches(stmts[s])[b].target)}
  {
  }

  /** What holds after the first branches of a statement have been taken. */
  ghost predicate TakenSoFar(stmts: seq<Statement>, s: StmtIdx, rest: map<VarId, Ty>, states0: States,
                             visited: set<StmtIdx>,
                             states: States, counts: map<StmtIdx, nat>, out: BranchStates)
    requires s < |stmts|
  {
    && |out| <= |Branches(stmts[s])|
    && Agrees(states0, states) && states.Keys == counts.Keys == states0.Keys + FirstTargets(stmts, s, |out|)
    && CountsSoFar(stmts, visited, s, |out|, counts)
    && Taken(stmts, s, rest, states, out)
    && Forced(stmts, s, rest, states0, states)
  }

  lemma BranchStep(stmts: seq<Statement>, s: StmtIdx, rest: map<VarId, Ty>, states0: States, visited: set<StmtIdx>,
                   states: States, counts: map<StmtIdx, nat>, out: BranchStates)
    requires s < |stmts| && s !in visited && TakenSoFar(stmts, s, rest, states0, visited, states, counts, out)
    requires |out| < |Branches(stmts[s])|
    requires Within(stmts, visited, states0.Keys)
    requires var br := Branches(stmts[s])[|out|];
             var t := Next(s, br.target);
             && |br.types| == |br.results| && CanPut(rest, br.results)
             && (t in states ==> states[t] == Put(rest, br.results, br.types))
    ensures var br := Branches(stmts[s])[|out|];
            var t := Next(s, br.target);
            var state := Put(rest, br.results, br.types);
            TakenSoFar(stmts, s, rest, states0, visited,
                       states[t := state], counts[t := (if t in counts then counts[t] else 0) + 1], out + [(t, state)])
  {
    hide EdgesSoFar, InEdges, CountsSoFar, Taken, Forced, Targets, FirstTargets;
    var b := |out|;
    var br := Branches(stmts[s])[b];
    var t := Next(s, br.target);
    var states' := states[t := Put(rest, br.results, br.types)];
    assert ConsistentBranch(stmts, states', s, rest, br);
    hide ConsistentBranch, Put, CanPut;
    ForcedNext(stmts, s, b, rest, states0, states);
    CountsStep(stmts, visited, s, b, counts, states0.Keys);
    TakenStep(stmts, s, rest, states, states', out);
    FirstTargetsNext(stmts, s, b);
  }

  lemma KeysTaken(stmts: seq<Statement>, s: StmtIdx, rest: map<VarId, Ty>, states0: States, visited: set<StmtIdx>,
                  states: States, counts: map<StmtIdx, nat>, out: BranchStates)
    requires s < |stmts| && TakenSoFar(stmts, s, rest, states0, visited, states, counts, out)
    ensures states.Keys == counts.Keys && Forced(stmts, s, rest, states0, states)
  {
  }

  lemma NoneTaken(stmts: seq<Statement>, s: StmtIdx, rest: map<VarId, Ty>,
                  states: States, counts: map<StmtIdx, nat>, visited: set<StmtIdx>)
    requires s < |stmts| && states.Keys == counts.Keys
    requires Counted(stmts, visited, counts)
    ensures TakenSoFar(stmts, s, rest, states, visited, states, counts, [])
  {
    hide CountsSoFar, Taken, Forced, InEdges;
    BranchesStart(stmts, s, rest, states, counts, visited);
  }

  lemma AllTaken(stmts: seq<Statement>, s: StmtIdx, rest: map<VarId, Ty>, states0: States, visited: set<StmtIdx>,
                 states: States, counts: map<StmtIdx, nat>, out: BranchStates)
    requires s < |stmts| && TakenSoFar(stmts, s, rest, states0, visited, states, counts, out)
    requires |out| == |Branches(stmts[s])|
    ensures Agrees(states0, states) && states.Keys == counts.Keys == states0.Keys + Targets(stmts, s)
    ensures Counted(stmts, visited + {s}, counts)
    ensures Taken(stmts, s, rest, states, out) && Forced(stmts, s, rest, states0, states)
  {
    hide CountsSoFar, Taken, Forced, InEdges;
    BranchesEnd(stmts, s, counts, visited);
  }

  /** The branches of one statement: each gives its target a state, which must be the one the
      target already has, and counts as a predecessor of it. */
  method TakeBranches(stmts: seq<Statement>, f: Function, s: StmtIdx, rest: map<VarId, Ty>,
                      states0: States, counts0: map<StmtIdx, nat>, ghost visited: set<StmtIdx>)
    returns (ok: bool, states: States, counts: map<StmtIdx, nat>, branchStates: BranchStates)
    requires Registered(stmts, f) && s < |stmts| && s !in visited
    requires states0.Keys == counts0.Keys
    requires Within(stmts, visited, states0.Keys)
    requires Counted(stmts, visited, counts0)
    ensures ok ==> Agrees(states0, states) && states.Keys == counts.Keys == states0.Keys + Targets(stmts, s)
    ensures ok ==> Counted(stmts, visited + {s}, counts)
    ensures ok ==> |branchStates| == |Branches(stmts[s])| && Taken(stmts, s, rest, states, branchStates)
    ensures ok ==> Forced(stmts, s, rest, states0, states)
    ensures !ok ==> forall other :: Agrees(states0, other) ==> !ConsistentBranches(stmts, other, s, rest)
  {
    hide InEdges, Targets, ConsistentBranches, TakenSoFar, Put, CanPut;
    var branches := Branches(stmts[s]);
    states, counts, branchStates := states0, counts0, [];
    var b := 0;
    NoneTaken(stmts, s, rest, states0, counts0, visited);
    while b < |branches|
      invariant 0 <= b == |branchStates| <= |branches| && states.Keys == counts.Keys
      invariant TakenSoFar(stmts, s, rest, states0, visited, states, counts, branchStates)
    {
      var br := branches[b];
      var t := Next(s, br.target);
      KeysTaken(stmts, s, rest, states0, visited, states, counts, branchStates);
      if !CanPut(rest, br.results) {
        Refuted(stmts, s, b, rest, states0, states);
        return false, states, counts, branchStates;
      }
      var state := Put(rest, br.results, br.types);
      ghost var states1, counts1, out1 := states, counts, branchStates;
      if t !in states {
        states, counts := states[t := state], counts[t := 0];
      } else if states[t] != state {
        Refuted(stmts, s, b, rest, states0, states);
        return false, states, counts, branchStates;
      }
      counts := counts[t := counts[t] + 1];
      branchStates := branchStates + [(t, state)];
      BranchStep(stmts, s, rest, states0, visited, states1, counts1, out1);
      assert states == states1[t := state];
      assert counts == counts1[t := (if t in counts1 then counts1[t] else 0) + 1];
      KeysTaken(stmts, s, rest, states0, visited, states, counts, branchStates);
      b := b + 1;
    }
    AllTaken(stmts, s, rest, states0, visited, states, counts, branchStates);
    ok := true;
  }

  // ----- the worklist -----

  type Queue = seq<(StmtIdx, map<VarId, Ty>)>

  ghost predicate Queued(queue: Queue, t: StmtIdx) {
    exists i :: 0 <= i < |queue| && queue[i].0 == t
  }

  ghost predicate QueueAgrees(queue: Queue, states: States) {
    forall i :: 0 <= i < |queue| ==> queue[i].0 in states && states[queue[i].0] == queue[i].1
  }

  /** What is known after the statements in `visited` have been processed. */
  ghost predicate Explored(stmts: seq<Statement>, f: Function, states: States, counts: map<StmtIdx, nat>,
                           visited: set<StmtIdx>, tails: nat)
  {
    && |f.params| == |f.paramTypes|
    && f.entry in states && states[f.entry] == ZipMap(f.params, f.paramTypes)
    && states.Keys == counts.Keys && visited <= states.Keys
    && (forall s {:trigger ConsistentAt(stmts, states, s)} :: s in visited ==> ConsistentAt(stmts, states, s))
    && Counted(stmts, visited, counts)
    && (forall other :: Closed(stmts, other) && f.entry in other ==> states.Keys <= other)
    && tails == |TailsIn(stmts, f, states, visited)|
    && (forall other :: Consistent(stmts, f, other) ==> Agrees(states, other))
  }

  function TailsIn(stmts: seq<Statement>, f: Function, states: States, visited: set<StmtIdx>): set<StmtIdx> {
    set s | s in visited && TailCall(stmts, f, states, s)
  }

  lemma ExploredStart(stmts: seq<Statement>, f: Function)
    requires Registered(stmts, f)
    ensures Explored(stmts, f, map[f.entry := ZipMap(f.params, f.paramTypes)], map[f.entry := 0], {}, 0)
  {
  }

  lemma ExploredEnd(stmts: seq<Statement>, f: Function, states: States, counts: map<StmtIdx, nat>,
                    visited: set<StmtIdx>, tails: nat)
    requires Explored(stmts, f, states, counts, visited, tails) && visited == states.Keys
    ensures ValidStructure(stmts, f, Structure(states, counts, tails == 1))
  {
    assert Closed(stmts, states.Keys) by {
      forall s | s in states.Keys && s < |stmts| ensures Targets(stmts, s) <= states.Keys {
        assert ConsistentAt(stmts, states, s);
        TargetsKnown(stmts, states, s);
      }
    }
    assert TailsIn(stmts, f, states, visited) == TailCalls(stmts, f, states);
  }

  lemma Demanded(stmts: seq<Statement>, f: Function, states: States, counts: map<StmtIdx, nat>, visited: set<StmtIdx>,
                 tails: nat, s: StmtIdx, other: States)
    requires Explored(stmts, f, states, counts, visited, tails) && s in states && Consistent(stmts, f, other)
    ensures Agrees(states, other) && s < |stmts| && CanTake(states[s], Operands(stmts[s]))
    ensures stmts[s].Return? ==> Rest(states[s], Operands(stmts[s])) == map[]
    ensures ConsistentBranches(stmts, other, s, Rest(states[s], Operands(stmts[s])))
  {
    assert ConsistentAt(stmts, other, s);
  }

  /** A statement that does not find what it takes, or leaves something after a return, or whose
      branches disagree with what is known, rules out every consistent assignment. */
  lemma Unsatisfiable(stmts: seq<Statement>, f: Function, states: States, counts: map<StmtIdx, nat>,
                      visited: set<StmtIdx>, tails: nat, s: StmtIdx)
    requires Explored(stmts, f, states, counts, visited, tails) && s in states
    requires s < |stmts| && CanTake(states[s], Operands(stmts[s])) &&
             (stmts[s].Return? ==> Rest(states[s], Operands(stmts[s])) == map[]) ==>
      forall other :: Agrees(states, other) ==>
        !ConsistentBranches(stmts, other, s, Rest(states[s], Operands(stmts[s])))
    ensures forall other :: !Consistent(stmts, f, other)
  {
    forall other | Consistent(stmts, f, other) ensures false {
      Demanded(stmts, f, states, counts, visited, tails, s, other);
    }
  }

  lemma TailsNext(stmts: seq<Statement>, f: Function, states: States, states': States, visited: set<StmtIdx>,
                  s: StmtIdx)
    requires visited <= states.Keys && s in states && s !in visited && Agrees(states, states')
    ensures |TailsIn(stmts, f, states', visited + {s})| ==
            |TailsIn(stmts, f, states, visited)| + if TailCall(stmts, f, states, s) then 1 else 0
  {
    var was, now := TailsIn(stmts, f, states, visited), TailsIn(stmts, f, states', visited + {s});
    forall u | u in visited + {s} ensures TailCall(stmts, f, states', u) == TailCall(stmts, f, states, u) {
      assert states'[u] == states[u];
    }
    if TailCall(stmts, f, states, s) {
      assert now == was + {s};
    } else {
      assert now == was;
    }
  }

  /** Processing one more statement. */
  lemma ExploredNext(stmts: seq<Statement>, f: Function, states: States, counts: map<StmtIdx, nat>,
                     visited: set<StmtIdx>, tails: nat,
                     s: StmtIdx, states': States, counts': map<StmtIdx, nat>, out: BranchStates)
    requires Explored(stmts, f, states, counts, visited, tails) && s in states && s !in visited && s < |stmts|
    requires CanTake(states[s], Operands(stmts[s]))
    requires stmts[s].Return? ==> Rest(states[s], Operands(stmts[s])) == map[]
    requires var rest := Rest(states[s], Operands(stmts[s]));
             && |out| == |Branches(stmts[s])| && Taken(stmts, s, rest, states', out) &&
                Forced(stmts, s, rest, states, states')
    requires Agrees(states, states') && states'.Keys == counts'.Keys == states.Keys + Targets(stmts, s)
    requires Counted(stmts, visited + {s}, counts')
    ensures Explored(stmts, f, states', counts', visited + {s}, tails + if TailCall(stmts, f, states, s) then 1 else 0)
  {
    TailsNext(stmts, f, states, states', visited, s);
    forall u | u in visited + {s} ensures ConsistentAt(stmts, states', u) {
      ConsistentStays(stmts, states, states', visited, s, out, u);
    }
    forall other | Closed(stmts, other) && f.entry in other ensures states'.Keys <= other {
      assert states.Keys <= other;
    }
    forall other | Consistent(stmts, f, other) ensures Agrees(states', other) {
      assert Agrees(states, other);
      assert ConsistentAt(stmts, other, s);
      assert ConsistentBranches(stmts, other, s, Rest(states[s], Operands(stmts[s])));
    }
  }

  lemma ConsistentStays(stmts: seq<Statement>, states: States, states': States, visited: set<StmtIdx>, s: StmtIdx,
                        out: BranchStates, u: StmtIdx)
    requires s in states && s < |stmts| && u in visited + {s} && visited <= states.Keys && Agrees(states, states')
    requires forall v {:trigger ConsistentAt(stmts, states, v)} :: v in visited ==> ConsistentAt(stmts, states, v)
    requires CanTake(states[s], Operands(stmts[s]))
    requires stmts[s].Return? ==> Rest(states[s], Operands(stmts[s])) == map[]
    requires |out| == |Branches(stmts[s])| && Taken(stmts, s, Rest(states[s], Operands(stmts[s])), states', out)
    ensures u in states' && ConsistentAt(stmts, states', u)
  {
    assert u in visited ==> ConsistentAt(stmts, states, u);
    var rest := Rest(states[u], Operands(stmts[u]));
    forall b | 0 <= b < |Branches(stmts[u])| ensures ConsistentBranch(stmts, states', u, rest, Branches(stmts[u])[b]) {
      if u in visited {
        assert ConsistentBranch(stmts, states, u, rest, Branches(stmts[u])[b]);
      }
    }
  }

  /** Statements that can be in the queue without having been checked. */
  function Unvisited(stmts: seq<Statement>, visited: set<StmtIdx>): set<StmtIdx> {
    Below(|stmts|) - visited
  }

  function Below(n: nat): (s: set<nat>)
    ensures forall x: nat :: x in s <==> x < n
  {
    if n == 0 then {} else Below(n - 1) + {n - 1}
  }

  lemma UnvisitedShrinks(stmts: seq<Statement>, visited: set<StmtIdx>, s: StmtIdx)
    requires s < |stmts| && s !in visited
    ensures |Unvisited(stmts, visited + {s})| < |Unvisited(stmts, visited)|
  {
    assert Unvisited(stmts, visited + {s}) == Unvisited(stmts, visited) - {s};
  }

  ghost predicate Pending(queue: Queue, states: States, visited: set<StmtIdx>) {
    && QueueAgrees(queue, states)
    && forall t :: t in states && t !in visited ==> Queued(queue, t)
  }

  /** Popping a statement that was visited already loses nothing. */
  lemma PendingSkips(queue: Queue, states: States, visited: set<StmtIdx>)
    requires queue != [] && Pending(queue, states, visited) && queue[|queue| - 1].0 in visited
    ensures Pending(queue[..|queue| - 1], states, visited)
  {
    var queue' := queue[..|queue| - 1];
    forall t | t in states && t !in visited ensures Queued(queue', t) {
      var i :| 0 <= i < |queue| && queue[i].0 == t;
      assert queue'[i].0 == t;
    }
  }

  lemma PendingGrows(queue: Queue, states: States, visited: set<StmtIdx>, stmts: seq<Statement>, states': States,
                     out: BranchStates)
    requires queue != [] && Pending(queue, states, visited)
    requires var s := queue[|queue| - 1].0;
             && s < |stmts| && s in states
             && |out| == |Branches(stmts[s])| && Taken(stmts, s, Rest(states[s], Operands(stmts[s])), states', out)
             && Agrees(states, states') && states'.Keys == states.Keys + Targets(stmts, s)
    ensures Pending(queue[..|queue| - 1] + out, states', visited + {queue[|queue| - 1].0})
  {
    hide ConsistentBranch;
    var s := queue[|queue| - 1].0;
    var queue' := queue[..|queue| - 1] + out;
    assert QueueAgrees(queue', states') by {
      OutAgrees(stmts, s, Rest(states[s], Operands(stmts[s])), states', out);
      forall i | 0 <= i < |queue'| ensures queue'[i].0 in states' && states'[queue'[i].0] == queue'[i].1 {
        if i < |queue| - 1 { assert queue'[i] == queue[i]; } else { assert queue'[i] == out[i - (|queue| - 1)]; }
      }
    }
    forall t | t in states' && t !in visited + {s} ensures Queued(queue', t) {
      if t in states {
        var i :| 0 <= i < |queue| && queue[i].0 == t;
        assert queue'[i].0 == t;
      } else {
        var b :| 0 <= b < |Branches(stmts[s])| && t == Next(s, Branches(stmts[s])[b].target);
        assert out[b].0 == t;
        assert queue'[|queue| - 1 + b].0 == t;
      }
    }
  }

  lemma OutAgrees(stmts: seq<Statement>, s: StmtIdx, rest: map<VarId, Ty>, states: States, out: BranchStates)
    requires s < |stmts| && |out| == |Branches(stmts[s])| && Taken(stmts, s, rest, states, out)
    ensures QueueAgrees(out, states)
  {
    forall i | 0 <= i < |out| ensures out[i].0 in states && states[out[i].0] == out[i].1 {
      assert ConsistentBranch(stmts, states, s, rest, Branches(stmts[s])[i]);
    }
  }

  /** The first pass succeeds exactly on the functions that have a consistent assignment of
      variables to their statements, and then finds it, for the reachable statements alone. */
  method GenerateFunctionStructure(stmts: seq<Statement>, f: Function) returns (r: Result<Structure>)
    requires Registered(stmts, f)
    ensures r.Ok? ==> ValidStructure(stmts, f, r.value)
    ensures r.Err? ==> forall states :: !Consistent(stmts, f, states)
  {
    hide Explored, Pending, Unvisited, CanTake, Taken, Forced, Targets, InEdges, Consistent, ValidStructure, Registered;
    var states: States := map[f.entry := ZipMapTypes(stmts, f)];
    var counts: map<StmtIdx, nat> := map[f.entry := 0];
    var queue: Queue := [(f.entry, states[f.entry])];
    var visited: set<StmtIdx> := {};
    var tails: nat := 0;
    ExploredStart(stmts, f);
    PendingStart(f.entry, states);
    while queue != []
      invariant Explored(stmts, f, states, counts, visited, tails)
      invariant Pending(queue, states, visited)
      decreases |Unvisited(stmts, visited)|, |queue|
    {
      var (s, state) := queue[|queue| - 1];
      ghost var queue0 := queue;
      TopState(queue, states, visited);
      if s in visited {
        queue := queue[..|queue| - 1];
        PendingSkips(queue0, states, visited);
        continue;
      }
      queue := queue[..|queue| - 1];
      if s >= |stmts| || !CanTake(state, Operands(stmts[s])) {
        Unsatisfiable(stmts, f, states, counts, visited, tails, s);
        return Err;
      }
      var rest := Rest(state, Operands(stmts[s]));
      if stmts[s].Return? && rest != map[] {
        Unsatisfiable(stmts, f, states, counts, visited, tails, s);
        return Err;
      }
      ghost var states0, counts0 := states, counts;
      BeforeBranches(stmts, f, states, counts, visited, tails);
      var ok, states', counts', out := TakeBranches(stmts, f, s, rest, states, counts, visited);
      if !ok {
        Unsatisfiable(stmts, f, states, counts, visited, tails, s);
        return Err;
      }
      ExploredNext(stmts, f, states, counts, visited, tails, s, states', counts', out);
      PendingGrows(queue0, states, visited, stmts, states', out);
      UnvisitedShrinks(stmts, visited, s);
      tails := tails + if TailCall(stmts, f, states, s) then 1 else 0;
      states, counts := states', counts';
      visited := visited + {s};
      queue := queue + out;
    }
    AllVisited(stmts, f, states, counts, visited, tails);
    ExploredEnd(stmts, f, states, counts, visited, tails);
    r := Ok(Structure(states, counts, tails == 1));
  }

  function ZipMapTypes(stmts: seq<Statement>, f: Function): map<VarId, Ty>
    requires Registered(stmts, f)
  {
    ZipMap(f.params, f.paramTypes)
  }

  lemma PendingStart(entry: StmtIdx, states: States)
    requires states.Keys == {entry}
    ensures Pending([(entry, states[entry])], states, {})
  {
    assert [(entry, states[entry])][0].0 == entry;
  }

  lemma TopState(queue: Queue, states: States, visited: set<StmtIdx>)
    requires queue != [] && Pending(queue, states, visited)
    ensures queue[|queue| - 1].0 in states && states[queue[|queue| - 1].0] == queue[|queue| - 1].1
  {
  }

  lemma BeforeBranches(stmts: seq<Statement>, f: Function, states: States, counts: map<StmtIdx, nat>,
                       visited: set<StmtIdx>, tails: nat)
    requires Explored(stmts, f, states, counts, visited, tails)
    ensures states.Keys == counts.Keys
    ensures Counted(stmts, visited, counts)
    ensures Within(stmts, visited, states.Keys)
  {
    forall v | v in visited && v < |stmts| ensures Targets(stmts, v) <= states.Keys {
      assert ConsistentAt(stmts, states, v);
      TargetsKnown(stmts, states, v);
    }
  }

  lemma AllVisited(stmts: seq<Statement>, f: Function, states: States, counts: map<StmtIdx, nat>, visited: set<StmtIdx>,
                   tails: nat)
    requires Explored(stmts, f, states, counts, visited, tails) && Pending([], states, visited)
    ensures visited == states.Keys
  {
    forall t | t in states ensures Queued([], t) || t in visited {
    }
  }
}
