/** The compiler's second pass: the same worklist, this time emitting each statement's blocks.
    A return of a tail-recursive function waits until the tail call has been emitted. */
module EmissionPass {
  import opened Options
  import opened VarMaps
  import opened Sierra
  import opened Blocks
  import opened Lowering

  type Queue = seq<(StmtIdx, RegMap)>

  function Site(stmts: seq<Statement>, f: Function, st: Structure): set<StmtIdx> {
    if st.recursive then TailCalls(stmts, f, st.states) else {}
  }

  /** The state a branch hands to its target. */
  function BranchState(site: set<StmtIdx>, s: StmtIdx, b: nat, br: Branch, rest: RegMap): RegMap {
    Put(rest, br.results, BranchRegs(site, s, b, |br.results|))
  }

  /** The registers a state may mention: results of processed statements, and block arguments. */
  predicate Known(visited: set<StmtIdx>, r: Reg) {
    match r
    case Arg(block, _) => !block.Body?
    case Result(s, _, _) => s in visited
  }

  // ----- where states come from -----

  ghost predicate FromEdge(stmts: seq<Statement>, site: set<StmtIdx>, cm: map<StmtIdx, RegMap>, visited: set<StmtIdx>,
                           t: StmtIdx, regs: RegMap, s: StmtIdx, b: nat)
  {
    && s in visited && s in cm && IsEdge(stmts, s, b, t)
    && regs == BranchState(site, s, b, Branches(stmts[s])[b], Rest(cm[s], Operands(stmts[s])))
  }

  ghost predicate Origin(stmts: seq<Statement>, f: Function, site: set<StmtIdx>, cm: map<StmtIdx, RegMap>,
                         visited: set<StmtIdx>,
                         t: StmtIdx, regs: RegMap)
  {
    || (t == f.entry && regs == EntryRegs(f))
    || exists s, b: nat :: FromEdge(stmts, site, cm, visited, t, regs, s, b)
  }

  ghost predicate GoodState(stmts: seq<Statement>, f: Function, st: Structure, site: set<StmtIdx>,
                            cm: map<StmtIdx, RegMap>,
                            visited: set<StmtIdx>, t: StmtIdx, regs: RegMap)
  {
    && t in st.states && regs.Keys == st.states[t].Keys
    && (forall x :: x in regs ==> Known(visited, regs[x]))
    && Origin(stmts, f, site, cm, visited, t, regs)
  }

  ghost predicate GoodQueue(stmts: seq<Statement>, f: Function, st: Structure, site: set<StmtIdx>,
                            cm: map<StmtIdx, RegMap>,
                            visited: set<StmtIdx>, queue: Queue)
  {
    && (forall i :: 0 <= i < |queue| ==> GoodState(stmts, f, st, site, cm, visited, queue[i].0, queue[i].1))
    && (f.entry !in visited ==> visited == {} && queue == [(f.entry, EntryRegs(f))])
  }

  ghost predicate Queued(queue: Queue, t: StmtIdx) {
    exists i :: 0 <= i < |queue| && queue[i].0 == t
  }

  /** Everything a processed statement leads to is processed or waiting. */
  ghost predicate Covered(stmts: seq<Statement>, f: Function, visited: set<StmtIdx>, queue: Queue) {
    && (f.entry in visited || Queued(queue, f.entry))
    && forall s, b: nat, t :: s in visited && IsEdge(stmts, s, b, t) ==> t in visited || Queued(queue, t)
  }

  ghost predicate HasEdge(stmts: seq<Statement>, visited: set<StmtIdx>, t: StmtIdx) {
    exists s, b: nat :: s in visited && IsEdge(stmts, s, b, t)
  }

  ghost predicate SameKeys(stmts: seq<Statement>, st: Structure, cm: map<StmtIdx, RegMap>) {
    forall s :: s in cm ==> s < |stmts| && s in st.states && cm[s].Keys == st.states[s].Keys
  }

  ghost predicate AlongEdges(stmts: seq<Statement>, f: Function, st: Structure, site: set<StmtIdx>,
                             cm: map<StmtIdx, RegMap>) {
    forall s, b: nat, t :: s in cm && t in cm && t != f.entry && !st.HasLanding(t) && IsEdge(stmts, s, b, t) ==>
      cm[t] == BranchState(site, s, b, Branches(stmts[s])[b], Rest(cm[s], Operands(stmts[s])))
  }

  ghost predicate Older(cm: map<StmtIdx, RegMap>, visited: set<StmtIdx>) {
    forall s, x :: s in cm && x in cm[s] ==> OldRegister(cm[s][x], s) && Known(visited, cm[s][x])
  }

  ghost predicate FirstStates(f: Function, st: Structure, cm: map<StmtIdx, RegMap>) {
    && (forall s :: s in cm && st.HasLanding(s) ==> s in st.states && cm[s] == LandingRegs(st, s))
    && (f.entry in cm && !st.HasLanding(f.entry) ==> cm[f.entry] == EntryRegs(f))
  }

  /** The registers recorded for the processed statements. */
  ghost predicate Recorded(stmts: seq<Statement>, f: Function, st: Structure, site: set<StmtIdx>,
                           cm: map<StmtIdx, RegMap>,
                           visited: set<StmtIdx>)
  {
    && cm.Keys == visited
    && SameKeys(stmts, st, cm)
    && FirstStates(f, st, cm)
    && AlongEdges(stmts, f, st, site, cm)
    && Older(cm, visited)
    && (forall t {:trigger HasEdge(stmts, visited, t)} :: t in visited && t != f.entry ==> HasEdge(stmts, visited, t))
  }

  // ----- one step of the worklist -----

  lemma UniqueEdge(stmts: seq<Statement>, f: Function, st: Structure, t: StmtIdx, s: StmtIdx, b: nat, s': StmtIdx,
                   b': nat)
    requires ValidStructure(stmts, f, st) && t in st.states && !st.HasLanding(t)
    requires s in st.states && s' in st.states && IsEdge(stmts, s, b, t) && IsEdge(stmts, s', b', t)
    ensures s == s' && b == b'
  {
    var edges := InEdges(stmts, st.states.Keys, t);
    assert CountsAt(stmts, st.states.Keys, st.predecessors, t);
    assert |edges| <= 1;
    assert (s, b) in edges && (s', b') in edges;
    AtMostOne(edges, (s, b), (s', b'));
  }

  lemma AtMostOne<T>(s: set<T>, x: T, y: T)
    requires |s| <= 1 && x in s && y in s
    ensures x == y
  {
    if x != y {
      assert {x, y} <= s && |{x, y}| == 2;
      Subset({x, y}, s);
    }
  }

  lemma Subset<T>(a: set<T>, b: set<T>)
    requires a <= b
    ensures |a| <= |b|
  {
    assert b == a + (b - a);
  }

  /** The registers a statement is given: its landing block's arguments, or what it was handed. */
  function Given(st: Structure, s: StmtIdx, regs: RegMap): RegMap
    requires s in st.states
  {
    if st.HasLanding(s) then LandingRegs(st, s) else regs
  }

  lemma LandingKeys(st: Structure, s: StmtIdx)
    requires s in st.states
    ensures LandingRegs(st, s).Keys == st.states[s].Keys
    ensures forall x :: x in LandingRegs(st, s) ==>
      LandingRegs(st, s)[x].Arg? && LandingRegs(st, s)[x].block == Landing(s)
  {
    hide Sorted;
    SortedKeeps(st.states[s].Keys);
  }

  lemma OlderStep(st: Structure, cm: map<StmtIdx, RegMap>, visited: set<StmtIdx>, s: StmtIdx, regs: RegMap)
    requires s in st.states && cm.Keys == visited && s !in visited && Older(cm, visited)
    requires forall x :: x in regs ==> Known(visited, regs[x])
    ensures Older(cm[s := Given(st, s, regs)], visited + {s})
  {
    LandingKeys(st, s);
    hide LandingRegs;
    var cm' := cm[s := Given(st, s, regs)];
    forall u, x | u in cm' && x in cm'[u] ensures OldRegister(cm'[u][x], u) && Known(visited + {s}, cm'[u][x]) {
      if u != s {
        assert OldRegister(cm[u][x], u) && Known(visited, cm[u][x]);
      } else if !st.HasLanding(s) {
        assert Known(visited, regs[x]);
      }
    }
  }

  /** The new statement's state comes from its only edge, and no edge leads back to a statement
      without a landing block. */
  lemma AlongEdgesStep(stmts: seq<Statement>, f: Function, st: Structure, site: set<StmtIdx>, cm: map<StmtIdx, RegMap>,
                       visited: set<StmtIdx>, s: StmtIdx, regs: RegMap)
    requires ValidStructure(stmts, f, st) && cm.Keys == visited <= st.states.Keys && AlongEdges(stmts, f, st, site, cm)
    requires s in st.states && s !in visited && Origin(stmts, f, site, cm, visited, s, regs)
    requires forall t {:trigger HasEdge(stmts, visited, t)} :: t in visited && t != f.entry ==>
             HasEdge(stmts, visited, t)
    ensures AlongEdges(stmts, f, st, site, cm[s := Given(st, s, regs)])
  {
    hide ValidStructure, LandingRegs, BranchState;
    var cm' := cm[s := Given(st, s, regs)];
    forall u, b: nat, t | u in cm' && t in cm' && t != f.entry && !st.HasLanding(t) && IsEdge(stmts, u, b, t)
      ensures cm'[t] == BranchState(site, u, b, Branches(stmts[u])[b], Rest(cm'[u], Operands(stmts[u])))
    {
      if t == s {
        var u0, b0: nat :| FromEdge(stmts, site, cm, visited, s, regs, u0, b0);
        UniqueEdge(stmts, f, st, s, u, b, u0, b0);
      } else if u == s {
        assert HasEdge(stmts, visited, t);
        var u0, b0: nat :| u0 in visited && IsEdge(stmts, u0, b0, t);
        UniqueEdge(stmts, f, st, t, s, b, u0, b0);
      }
    }
  }

  lemma RecordsOne(stmts: seq<Statement>, f: Function, st: Structure, site: set<StmtIdx>, cm: map<StmtIdx, RegMap>,
                   visited: set<StmtIdx>, s: StmtIdx, regs: RegMap)
    requires ValidStructure(stmts, f, st) && Recorded(stmts, f, st, site, cm, visited)
    requires s !in visited && s < |stmts| && GoodState(stmts, f, st, site, cm, visited, s, regs)
    requires s == f.entry ==> regs == EntryRegs(f)
    ensures Recorded(stmts, f, st, site, cm[s := Given(st, s, regs)], visited + {s})
  {
    hide ValidStructure, AlongEdges, Older, HasEdge, Origin, SameKeys, FirstStates, Given;
    SimpleSteps(stmts, f, st, cm, s, regs);
    assert visited <= st.states.Keys by { KeysWithin(stmts, st, cm); }
    OlderStep(st, cm, visited, s, regs);
    AlongEdgesStep(stmts, f, st, site, cm, visited, s, regs);
    forall t | t in visited + {s} && t != f.entry ensures HasEdge(stmts, visited + {s}, t) {
      assert t in visited ==> HasEdge(stmts, visited, t);
      EdgeStays(stmts, f, site, cm, visited, s, regs, t);
    }
  }

  lemma KeysWithin(stmts: seq<Statement>, st: Structure, cm: map<StmtIdx, RegMap>)
    requires SameKeys(stmts, st, cm)
    ensures cm.Keys <= st.states.Keys
  {
  }

  lemma SameKeysStep(stmts: seq<Statement>, st: Structure, cm: map<StmtIdx, RegMap>, s: StmtIdx, regs: RegMap)
    requires SameKeys(stmts, st, cm) && s < |stmts| && s in st.states && regs.Keys == st.states[s].Keys
    ensures SameKeys(stmts, st, cm[s := regs])
  {
    var cm' := cm[s := regs];
    forall u | u in cm' ensures u < |stmts| && u in st.states && cm'[u].Keys == st.states[u].Keys {
      if u != s { assert cm'[u] == cm[u]; }
    }
  }

  lemma SimpleSteps(stmts: seq<Statement>, f: Function, st: Structure, cm: map<StmtIdx, RegMap>, s: StmtIdx,
                    regs: RegMap)
    requires SameKeys(stmts, st, cm) && FirstStates(f, st, cm)
    requires s < |stmts| && s in st.states && regs.Keys == st.states[s].Keys
    requires s == f.entry ==> regs == EntryRegs(f)
    ensures SameKeys(stmts, st, cm[s := Given(st, s, regs)]) && FirstStates(f, st, cm[s := Given(st, s, regs)])
  {
    hide SameKeys;
    LandingKeys(st, s);
    hide LandingRegs, EntryRegs;
    var given := Given(st, s, regs);
    SameKeysStep(stmts, st, cm, s, given);
    var cm' := cm[s := given];
    forall u | u in cm' && st.HasLanding(u) ensures u in st.states && cm'[u] == LandingRegs(st, u) {
      if u != s { assert cm'[u] == cm[u]; }
    }
  }

  lemma EdgeStays(stmts: seq<Statement>, f: Function, site: set<StmtIdx>, cm: map<StmtIdx, RegMap>,
                  visited: set<StmtIdx>, s: StmtIdx, regs: RegMap, t: StmtIdx)
    requires t in visited + {s} && t != f.entry
    requires t in visited ==> HasEdge(stmts, visited, t)
    requires Origin(stmts, f, site, cm, visited, s, regs)
    ensures HasEdge(stmts, visited + {s}, t)
  {
    if t in visited {
      var u, b: nat :| u in visited && IsEdge(stmts, u, b, t);
      assert u in visited + {s};
    } else {
      var u, b: nat :| FromEdge(stmts, site, cm, visited, t, regs, u, b);
      assert u in visited + {s};
    }
  }

  // ----- the queue -----

  lemma OriginStays(stmts: seq<Statement>, f: Function, site: set<StmtIdx>, cm: map<StmtIdx, RegMap>,
                    visited: set<StmtIdx>,
                    s: StmtIdx, given: RegMap, t: StmtIdx, regs: RegMap)
    requires cm.Keys == visited && s !in visited && Origin(stmts, f, site, cm, visited, t, regs)
    ensures Origin(stmts, f, site, cm[s := given], visited + {s}, t, regs)
  {
    if !(t == f.entry && regs == EntryRegs(f)) {
      var u, b: nat :| FromEdge(stmts, site, cm, visited, t, regs, u, b);
      assert FromEdge(stmts, site, cm[s := given], visited + {s}, t, regs, u, b);
    }
  }

  lemma GoodStateStays(stmts: seq<Statement>, f: Function, st: Structure, site: set<StmtIdx>, cm: map<StmtIdx, RegMap>,
                       visited: set<StmtIdx>, s: StmtIdx, given: RegMap, t: StmtIdx, regs: RegMap)
    requires cm.Keys == visited && s !in visited && GoodState(stmts, f, st, site, cm, visited, t, regs)
    ensures GoodState(stmts, f, st, site, cm[s := given], visited + {s}, t, regs)
  {
    hide Origin;
    OriginStays(stmts, f, site, cm, visited, s, given, t, regs);
  }

  /** What the branches of a processed statement hand on. */
  function Successors(stmts: seq<Statement>, site: set<StmtIdx>, s: StmtIdx, rest: RegMap): (out: Queue)
    requires s < |stmts|
    ensures |out| == |Branches(stmts[s])|
  {
    var branches := Branches(stmts[s]);
    seq(|branches|, b requires 0 <= b < |branches| =>
      (Next(s, branches[b].target), BranchState(site, s, b, branches[b], rest)))
  }

  lemma PutKnown(visited: set<StmtIdx>, site: set<StmtIdx>, s: StmtIdx, b: nat, br: Branch, rest: RegMap)
    requires s in visited && forall x :: x in rest ==> Known(visited, rest[x])
    ensures forall x :: x in BranchState(site, s, b, br, rest) ==> Known(visited, BranchState(site, s, b, br, rest)[x])
  {
    var rs := BranchRegs(site, s, b, |br.results|);
    assert forall i :: 0 <= i < |rs| ==> Known(visited, rs[i]);
  }

  lemma SuccessorGood(stmts: seq<Statement>, f: Function, st: Structure, site: set<StmtIdx>, cm: map<StmtIdx, RegMap>,
                      visited: set<StmtIdx>, s: StmtIdx, b: nat)
    requires ValidStructure(stmts, f, st) && s in visited && s in cm && s in st.states && s < |stmts| &&
             b < |Branches(stmts[s])|
    requires cm[s].Keys == st.states[s].Keys && forall x :: x in cm[s] ==> Known(visited, cm[s][x])
    ensures var br := Branches(stmts[s])[b];
            GoodState(stmts, f, st, site, cm, visited, Next(s, br.target),
                      BranchState(site, s, b, br, Rest(cm[s], Operands(stmts[s]))))
  {
    BranchFacts(stmts, f, st, s, b);
    hide ValidStructure;
    var br := Branches(stmts[s])[b];
    var t := Next(s, br.target);
    var rest := Rest(cm[s], Operands(stmts[s]));
    PutKnown(visited, site, s, b, br, rest);
    var regs := BranchState(site, s, b, br, rest);
    assert regs.Keys == st.states[t].Keys;
    hide BranchState;
    assert FromEdge(stmts, site, cm, visited, t, regs, s, b);
  }

  lemma BranchFacts(stmts: seq<Statement>, f: Function, st: Structure, s: StmtIdx, b: nat)
    requires ValidStructure(stmts, f, st) && s in st.states && s < |stmts| && b < |Branches(stmts[s])|
    ensures ConsistentBranch(stmts, st.states, s, Rest(st.states[s], Operands(stmts[s])), Branches(stmts[s])[b])
  {
    assert ConsistentAt(stmts, st.states, s);
  }

  lemma StatementFacts(stmts: seq<Statement>, f: Function, st: Structure, s: StmtIdx)
    requires ValidStructure(stmts, f, st) && s in st.states
    ensures s < |stmts| && CanTake(st.states[s], Operands(stmts[s]))
    ensures stmts[s].Return? ==> Rest(st.states[s], Operands(stmts[s])) == map[]
  {
    assert ConsistentAt(stmts, st.states, s);
  }

  lemma QueueVisits(stmts: seq<Statement>, f: Function, st: Structure, site: set<StmtIdx>, cm: map<StmtIdx, RegMap>,
                    visited: set<StmtIdx>, queue: Queue, given: RegMap)
    requires ValidStructure(stmts, f, st) && queue != []
    requires GoodQueue(stmts, f, st, site, cm, visited, queue) && cm.Keys == visited
    requires var s := queue[|queue| - 1].0;
             && s !in visited && s < |stmts| && s in st.states
             && given.Keys == st.states[s].Keys && (forall x :: x in given ==> Known(visited + {s}, given[x]))
    ensures var s := queue[|queue| - 1].0;
            GoodQueue(stmts, f, st, site, cm[s := given], visited + {s},
                      queue[..|queue| - 1] + Successors(stmts, site, s, Rest(given, Operands(stmts[s]))))
  {
    hide ValidStructure, GoodState, BranchState, Known, Successors;
    var n := |queue| - 1;
    var s := queue[n].0;
    var cm' := cm[s := given];
    var out := Successors(stmts, site, s, Rest(given, Operands(stmts[s])));
    var queue' := queue[..n] + out;
    forall i | 0 <= i < |queue'| ensures GoodState(stmts, f, st, site, cm', visited + {s}, queue'[i].0, queue'[i].1) {
      if i < n {
        assert queue'[i] == queue[i];
        GoodStateStays(stmts, f, st, site, cm, visited, s, given, queue[i].0, queue[i].1);
      } else {
        SuccessorGood(stmts, f, st, site, cm', visited + {s}, s, i - n);
        SuccessorIs(stmts, site, s, Rest(given, Operands(stmts[s])), i - n);
        assert queue'[i] == out[i - n];
      }
    }
  }

  lemma SuccessorIs(stmts: seq<Statement>, site: set<StmtIdx>, s: StmtIdx, rest: RegMap, b: nat)
    requires s < |stmts| && b < |Branches(stmts[s])|
    ensures Successors(stmts, site, s, rest)[b] ==
            (Next(s, Branches(stmts[s])[b].target), BranchState(site, s, b, Branches(stmts[s])[b], rest))
  {
  }

  lemma CoveredVisits(stmts: seq<Statement>, f: Function, site: set<StmtIdx>, visited: set<StmtIdx>, queue: Queue,
                      rest: RegMap)
    requires queue != [] && queue[|queue| - 1].0 < |stmts| && Covered(stmts, f, visited, queue)
    ensures var s := queue[|queue| - 1].0;
            Covered(stmts, f, visited + {s}, queue[..|queue| - 1] + Successors(stmts, site, s, rest))
  {
    var n := |queue| - 1;
    var s := queue[n].0;
    var out := Successors(stmts, site, s, rest);
    hide Successors;
    var queue' := queue[..n] + out;
    forall t | Queued(queue, t) && t != s ensures Queued(queue', t) {
      var i :| 0 <= i < |queue| && queue[i].0 == t;
      assert queue'[i].0 == t;
    }
    forall b: nat, t | IsEdge(stmts, s, b, t) ensures Queued(queue', t) {
      assert out == Successors(stmts, site, s, rest);
      SuccessorIs(stmts, site, s, rest, b);
      assert queue'[n + b].0 == t;
    }
  }

  /** Dropping a visited statement, or moving one to the far end, keeps everything covered. */
  lemma CoveredReordered(stmts: seq<Statement>, f: Function, visited: set<StmtIdx>, queue: Queue, queue': Queue)
    requires Covered(stmts, f, visited, queue)
    requires forall t :: Queued(queue, t) ==> t in visited || Queued(queue', t)
    ensures Covered(stmts, f, visited, queue')
  {
  }

  lemma Skips(queue: Queue, visited: set<StmtIdx>)
    requires queue != [] && queue[|queue| - 1].0 in visited
    ensures forall t :: Queued(queue, t) ==> t in visited || Queued(queue[..|queue| - 1], t)
  {
    var queue' := queue[..|queue| - 1];
    forall t | Queued(queue, t) && t !in visited ensures Queued(queue', t) {
      var i :| 0 <= i < |queue| && queue[i].0 == t;
      assert queue'[i].0 == t;
    }
  }

  lemma Rotates(queue: Queue)
    requires queue != []
    ensures forall t :: Queued(queue, t) ==> Queued([queue[|queue| - 1]] + queue[..|queue| - 1], t)
  {
    var n := |queue| - 1;
    var queue' := [queue[n]] + queue[..n];
    forall t | Queued(queue, t) ensures Queued(queue', t) {
      var i :| 0 <= i < |queue| && queue[i].0 == t;
      assert queue'[if i == n then 0 else i + 1].0 == t;
    }
  }

  // ----- the emitted blocks -----

  /** `append_operation`: a block that already has a terminator gets another one. */
  function Append(code: Code, block: BlockId, t: Terminator): Code {
    code.(blocks := code.blocks[block := (if block in code.blocks then code.blocks[block] else []) + [t]])
  }

  function EdgesFor(stmts: seq<Statement>, st: Structure, s: StmtIdx, rest: RegMap): (edges: seq<Edge>)
    requires s < |stmts|
    requires forall b :: 0 <= b < |Branches(stmts[s])| ==> HasOperands(stmts, st, s, Branches(stmts[s])[b], rest)
    ensures |edges| == |Branches(stmts[s])|
    ensures forall b :: 0 <= b < |edges| ==> IsEdgeFor(stmts, st, s, Branches(stmts[s])[b], rest, edges[b])
  {
    var branches := Branches(stmts[s]);
    seq(|branches|, b requires 0 <= b < |branches| => EdgeFor(stmts, st, s, branches[b], rest))
  }

  lemma OperandsDefined(stmts: seq<Statement>, f: Function, st: Structure, s: StmtIdx, given: RegMap, b: nat)
    requires ValidStructure(stmts, f, st) && s in st.states && s < |stmts| && given.Keys == st.states[s].Keys
    requires b < |Branches(stmts[s])|
    ensures HasOperands(stmts, st, s, Branches(stmts[s])[b], Rest(given, Operands(stmts[s])))
  {
    var br := Branches(stmts[s])[b];
    var t := Next(s, br.target);
    BranchFacts(stmts, f, st, s, b);
    StatementFacts(stmts, f, st, t);
    hide ValidStructure, Sorted;
    SortedKeeps(st.states[t].Keys);
    forall x | x in TargetVars(stmts, st, t) ensures x in br.results || x in Rest(given, Operands(stmts[s])) {
      if st.HasLanding(t) { assert x in IdSet(Sorted(st.states[t].Keys)); }
      assert x in st.states[t];
    }
  }

  /** The blocks of the first pass: their arguments. */
  function FirstBlocks(stmts: seq<Statement>, f: Function, st: Structure): map<BlockId, nat>
    requires forall s :: s in st.states ==> s < |stmts|
  {
    map[Entry := |f.params|]
    + (map s | s in st.states :: Body(s) := |Operands(stmts[s])|)
    + (map s | s in st.states && st.HasLanding(s) :: Landing(s) := |LandingVars(st, s)|)
  }

  ghost predicate Arities(stmts: seq<Statement>, f: Function, st: Structure, arity: map<BlockId, nat>) {
    && Entry in arity && arity[Entry] == |f.params|
    && (forall s :: s in st.states ==> s < |stmts| && Body(s) in arity && arity[Body(s)] == |Operands(stmts[s])|)
    && (forall s :: s in st.states && st.HasLanding(s) ==>
        Landing(s) in arity && arity[Landing(s)] == |LandingVars(st, s)|)
    && (forall b :: b in arity && b.Resume? ==> arity[b] == |f.retTypes|)
  }

  /** The blocks of one statement. */
  ghost predicate BodyEmitted(stmts: seq<Statement>, f: Function, st: Structure, site: set<StmtIdx>,
                              cm: map<StmtIdx, RegMap>,
                              code: Code, s: StmtIdx)
  {
    && s < |stmts| && s in cm && LoweredBody(stmts, f, st, site, cm, code, s)
    && (st.HasLanding(s) && !MayBeDeferred(stmts, st, s) ==> s in st.states && LoweredLanding(stmts, st, cm, code, s))
  }

  /** The blocks emitted so far. */
  ghost predicate Emitted(stmts: seq<Statement>, f: Function, st: Structure, site: set<StmtIdx>,
                          cm: map<StmtIdx, RegMap>,
                          code: Code, visited: set<StmtIdx>)
  {
    && Arities(stmts, f, st, code.arity)
    && LoweredEntry(stmts, f, code)
    && (forall s {:trigger BodyEmitted(stmts, f, st, site, cm, code, s)} :: s in visited ==>
          BodyEmitted(stmts, f, st, site, cm, code, s))
    && Untouched(stmts, st, code, visited)
  }

  ghost predicate Untouched(stmts: seq<Statement>, st: Structure, code: Code, visited: set<StmtIdx>) {
    forall s :: s in st.states && s !in visited ==>
      && Body(s) !in code.blocks && Resume(s) !in code.blocks
      && (!MayBeDeferred(stmts, st, s) ==> Landing(s) !in code.blocks)
  }

  /** `code'` differs from `code` only in the blocks of `s`. */
  ghost predicate OnlyAt(code: Code, code': Code, s: StmtIdx) {
    && code.arity.Keys <= code'.arity.Keys && (forall b :: b in code.arity ==> code'.arity[b] == code.arity[b])
    && (forall b: BlockId :: b == Entry || b.stmt != s ==>
          (b in code.blocks <==> b in code'.blocks) && (b in code.blocks ==> code'.blocks[b] == code.blocks[b]))
  }

  lemma BodyStays(stmts: seq<Statement>, f: Function, st: Structure, site: set<StmtIdx>, cm: map<StmtIdx, RegMap>,
                  cm': map<StmtIdx, RegMap>,
                  code: Code, code': Code, s: StmtIdx, u: StmtIdx)
    requires u < |stmts| && u in cm && u in cm' && cm'[u] == cm[u] && u != s
    requires OnlyAt(code, code', s) && LoweredBody(stmts, f, st, site, cm, code, u)
    ensures LoweredBody(stmts, f, st, site, cm', code', u)
  {
    hide IsEdgeFor;
  }

  lemma LandingStays(stmts: seq<Statement>, st: Structure, cm: map<StmtIdx, RegMap>, cm': map<StmtIdx, RegMap>,
                     code: Code, code': Code, s: StmtIdx, u: StmtIdx)
    requires u < |stmts| && u in cm && u in cm' && u in st.states && cm'[u] == cm[u] && u != s
    requires OnlyAt(code, code', s) && LoweredLanding(stmts, st, cm, code, u)
    ensures LoweredLanding(stmts, st, cm', code', u)
  {
  }

  lemma EmittedStays(stmts: seq<Statement>, f: Function, st: Structure, site: set<StmtIdx>, cm: map<StmtIdx, RegMap>,
                     cm': map<StmtIdx, RegMap>, code: Code, code': Code, s: StmtIdx, u: StmtIdx)
    requires u in cm && u in cm' && cm'[u] == cm[u] && u != s
    requires OnlyAt(code, code', s) && BodyEmitted(stmts, f, st, site, cm, code, u)
    ensures BodyEmitted(stmts, f, st, site, cm', code', u)
  {
    hide LoweredBody, LoweredLanding, OnlyAt, MayBeDeferred;
    BodyStays(stmts, f, st, site, cm, cm', code, code', s, u);
    if st.HasLanding(u) && !MayBeDeferred(stmts, st, u) {
      LandingStays(stmts, st, cm, cm', code, code', s, u);
    }
  }

  lemma EmitsOne(stmts: seq<Statement>, f: Function, st: Structure, site: set<StmtIdx>, cm: map<StmtIdx, RegMap>,
                 cm': map<StmtIdx, RegMap>,
                 code: Code, code': Code, visited: set<StmtIdx>, s: StmtIdx)
    requires Emitted(stmts, f, st, site, cm, code, visited) && OnlyAt(code, code', s)
    requires s in st.states && s < |stmts| && s !in visited && s in cm' && visited <= cm'.Keys
    requires forall u :: u in visited ==> u in cm && cm'[u] == cm[u]
    requires LoweredBody(stmts, f, st, site, cm', code', s) && Arities(stmts, f, st, code'.arity)
    requires st.HasLanding(s) && !MayBeDeferred(stmts, st, s) ==> LoweredLanding(stmts, st, cm', code', s)
    ensures Emitted(stmts, f, st, site, cm', code', visited + {s})
  {
    hide LoweredBody, LoweredLanding, MayBeDeferred, Arities, OnlyAt, LoweredEntry, Untouched;
    forall u | u in visited ensures BodyEmitted(stmts, f, st, site, cm', code', u) {
      assert BodyEmitted(stmts, f, st, site, cm, code, u);
      EmittedStays(stmts, f, st, site, cm, cm', code, code', s, u);
    }
    OthersStay(stmts, f, st, code, code', visited, s);
  }

  lemma OthersStay(stmts: seq<Statement>, f: Function, st: Structure, code: Code, code': Code, visited: set<StmtIdx>,
                   s: StmtIdx)
    requires OnlyAt(code, code', s) && LoweredEntry(stmts, f, code) && Untouched(stmts, st, code, visited)
    ensures LoweredEntry(stmts, f, code') && Untouched(stmts, st, code', visited + {s})
  {
    hide MayBeDeferred;
    assert code'.blocks[Entry] == code.blocks[Entry];
  }

  /** The landing block of a statement, if it has one, jumps to its body. */
  function EmitLanding(stmts: seq<Statement>, st: Structure, code: Code, s: StmtIdx, given: RegMap): Code
    requires s < |stmts| && forall x :: x in Operands(stmts[s]) ==> x in given
  {
    if st.HasLanding(s) then Append(code, Landing(s), Jump(Body(s), Lookup(given, Operands(stmts[s])))) else code
  }

  lemma OnlyAtTrans(a: Code, b: Code, c: Code, s: StmtIdx)
    requires OnlyAt(a, b, s) && OnlyAt(b, c, s)
    ensures OnlyAt(a, c, s)
  {
  }

  lemma AppendOnlyAt(code: Code, block: BlockId, t: Terminator)
    requires block != Entry
    ensures OnlyAt(code, Append(code, block, t), block.stmt)
  {
  }

  lemma LandingEmitted(stmts: seq<Statement>, f: Function, st: Structure, code: Code, visited: set<StmtIdx>, s: StmtIdx,
                       given: RegMap,
                       cm: map<StmtIdx, RegMap>)
    requires s < |stmts| && s in st.states && s !in visited && s in cm && cm[s] == given
    requires forall x :: x in Operands(stmts[s]) ==> x in given
    requires Arities(stmts, f, st, code.arity) && Untouched(stmts, st, code, visited)
    ensures var code' := EmitLanding(stmts, st, code, s, given);
            && OnlyAt(code, code', s) && code'.arity == code.arity
            && Body(s) !in code'.blocks && Resume(s) !in code'.blocks
            && (st.HasLanding(s) && !MayBeDeferred(stmts, st, s) ==> LoweredLanding(stmts, st, cm, code', s))
  {
    if st.HasLanding(s) {
      AppendOnlyAt(code, Landing(s), Jump(Body(s), Lookup(given, Operands(stmts[s]))));
    }
  }

  lemma LibfuncEmitted(stmts: seq<Statement>, f: Function, st: Structure, site: set<StmtIdx>, cm: map<StmtIdx, RegMap>,
                       code: Code, s: StmtIdx, arities: seq<nat>, edges: seq<Edge>)
    requires s < |stmts| && s in cm && stmts[s].Invocation? && s !in site
    requires Body(s) in code.arity && code.arity[Body(s)] == |Operands(stmts[s])| && Body(s) !in code.blocks
    requires forall x :: x in Operands(stmts[s]) ==> x in cm[s]
    requires |edges| == |arities| == |stmts[s].branches|
    requires forall b :: 0 <= b < |arities| ==> arities[b] == |stmts[s].branches[b].results|
    requires forall b :: 0 <= b < |edges| ==> IsEdgeFor(stmts, st, s, stmts[s].branches[b], Rest(cm[s], stmts[s].args),
                                                        edges[b])
    ensures LoweredBody(stmts, f, st, site, cm, Append(code, Body(s), RunLibfunc(stmts[s].libfunc, s, arities, edges)),
                        s)
  {
    hide IsEdgeFor;
  }

  /** The tail call's two blocks. */
  function EmitTailCall(f: Function, code: Code, s: StmtIdx, edge: Edge): Code {
    var code' := Append(Append(code, Body(s), Recurse), Resume(s), Resumed(edge));
    code'.(arity := code'.arity[Resume(s) := |f.retTypes|])
  }

  lemma TailCallEmitted(stmts: seq<Statement>, f: Function, st: Structure, site: set<StmtIdx>, cm: map<StmtIdx, RegMap>,
                        code: Code, s: StmtIdx, edge: Edge)
    requires s < |stmts| && s in cm && stmts[s].Invocation? && s in site
    requires Body(s) in code.arity && code.arity[Body(s)] == |Operands(stmts[s])|
    requires Body(s) !in code.blocks && Resume(s) !in code.blocks
    requires Resume(s) in code.arity ==> code.arity[Resume(s)] == |f.retTypes|
    requires forall x :: x in Operands(stmts[s]) ==> x in cm[s]
    requires |stmts[s].branches| == 1 && |stmts[s].branches[0].results| == |f.retTypes|
    requires IsEdgeFor(stmts, st, s, stmts[s].branches[0], Rest(cm[s], stmts[s].args), edge)
    ensures OnlyAt(code, EmitTailCall(f, code, s, edge), s)
    ensures LoweredBody(stmts, f, st, site, cm, EmitTailCall(f, code, s, edge), s)
  {
    hide IsEdgeFor;
  }

  lemma ReturnEmitted(stmts: seq<Statement>, f: Function, st: Structure, site: set<StmtIdx>, cm: map<StmtIdx, RegMap>,
                      code: Code, s: StmtIdx, t: Terminator)
    requires s < |stmts| && s in cm && stmts[s].Return?
    requires Body(s) in code.arity && code.arity[Body(s)] == |Operands(stmts[s])| && Body(s) !in code.blocks
    requires forall x :: x in Operands(stmts[s]) ==> x in cm[s]
    requires var values := Lookup(cm[s], stmts[s].vars);
             if site == {} then t == ReturnPlain(values)
             else |stmts[s].vars| == |f.retTypes| && HasReturnPointer(f) != NoPointer
                  && t.ReturnTail? && t.values == values
                  && t.passed == TailValues(HasReturnPointer(f), f.retTypes, values)
                  && t.resume.Resume? && t.resume.stmt in site
    ensures LoweredBody(stmts, f, st, site, cm, Append(code, Body(s), t), s)
  {
  }

  lemma DeferralKeeps(stmts: seq<Statement>, f: Function, st: Structure, site: set<StmtIdx>, cm: map<StmtIdx, RegMap>,
                      code: Code, visited: set<StmtIdx>, s: StmtIdx, given: RegMap)
    requires Emitted(stmts, f, st, site, cm, code, visited)
    requires s in st.states && s < |stmts| && s !in visited && MayBeDeferred(stmts, st, s)
    requires forall x :: x in Operands(stmts[s]) ==> x in given
    ensures Emitted(stmts, f, st, site, cm, EmitLanding(stmts, st, code, s, given), visited)
  {
    hide LoweredBody, LoweredLanding, Arities, OnlyAt, LoweredEntry, Untouched;
    var code' := EmitLanding(stmts, st, code, s, given);
    if st.HasLanding(s) {
      AppendOnlyAt(code, Landing(s), Jump(Body(s), Lookup(given, Operands(stmts[s]))));
      forall u | u in visited ensures BodyEmitted(stmts, f, st, site, cm, code', u) {
        assert BodyEmitted(stmts, f, st, site, cm, code, u);
        EmittedStays(stmts, f, st, site, cm, cm, code, code', s, u);
      }
      DeferralUntouched(stmts, f, st, code, visited, s, Jump(Body(s), Lookup(given, Operands(stmts[s]))));
    }
  }

  lemma DeferralUntouched(stmts: seq<Statement>, f: Function, st: Structure, code: Code, visited: set<StmtIdx>,
                          s: StmtIdx, t: Terminator)
    requires Arities(stmts, f, st, code.arity) && LoweredEntry(stmts, f, code) && Untouched(stmts, st, code, visited)
    requires MayBeDeferred(stmts, st, s)
    ensures var code' := Append(code, Landing(s), t);
            Arities(stmts, f, st, code'.arity) && LoweredEntry(stmts, f, code') && Untouched(stmts, st, code', visited)
  {
  }

  // ----- the tail call comes before any return can wait for ever -----

  /** Statements that a tail-recursive function cannot emit, or need not, before its tail call. */
  predicate Waits(stmts: seq<Statement>, visited: set<StmtIdx>, t: StmtIdx) {
    t in visited || (t < |stmts| && stmts[t].Return?)
  }

  /** How many statements on top of the queue wait. */
  function Waiting(stmts: seq<Statement>, visited: set<StmtIdx>, queue: Queue): (n: nat)
    ensures n <= |queue|
    ensures n < |queue| <==> exists i :: 0 <= i < |queue| && !Waits(stmts, visited, queue[i].0)
  {
    if queue == [] then 0
    else
      var top := |queue| - 1;
      if !Waits(stmts, visited, queue[top].0) then 0
      else
        var n := 1 + Waiting(stmts, visited, queue[..top]);
        assert n < |queue| ==> exists i :: 0 <= i < top && !Waits(stmts, visited, queue[..top][i].0);
        n
  }

  /** Moving a waiting statement from the top to the bottom brings the others closer. */
  lemma {:induction false} WaitingBelow(stmts: seq<Statement>, visited: set<StmtIdx>, e: (StmtIdx, RegMap),
                                        queue: Queue)
    requires Waiting(stmts, visited, queue) < |queue|
    ensures Waiting(stmts, visited, [e] + queue) == Waiting(stmts, visited, queue)
  {
    hide Waits;
    var top := |queue| - 1;
    if Waits(stmts, visited, queue[top].0) {
      WaitingBelow(stmts, visited, e, queue[..top]);
      assert ([e] + queue)[..top + 1] == [e] + queue[..top];
    }
  }

  lemma WaitingRotates(stmts: seq<Statement>, visited: set<StmtIdx>, queue: Queue)
    requires queue != [] && Waits(stmts, visited, queue[|queue| - 1].0)
    requires Waiting(stmts, visited, queue) < |queue|
    ensures Waiting(stmts, visited, [queue[|queue| - 1]] + queue[..|queue| - 1]) < Waiting(stmts, visited, queue)
  {
    WaitingBelow(stmts, visited, queue[|queue| - 1], queue[..|queue| - 1]);
  }

  /** What is processed, and the returns in the queue. */
  ghost function Settled(stmts: seq<Statement>, visited: set<StmtIdx>, queue: Queue): set<StmtIdx> {
    visited + set i | 0 <= i < |queue| && queue[i].0 < |stmts| && stmts[queue[i].0].Return? :: queue[i].0
  }

  lemma AllWaiting(stmts: seq<Statement>, visited: set<StmtIdx>, queue: Queue, t: StmtIdx)
    requires Waiting(stmts, visited, queue) == |queue| && Queued(queue, t)
    ensures t in Settled(stmts, visited, queue)
  {
    var i :| 0 <= i < |queue| && queue[i].0 == t;
    assert Waits(stmts, visited, queue[i].0);
  }

  lemma SettledClosed(stmts: seq<Statement>, f: Function, visited: set<StmtIdx>, queue: Queue)
    requires Covered(stmts, f, visited, queue) && Waiting(stmts, visited, queue) == |queue|
    ensures Closed(stmts, Settled(stmts, visited, queue)) && f.entry in Settled(stmts, visited, queue)
  {
    hide Waiting;
    var done := Settled(stmts, visited, queue);
    if Queued(queue, f.entry) { AllWaiting(stmts, visited, queue, f.entry); }
    forall s, t | s in done && s < |stmts| && t in Targets(stmts, s) ensures t in done {
      var b :| 0 <= b < |Branches(stmts[s])| && t == Next(s, Branches(stmts[s])[b].target);
      assert IsEdge(stmts, s, b, t);
      if Queued(queue, t) { AllWaiting(stmts, visited, queue, t); }
    }
  }

  /** As long as the tail call has not been emitted, something in the queue can be processed:
      otherwise what is processed or waiting would be closed, and would not contain it. */
  lemma SomethingToDo(stmts: seq<Statement>, f: Function, st: Structure, visited: set<StmtIdx>, queue: Queue,
                      site: StmtIdx)
    requires ValidStructure(stmts, f, st) && Covered(stmts, f, visited, queue)
    requires site in st.states && site !in visited && site < |stmts| && !stmts[site].Return?
    ensures Waiting(stmts, visited, queue) < |queue|
  {
    hide ValidStructure, Covered, Waiting;
    assert Waiting(stmts, visited, queue) <= |queue|;
    if Waiting(stmts, visited, queue) == |queue| {
      SettledClosed(stmts, f, visited, queue);
      ReachedWithin(stmts, f, st, Settled(stmts, visited, queue));
    }
  }

  lemma ReachedWithin(stmts: seq<Statement>, f: Function, st: Structure, done: set<StmtIdx>)
    requires ValidStructure(stmts, f, st) && Closed(stmts, done) && f.entry in done
    ensures st.states.Keys <= done
  {
  }

  // ----- the second pass -----

  /** Sierra's own typing of returns and of calls of the function to itself. */
  ghost predicate RegisteredCalls(stmts: seq<Statement>, f: Function, st: Structure) {
    forall s :: s in st.states && s < |stmts| ==>
      match stmts[s]
      case Return(vars) => |vars| == |f.retTypes|
      case Invocation(libfunc, _, branches) =>
        libfunc == Call(f.id) ==> |branches| == 1 && |branches[0].results| == |f.retTypes|
  }

  /** Everything known about the registers, the queue and the blocks. */
  ghost predicate InProgress(stmts: seq<Statement>, f: Function, st: Structure, cm: map<StmtIdx, RegMap>,
                             visited: set<StmtIdx>, queue: Queue, code: Code, tail: Option<StmtIdx>)
  {
    && Recorded(stmts, f, st, Site(stmts, f, st), cm, visited)
    && GoodQueue(stmts, f, st, Site(stmts, f, st), cm, visited, queue)
    && Covered(stmts, f, visited, queue)
    && Emitted(stmts, f, st, Site(stmts, f, st), cm, code, visited)
    && (tail.None? ==> Site(stmts, f, st) !! visited)
    && (tail.Some? ==> tail.value in Site(stmts, f, st))
  }

  lemma StartFacts(stmts: seq<Statement>, f: Function, st: Structure)
    requires ValidStructure(stmts, f, st)
    ensures f.entry < |stmts| && f.entry in st.states && st.states[f.entry].Keys == IdSet(f.params)
    ensures forall s :: s in st.states ==> s < |stmts|
    ensures forall x :: x in Operands(stmts[f.entry]) ==> x in EntryRegs(f)
  {
    forall s | s in st.states ensures s < |stmts| { StatementFacts(stmts, f, st, s); }
    assert f.entry in st.states && st.states[f.entry].Keys == IdSet(f.params);
    hide ValidStructure;
    StatementFacts(stmts, f, st, f.entry);
  }

  function StartCode(stmts: seq<Statement>, f: Function, st: Structure): Code
    requires f.entry < |stmts| && forall s :: s in st.states ==> s < |stmts|
    requires forall x :: x in Operands(stmts[f.entry]) ==> x in EntryRegs(f)
  {
    Code(FirstBlocks(stmts, f, st),
         map[Entry := [Jump(Body(f.entry), Lookup(EntryRegs(f), Operands(stmts[f.entry])))]])
  }

  lemma StartEmitted(stmts: seq<Statement>, f: Function, st: Structure, site: set<StmtIdx>)
    requires f.entry < |stmts| && forall s :: s in st.states ==> s < |stmts|
    requires forall x :: x in Operands(stmts[f.entry]) ==> x in EntryRegs(f)
    ensures Emitted(stmts, f, st, site, map[], StartCode(stmts, f, st), {})
  {
    StartEntry(stmts, f, st);
    hide LoweredBody, LoweredLanding, MayBeDeferred, FirstBlocks, Arities, StartCode, LoweredEntry, Untouched;
  }

  lemma StartEntry(stmts: seq<Statement>, f: Function, st: Structure)
    requires f.entry < |stmts| && forall s :: s in st.states ==> s < |stmts|
    requires forall x :: x in Operands(stmts[f.entry]) ==> x in EntryRegs(f)
    ensures LoweredEntry(stmts, f, StartCode(stmts, f, st)) && Arities(stmts, f, st, StartCode(stmts, f, st).arity)
    ensures Untouched(stmts, st, StartCode(stmts, f, st), {})
  {
    FirstArities(stmts, f, st);
    hide FirstBlocks, Arities, EntryRegs, Untouched, Lookup;
    NothingTouched(stmts, f, st);
  }

  lemma NothingTouched(stmts: seq<Statement>, f: Function, st: Structure)
    requires f.entry < |stmts| && forall x :: x in Operands(stmts[f.entry]) ==> x in EntryRegs(f)
    requires forall s :: s in st.states ==> s < |stmts|
    ensures Untouched(stmts, st, StartCode(stmts, f, st), {})
  {
    hide FirstBlocks, EntryRegs, Lookup;
  }

  lemma FirstArities(stmts: seq<Statement>, f: Function, st: Structure)
    requires forall s :: s in st.states ==> s < |stmts|
    ensures Arities(stmts, f, st, FirstBlocks(stmts, f, st))
    ensures Entry in FirstBlocks(stmts, f, st) && FirstBlocks(stmts, f, st)[Entry] == |f.params|
  {
    hide LandingVars, Operands, FirstBlocks, Structure.HasLanding;
    forall b: BlockId
      ensures b == Entry ==> b in FirstBlocks(stmts, f, st) && FirstBlocks(stmts, f, st)[b] == |f.params|
      ensures b.Body? && b.stmt in st.states ==>
        b in FirstBlocks(stmts, f, st) && FirstBlocks(stmts, f, st)[b] == |Operands(stmts[b.stmt])|
      ensures b.Landing? && b.stmt in st.states && st.HasLanding(b.stmt) ==>
        b in FirstBlocks(stmts, f, st) && FirstBlocks(stmts, f, st)[b] == |LandingVars(st, b.stmt)|
      ensures b.Resume? ==> b !in FirstBlocks(stmts, f, st)
    {
      FirstArity(stmts, f, st, b);
    }
  }

  lemma FirstArity(stmts: seq<Statement>, f: Function, st: Structure, b: BlockId)
    requires forall s :: s in st.states ==> s < |stmts|
    ensures b == Entry ==> b in FirstBlocks(stmts, f, st) && FirstBlocks(stmts, f, st)[b] == |f.params|
    ensures b.Body? && b.stmt in st.states ==>
      b in FirstBlocks(stmts, f, st) && FirstBlocks(stmts, f, st)[b] == |Operands(stmts[b.stmt])|
    ensures b.Landing? && b.stmt in st.states && st.HasLanding(b.stmt) ==>
      b in FirstBlocks(stmts, f, st) && FirstBlocks(stmts, f, st)[b] == |LandingVars(st, b.stmt)|
    ensures b.Resume? ==> b !in FirstBlocks(stmts, f, st)
  {
    hide LandingVars, Operands, Structure.HasLanding;
  }

  lemma NothingRecorded(stmts: seq<Statement>, f: Function, st: Structure, site: set<StmtIdx>)
    ensures Recorded(stmts, f, st, site, map[], {})
  {
    hide BranchState, LandingRegs;
  }

  lemma StartQueued(stmts: seq<Statement>, f: Function, st: Structure, site: set<StmtIdx>)
    requires f.entry in st.states && st.states[f.entry].Keys == IdSet(f.params)
    ensures GoodQueue(stmts, f, st, site, map[], {}, [(f.entry, EntryRegs(f))])
    ensures Covered(stmts, f, {}, [(f.entry, EntryRegs(f))])
  {
    var queue: Queue := [(f.entry, EntryRegs(f))];
    assert queue[0].0 == f.entry;
    FirstKnown(f);
    hide EntryRegs;
    assert GoodState(stmts, f, st, site, map[], {}, f.entry, EntryRegs(f));
  }

  lemma Starts(stmts: seq<Statement>, f: Function, st: Structure)
    requires ValidStructure(stmts, f, st)
    requires f.entry < |stmts| && forall s :: s in st.states ==> s < |stmts|
    requires forall x :: x in Operands(stmts[f.entry]) ==> x in EntryRegs(f)
    ensures InProgress(stmts, f, st, map[], {}, [(f.entry, EntryRegs(f))], StartCode(stmts, f, st), None)
  {
    StartFacts(stmts, f, st);
    hide ValidStructure, Emitted, GoodQueue, Covered, EntryRegs, StartCode, Recorded;
    NothingRecorded(stmts, f, st, Site(stmts, f, st));
    StartEmitted(stmts, f, st, Site(stmts, f, st));
    StartQueued(stmts, f, st, Site(stmts, f, st));
  }

  lemma FirstKnown(f: Function)
    ensures EntryRegs(f).Keys == IdSet(f.params)
    ensures forall x :: x in EntryRegs(f) ==> Known({}, EntryRegs(f)[x])
  {
  }

  lemma TopGood(stmts: seq<Statement>, f: Function, st: Structure, site: set<StmtIdx>, cm: map<StmtIdx, RegMap>,
                visited: set<StmtIdx>, queue: Queue)
    requires GoodQueue(stmts, f, st, site, cm, visited, queue) && queue != []
    ensures var (s, regs) := queue[|queue| - 1];
            && s in st.states && GoodState(stmts, f, st, site, cm, visited, s, regs)
            && regs.Keys == st.states[s].Keys
            && (s == f.entry && s !in visited ==> regs == EntryRegs(f))
  {
    hide Origin, EntryRegs;
  }

  lemma GivenFacts(st: Structure, s: StmtIdx, regs: RegMap, visited: set<StmtIdx>)
    requires s in st.states && regs.Keys == st.states[s].Keys && forall x :: x in regs ==> Known(visited, regs[x])
    ensures Given(st, s, regs).Keys == st.states[s].Keys
    ensures forall x :: x in Given(st, s, regs) ==> Known(visited + {s}, Given(st, s, regs)[x])
  {
    LandingKeys(st, s);
    hide LandingRegs;
  }

  ghost predicate GoodTop(stmts: seq<Statement>, f: Function, st: Structure, cm: map<StmtIdx, RegMap>,
                          visited: set<StmtIdx>, s: StmtIdx, regs: RegMap) {
    && s < |stmts| && s in st.states && regs.Keys == st.states[s].Keys
    && Given(st, s, regs).Keys == st.states[s].Keys
    && (forall x :: x in Given(st, s, regs) ==> Known(visited + {s}, Given(st, s, regs)[x]))
    && CanTake(Given(st, s, regs), Operands(stmts[s]))
    && GoodState(stmts, f, st, Site(stmts, f, st), cm, visited, s, regs)
    && (s == f.entry && s !in visited ==> regs == EntryRegs(f))
  }

  /** What the statement on top of the queue has been given. */
  lemma TopFacts(stmts: seq<Statement>, f: Function, st: Structure, cm: map<StmtIdx, RegMap>,
                 visited: set<StmtIdx>, queue: Queue, code: Code, tail: Option<StmtIdx>)
    requires ValidStructure(stmts, f, st) && InProgress(stmts, f, st, cm, visited, queue, code, tail) && queue != []
    ensures GoodTop(stmts, f, st, cm, visited, queue[|queue| - 1].0, queue[|queue| - 1].1)
  {
    hide ValidStructure, Emitted, Recorded, Covered, Origin, Given, Known, EntryRegs, GoodQueue, Site, GoodState,
         CanTake, InProgress;
    QueueIsGood(stmts, f, st, cm, visited, queue, code, tail);
    TopGood(stmts, f, st, Site(stmts, f, st), cm, visited, queue);
    var (s, regs) := queue[|queue| - 1];
    GoodGiven(stmts, f, st, Site(stmts, f, st), cm, visited, s, regs);
  }

  lemma GoodGiven(stmts: seq<Statement>, f: Function, st: Structure, site: set<StmtIdx>, cm: map<StmtIdx, RegMap>,
                  visited: set<StmtIdx>, s: StmtIdx, regs: RegMap)
    requires ValidStructure(stmts, f, st) && s in st.states && GoodState(stmts, f, st, site, cm, visited, s, regs)
    requires regs.Keys == st.states[s].Keys
    ensures s < |stmts| && Given(st, s, regs).Keys == st.states[s].Keys
    ensures forall x :: x in Given(st, s, regs) ==> Known(visited + {s}, Given(st, s, regs)[x])
    ensures CanTake(Given(st, s, regs), Operands(stmts[s]))
  {
    hide ValidStructure, Given, Known, GoodState, CanTake;
    StatementFacts(stmts, f, st, s);
    GoodKnown(stmts, f, st, site, cm, visited, s, regs);
    GivenFacts(st, s, regs, visited);
    TakesSame(Given(st, s, regs), st.states[s], Operands(stmts[s]));
  }

  lemma QueueIsGood(stmts: seq<Statement>, f: Function, st: Structure, cm: map<StmtIdx, RegMap>,
                    visited: set<StmtIdx>, queue: Queue, code: Code, tail: Option<StmtIdx>)
    requires InProgress(stmts, f, st, cm, visited, queue, code, tail)
    ensures GoodQueue(stmts, f, st, Site(stmts, f, st), cm, visited, queue)
  {
    hide Emitted, Recorded, Covered, GoodQueue;
  }

  lemma GoodKnown(stmts: seq<Statement>, f: Function, st: Structure, site: set<StmtIdx>, cm: map<StmtIdx, RegMap>,
                  visited: set<StmtIdx>, s: StmtIdx, regs: RegMap)
    requires GoodState(stmts, f, st, site, cm, visited, s, regs)
    ensures forall x :: x in regs ==> Known(visited, regs[x])
  {
    hide Origin;
  }

  lemma TakesSame<A, B>(a: map<VarId, A>, b: map<VarId, B>, ops: seq<VarId>)
    requires a.Keys == b.Keys && CanTake(b, ops)
    ensures CanTake(a, ops)
  {
  }

  /** A tail call is recognised by its state: nothing is left after its arguments are taken. */
  lemma SiteTest(stmts: seq<Statement>, f: Function, st: Structure, s: StmtIdx, given: RegMap)
    requires s in st.states && s < |stmts| && stmts[s].Invocation? && given.Keys == st.states[s].Keys
    ensures s in Site(stmts, f, st) <==>
            st.recursive && stmts[s].libfunc == Call(f.id) && Rest(given, stmts[s].args) == map[]
  {
    var a, b := Rest(given, stmts[s].args), Rest(st.states[s], stmts[s].args);
    assert a.Keys == b.Keys;
    assert a == map[] <==> a.Keys == {};
    assert b == map[] <==> b.Keys == {};
  }

  /** A statement has been emitted: its blocks are there and nothing else has changed. */
  ghost predicate Emits(stmts: seq<Statement>, f: Function, st: Structure, cm: map<StmtIdx, RegMap>,
                        code: Code, code': Code, s: StmtIdx, given: RegMap)
    requires s < |stmts| && s in st.states
  {
    && OnlyAt(code, code', s) && Arities(stmts, f, st, code'.arity)
    && LoweredBody(stmts, f, st, Site(stmts, f, st), cm[s := given], code', s)
    && (st.HasLanding(s) && !MayBeDeferred(stmts, st, s) ==> LoweredLanding(stmts, st, cm[s := given], code', s))
  }

  lemma Advances(stmts: seq<Statement>, f: Function, st: Structure, cm: map<StmtIdx, RegMap>,
                 visited: set<StmtIdx>, queue: Queue, code: Code, tail: Option<StmtIdx>, code': Code,
                 tail': Option<StmtIdx>)
    requires ValidStructure(stmts, f, st) && InProgress(stmts, f, st, cm, visited, queue, code, tail) && queue != []
    requires var (s, regs) := queue[|queue| - 1];
             && s !in visited && s < |stmts| && s in st.states
             && Emits(stmts, f, st, cm, code, code', s, Given(st, s, regs))
             && tail' == if s in Site(stmts, f, st) then Some(s) else tail
    ensures var (s, regs) := queue[|queue| - 1];
            InProgress(stmts, f, st, cm[s := Given(st, s, regs)], visited + {s},
                       queue[..|queue| - 1] + Successors(stmts, Site(stmts, f, st), s,
                                                         Rest(Given(st, s, regs), Operands(stmts[s]))),
                       code', tail')
  {
    hide ValidStructure, Emitted, Recorded, Covered, GoodQueue, GoodState, Successors, Given, OnlyAt, Arities,
         LoweredBody, LoweredLanding, Known, CanTake, Site, EntryRegs;
    TopFacts(stmts, f, st, cm, visited, queue, code, tail);
    var (s, regs) := queue[|queue| - 1];
    var given := Given(st, s, regs);
    var site := Site(stmts, f, st);
    RecordedKeys(stmts, f, st, site, cm, visited);
    RecordsOne(stmts, f, st, site, cm, visited, s, regs);
    QueueVisits(stmts, f, st, site, cm, visited, queue, given);
    CoveredVisits(stmts, f, site, visited, queue, Rest(given, Operands(stmts[s])));
    EmitsOne(stmts, f, st, site, cm, cm[s := given], code, code', visited, s);
  }

  lemma RecordedKeys(stmts: seq<Statement>, f: Function, st: Structure, site: set<StmtIdx>, cm: map<StmtIdx, RegMap>,
                     visited: set<StmtIdx>)
    requires Recorded(stmts, f, st, site, cm, visited)
    ensures cm.Keys == visited <= st.states.Keys
  {
  }

  lemma Defers(stmts: seq<Statement>, f: Function, st: Structure, cm: map<StmtIdx, RegMap>,
               visited: set<StmtIdx>, queue: Queue, code: Code, given: RegMap)
    requires ValidStructure(stmts, f, st) && InProgress(stmts, f, st, cm, visited, queue, code, None) && queue != []
    requires var s := queue[|queue| - 1].0;
             && s !in visited && s < |stmts| && s in st.states && MayBeDeferred(stmts, st, s)
             && forall x :: x in Operands(stmts[s]) ==> x in given
    ensures var s := queue[|queue| - 1].0;
            var queue' := [queue[|queue| - 1]] + queue[..|queue| - 1];
            && InProgress(stmts, f, st, cm, visited, queue', EmitLanding(stmts, st, code, s, given), None)
            && |queue'| == |queue|
            && Waiting(stmts, visited, queue') < Waiting(stmts, visited, queue)
  {
    hide ValidStructure, Emitted, Recorded, Covered, GoodQueue, EmitLanding, Site, Waiting;
    var s := queue[|queue| - 1].0;
    var queue' := [queue[|queue| - 1]] + queue[..|queue| - 1];
    DeferralKeeps(stmts, f, st, Site(stmts, f, st), cm, code, visited, s, given);
    Rotates(queue);
    CoveredReordered(stmts, f, visited, queue, queue');
    QueueRotates(stmts, f, st, Site(stmts, f, st), cm, visited, queue);
    SiteWaits(stmts, f, st, visited, queue);
    WaitingRotates(stmts, visited, queue);
  }

  lemma SiteWaits(stmts: seq<Statement>, f: Function, st: Structure, visited: set<StmtIdx>, queue: Queue)
    requires ValidStructure(stmts, f, st) && Covered(stmts, f, visited, queue) && st.recursive &&
             Site(stmts, f, st) !! visited
    ensures Waiting(stmts, visited, queue) < |queue|
  {
    hide ValidStructure, Covered, Waiting;
    SiteExists(stmts, f, st);
    var site :| site in Site(stmts, f, st);
    SomethingToDo(stmts, f, st, visited, queue, site);
  }

  lemma QueueRotates(stmts: seq<Statement>, f: Function, st: Structure, site: set<StmtIdx>, cm: map<StmtIdx, RegMap>,
                     visited: set<StmtIdx>, queue: Queue)
    requires GoodQueue(stmts, f, st, site, cm, visited, queue) && queue != []
    ensures GoodQueue(stmts, f, st, site, cm, visited, [queue[|queue| - 1]] + queue[..|queue| - 1])
  {
    hide GoodState;
    var queue' := [queue[|queue| - 1]] + queue[..|queue| - 1];
    forall i | 0 <= i < |queue'| ensures GoodState(stmts, f, st, site, cm, visited, queue'[i].0, queue'[i].1) {
      assert queue'[i] == queue[if i == 0 then |queue| - 1 else i - 1];
    }
  }

  lemma SiteExists(stmts: seq<Statement>, f: Function, st: Structure)
    requires ValidStructure(stmts, f, st) && st.recursive
    ensures exists s :: s in Site(stmts, f, st)
  {
    assert |TailCalls(stmts, f, st.states)| == 1;
    hide ValidStructure;
    var s :| s in TailCalls(stmts, f, st.states);
    assert s in Site(stmts, f, st);
  }

  lemma SkipsVisited(stmts: seq<Statement>, f: Function, st: Structure, cm: map<StmtIdx, RegMap>,
                     visited: set<StmtIdx>, queue: Queue, code: Code, tail: Option<StmtIdx>)
    requires InProgress(stmts, f, st, cm, visited, queue, code, tail) && queue != []
    requires queue[|queue| - 1].0 in visited
    ensures InProgress(stmts, f, st, cm, visited, queue[..|queue| - 1], code, tail)
  {
    hide Emitted, Recorded, Covered, GoodState, Site;
    Skips(queue, visited);
    CoveredReordered(stmts, f, visited, queue, queue[..|queue| - 1]);
  }

  lemma Finishes(stmts: seq<Statement>, f: Function, st: Structure, cm: map<StmtIdx, RegMap>,
                 visited: set<StmtIdx>, code: Code, tail: Option<StmtIdx>)
    requires ValidStructure(stmts, f, st) && InProgress(stmts, f, st, cm, visited, [], code, tail)
    ensures visited == st.states.Keys
    ensures Lowered(stmts, f, st, Site(stmts, f, st), cm, code)
  {
    hide Emitted, Covered, GoodQueue, ValidStructure, Recorded, ValidRegisters, Lowered;
    AllProcessed(stmts, f, st, Site(stmts, f, st), cm, visited);
    RegistersValid(stmts, f, st, Site(stmts, f, st), cm);
    RecordedKeys(stmts, f, st, Site(stmts, f, st), cm, visited);
    EmittedIsLowered(stmts, f, st, Site(stmts, f, st), cm, code);
  }

  lemma RegistersValid(stmts: seq<Statement>, f: Function, st: Structure, site: set<StmtIdx>, cm: map<StmtIdx, RegMap>)
    requires Recorded(stmts, f, st, site, cm, st.states.Keys)
    ensures ValidRegisters(stmts, f, st, site, cm)
  {
    hide LandingRegs, EntryRegs, HasEdge;
  }

  lemma AllProcessed(stmts: seq<Statement>, f: Function, st: Structure, site: set<StmtIdx>, cm: map<StmtIdx, RegMap>,
                     visited: set<StmtIdx>)
    requires ValidStructure(stmts, f, st) && Recorded(stmts, f, st, site, cm, visited) && Covered(stmts, f, visited, [])
    ensures visited == st.states.Keys
  {
    hide ValidStructure;
    ClosedAtEnd(stmts, f, visited);
    ReachedWithin(stmts, f, st, visited);
    RecordedKeys(stmts, f, st, site, cm, visited);
  }

  lemma EmittedIsLowered(stmts: seq<Statement>, f: Function, st: Structure, site: set<StmtIdx>,
                         cm: map<StmtIdx, RegMap>, code: Code)
    requires Emitted(stmts, f, st, site, cm, code, st.states.Keys) && cm.Keys == st.states.Keys
    requires ValidRegisters(stmts, f, st, site, cm) && site == Site(stmts, f, st)
    ensures Lowered(stmts, f, st, site, cm, code)
  {
    hide LoweredBody, LoweredLanding, LoweredEntry, ValidRegisters, Arities, Untouched, MayBeDeferred;
    forall s | s in cm ensures BodyEmitted(stmts, f, st, site, cm, code, s) {
    }
  }

  lemma ClosedAtEnd(stmts: seq<Statement>, f: Function, visited: set<StmtIdx>)
    requires Covered(stmts, f, visited, [])
    ensures Closed(stmts, visited) && f.entry in visited
  {
    forall s, t | s in visited && s < |stmts| && t in Targets(stmts, s) ensures t in visited {
      var b :| 0 <= b < |Branches(stmts[s])| && t == Next(s, Branches(stmts[s])[b].target);
      assert IsEdge(stmts, s, b, t);
    }
  }

  lemma LibfuncEmits(stmts: seq<Statement>, f: Function, st: Structure, cm: map<StmtIdx, RegMap>,
                     visited: set<StmtIdx>, code: Code, s: StmtIdx, given: RegMap, arities: seq<nat>, edges: seq<Edge>)
    requires Emitted(stmts, f, st, Site(stmts, f, st), cm, code, visited)
    requires s in st.states && s < |stmts| && s !in visited && stmts[s].Invocation? && s !in Site(stmts, f, st)
    requires forall x :: x in Operands(stmts[s]) ==> x in given
    requires |edges| == |arities| == |stmts[s].branches|
    requires forall b :: 0 <= b < |arities| ==> arities[b] == |stmts[s].branches[b].results|
    requires forall b :: 0 <= b < |edges| ==> IsEdgeFor(stmts, st, s, stmts[s].branches[b], Rest(given, stmts[s].args),
                                                        edges[b])
    ensures Emits(stmts, f, st, cm, code,
                  Append(EmitLanding(stmts, st, code, s, given), Body(s),
                         RunLibfunc(stmts[s].libfunc, s, arities, edges)), s, given)
  {
    hide LoweredBody, LoweredLanding, LoweredEntry, EmitLanding, Arities, Untouched, MayBeDeferred, OnlyAt, IsEdgeFor,
         Site;
    var mid := EmitLanding(stmts, st, code, s, given);
    LandingEmitted(stmts, f, st, code, visited, s, given, cm[s := given]);
    BodyArity(stmts, f, st, mid, s);
    LibfuncEmitted(stmts, f, st, Site(stmts, f, st), cm[s := given], mid, s, arities, edges);
    BodyEmits(stmts, f, st, cm[s := given], code, mid, s, RunLibfunc(stmts[s].libfunc, s, arities, edges));
  }

  lemma BodyArity(stmts: seq<Statement>, f: Function, st: Structure, code: Code, s: StmtIdx)
    requires Arities(stmts, f, st, code.arity) && s in st.states && s < |stmts|
    ensures Body(s) in code.arity && code.arity[Body(s)] == |Operands(stmts[s])|
    ensures Resume(s) in code.arity ==> code.arity[Resume(s)] == |f.retTypes|
  {
  }

  /** Appending to the body after the landing block was emitted. */
  lemma BodyEmits(stmts: seq<Statement>, f: Function, st: Structure, cm: map<StmtIdx, RegMap>, code: Code, mid: Code,
                  s: StmtIdx, t: Terminator)
    requires s < |stmts| && s in st.states && s in cm && OnlyAt(code, mid, s)
    requires st.HasLanding(s) && !MayBeDeferred(stmts, st, s) ==> LoweredLanding(stmts, st, cm, mid, s)
    ensures OnlyAt(code, Append(mid, Body(s), t), s)
    ensures st.HasLanding(s) && !MayBeDeferred(stmts, st, s) ==>
            LoweredLanding(stmts, st, cm, Append(mid, Body(s), t), s)
  {
    hide MayBeDeferred;
    AppendOnlyAt(mid, Body(s), t);
    OnlyAtTrans(code, mid, Append(mid, Body(s), t), s);
  }

  lemma ReturnEmits(stmts: seq<Statement>, f: Function, st: Structure, cm: map<StmtIdx, RegMap>,
                    visited: set<StmtIdx>, code: Code, s: StmtIdx, given: RegMap, t: Terminator)
    requires Emitted(stmts, f, st, Site(stmts, f, st), cm, code, visited)
    requires s in st.states && s < |stmts| && s !in visited && stmts[s].Return?
    requires forall x :: x in Operands(stmts[s]) ==> x in given
    requires var values := Lookup(given, stmts[s].vars);
             if Site(stmts, f, st) == {} then t == ReturnPlain(values)
             else |stmts[s].vars| == |f.retTypes| && HasReturnPointer(f) != NoPointer
                  && t.ReturnTail? && t.values == values
                  && t.passed == TailValues(HasReturnPointer(f), f.retTypes, values)
                  && t.resume.Resume? && t.resume.stmt in Site(stmts, f, st)
    ensures Emits(stmts, f, st, cm, code, Append(EmitLanding(stmts, st, code, s, given), Body(s), t), s, given)
  {
    hide LoweredBody, LoweredLanding, LoweredEntry, EmitLanding, Arities, Untouched, MayBeDeferred, OnlyAt, Site,
         TailValues;
    var mid := EmitLanding(stmts, st, code, s, given);
    LandingEmitted(stmts, f, st, code, visited, s, given, cm[s := given]);
    BodyArity(stmts, f, st, mid, s);
    ReturnEmitted(stmts, f, st, Site(stmts, f, st), cm[s := given], mid, s, t);
    BodyEmits(stmts, f, st, cm[s := given], code, mid, s, t);
  }

  lemma TailCallEmits(stmts: seq<Statement>, f: Function, st: Structure, cm: map<StmtIdx, RegMap>,
                      visited: set<StmtIdx>, code: Code, s: StmtIdx, given: RegMap, edge: Edge)
    requires Emitted(stmts, f, st, Site(stmts, f, st), cm, code, visited)
    requires s in st.states && s < |stmts| && s !in visited && stmts[s].Invocation? && s in Site(stmts, f, st)
    requires forall x :: x in Operands(stmts[s]) ==> x in given
    requires |stmts[s].branches| == 1 && |stmts[s].branches[0].results| == |f.retTypes|
    requires IsEdgeFor(stmts, st, s, stmts[s].branches[0], Rest(given, stmts[s].args), edge)
    ensures Emits(stmts, f, st, cm, code, EmitTailCall(f, EmitLanding(stmts, st, code, s, given), s, edge), s, given)
  {
    hide LoweredBody, LoweredLanding, LoweredEntry, EmitLanding, Arities, Untouched, MayBeDeferred, OnlyAt, IsEdgeFor,
         Site, EmitTailCall;
    var mid := EmitLanding(stmts, st, code, s, given);
    LandingEmitted(stmts, f, st, code, visited, s, given, cm[s := given]);
    BodyArity(stmts, f, st, mid, s);
    TailCallEmitted(stmts, f, st, Site(stmts, f, st), cm[s := given], mid, s, edge);
    OnlyAtTrans(code, mid, EmitTailCall(f, mid, s, edge), s);
    TailCallKeeps(stmts, f, st, cm[s := given], mid, s, edge);
  }

  lemma TailCallKeeps(stmts: seq<Statement>, f: Function, st: Structure, cm: map<StmtIdx, RegMap>, code: Code,
                      s: StmtIdx, edge: Edge)
    requires s < |stmts| && s in st.states && s in cm && Arities(stmts, f, st, code.arity)
    ensures Arities(stmts, f, st, EmitTailCall(f, code, s, edge).arity)
    ensures LoweredLanding(stmts, st, cm, code, s) ==> LoweredLanding(stmts, st, cm, EmitTailCall(f, code, s, edge), s)
  {
    hide LandingVars;
  }

  /** The results of the statements processed, in order. */
  ghost predicate InOrder(processed: seq<StmtIdx>, visited: set<StmtIdx>) {
    NoDup(processed) && IdSet(processed) == visited
  }

  lemma InOrderNext(processed: seq<StmtIdx>, visited: set<StmtIdx>, s: StmtIdx)
    requires InOrder(processed, visited) && s !in visited
    ensures InOrder(processed + [s], visited + {s})
  {
    forall x ensures x in IdSet(processed + [s]) <==> x in visited + {s} {
      assert x in IdSet(processed) <==> x in visited;
    }
    forall i | 0 <= i < |processed| ensures processed[i] != s {
      assert processed[i] in IdSet(processed);
    }
  }

  lemma Shrinks(st: Structure, visited: set<StmtIdx>, s: StmtIdx)
    requires s in st.states && s !in visited
    ensures |st.states.Keys - (visited + {s})| < |st.states.Keys - visited|
  {
    assert st.states.Keys - (visited + {s}) == (st.states.Keys - visited) - {s};
  }

  /** The second pass. It ends although returns may be put off; every reachable statement is
      processed exactly once; and what it emits is the lowering of the function. It gives up
      only on a tail-recursive function that returns nothing, or one plain value. */
  method GenerateCode(stmts: seq<Statement>, f: Function, st: Structure)
    returns (r: Option<Code>, ghost cm: map<StmtIdx, RegMap>, processed: seq<StmtIdx>)
    requires ValidStructure(stmts, f, st) && RegisteredCalls(stmts, f, st)
    ensures r.Some? ==> Lowered(stmts, f, st, Site(stmts, f, st), cm, r.value)
    ensures r.Some? ==> NoDup(processed) && IdSet(processed) == st.states.Keys
    ensures r.None? ==> st.recursive && HasReturnPointer(f) == NoPointer
                        && exists s :: s in st.states && s < |stmts| && stmts[s].Return?
  {
    hide ValidStructure, InProgress, Given, EmitLanding, EmitTailCall, Append, Emits, Successors, IsEdgeFor, GoodState,
         StartCode, Emitted, CanTake, InOrder, Waiting, Site, TailCalls, RegisteredCalls, HasOperands, TailValues,
         Lowered, Lookup, NoDup, EdgesFor, HasReturnPointer, Known, EntryRegs, IdSet, Rest;
    StartFacts(stmts, f, st);
    var code := StartCode(stmts, f, st);
    Starts(stmts, f, st);
    var queue: Queue := [(f.entry, EntryRegs(f))];
    var visited: set<StmtIdx> := {};
    var tail: Option<StmtIdx> := None;
    cm, processed := map[], [];
    assert InOrder(processed, visited) by { NoneInOrder(); }
    while queue != []
      invariant InProgress(stmts, f, st, cm, visited, queue, code, tail)
      invariant InOrder(processed, visited)
      decreases |st.states.Keys - visited|, |queue|, if tail.None? then Waiting(stmts, visited, queue) else 0
    {
      var (s, regs) := queue[|queue| - 1];
      if s in visited {
        SkipsVisited(stmts, f, st, cm, visited, queue, code, tail);
        queue := queue[..|queue| - 1];
        continue;
      }
      TopFacts(stmts, f, st, cm, visited, queue, code, tail);
      var given := Given(st, s, regs);
      TakesOperands(given, Operands(stmts[s]));
      var landed := EmitLanding(stmts, st, code, s, given);
      var code', tail' := landed, tail;
      var rest := Rest(given, Operands(stmts[s]));
      if stmts[s].Return? {
        ReturnSite(stmts, f, st, cm, visited, queue, code, tail, s);
        var values := Lookup(given, stmts[s].vars);
        if !st.recursive {
          code' := Append(landed, Body(s), ReturnPlain(values));
          ReturnEmits(stmts, f, st, cm, visited, code, s, given, ReturnPlain(values));
        } else if tail.None? {
          Defers(stmts, f, st, cm, visited, queue, code, given);
          code, queue := landed, [(s, regs)] + queue[..|queue| - 1];
          continue;
        } else if HasReturnPointer(f) == NoPointer {
          return None, cm, processed;
        } else {
          var t := ReturnTail(values, TailValues(HasReturnPointer(f), f.retTypes, values), Resume(tail.value));
          code' := Append(landed, Body(s), t);
          ReturnEmits(stmts, f, st, cm, visited, code, s, given, t);
        }
      } else {
        SiteTest(stmts, f, st, s, given);
        EdgesDefined(stmts, f, st, s, given);
        EmittedSoFar(stmts, f, st, cm, visited, queue, code, tail);
        var edges := EdgesFor(stmts, st, s, rest);
        if st.recursive && stmts[s].libfunc == Call(f.id) && rest == map[] {
          SelfCall(stmts, f, st, s);
          code', tail' := EmitTailCall(f, landed, s, edges[0]), Some(s);
          TailCallEmits(stmts, f, st, cm, visited, code, s, given, edges[0]);
        } else {
          var branches := stmts[s].branches;
          var arities := seq(|branches|, b requires 0 <= b < |branches| => |branches[b].results|);
          code' := Append(landed, Body(s), RunLibfunc(stmts[s].libfunc, s, arities, edges));
          LibfuncEmits(stmts, f, st, cm, visited, code, s, given, arities, edges);
        }
      }
      Advances(stmts, f, st, cm, visited, queue, code, tail, code', tail');
      Shrinks(st, visited, s);
      InOrderNext(processed, visited, s);
      code, tail, queue := code', tail', queue[..|queue| - 1] + Successors(stmts, Site(stmts, f, st), s, rest);
      cm, visited, processed := cm[s := given], visited + {s}, processed + [s];
    }
    Finishes(stmts, f, st, cm, visited, code, tail);
    assert NoDup(processed) && IdSet(processed) == st.states.Keys by { OrderIs(processed, visited); }
    r := Some(code);
  }

  lemma NoneInOrder()
    ensures InOrder([], {})
  {
  }

  lemma OrderIs(processed: seq<StmtIdx>, visited: set<StmtIdx>)
    requires InOrder(processed, visited)
    ensures NoDup(processed) && IdSet(processed) == visited
  {
  }

  lemma TakesOperands(given: RegMap, ops: seq<VarId>)
    requires CanTake(given, ops)
    ensures forall x :: x in ops ==> x in given
  {
  }

  lemma EmittedSoFar(stmts: seq<Statement>, f: Function, st: Structure, cm: map<StmtIdx, RegMap>,
                     visited: set<StmtIdx>, queue: Queue, code: Code, tail: Option<StmtIdx>)
    requires InProgress(stmts, f, st, cm, visited, queue, code, tail)
    ensures Emitted(stmts, f, st, Site(stmts, f, st), cm, code, visited)
  {
  }

  lemma ReturnSite(stmts: seq<Statement>, f: Function, st: Structure, cm: map<StmtIdx, RegMap>,
                   visited: set<StmtIdx>, queue: Queue, code: Code, tail: Option<StmtIdx>, s: StmtIdx)
    requires InProgress(stmts, f, st, cm, visited, queue, code, tail) && RegisteredCalls(stmts, f, st)
    requires s in st.states && s < |stmts| && stmts[s].Return?
    ensures Emitted(stmts, f, st, Site(stmts, f, st), cm, code, visited)
    ensures tail.Some? ==> tail.value in Site(stmts, f, st)
    ensures !st.recursive ==> Site(stmts, f, st) == {}
    ensures s !in Site(stmts, f, st) && |stmts[s].vars| == |f.retTypes|
    ensures Branches(stmts[s]) == []
  {
    hide Emitted, Recorded, GoodQueue, Covered;
  }

  lemma EdgesDefined(stmts: seq<Statement>, f: Function, st: Structure, s: StmtIdx, given: RegMap)
    requires ValidStructure(stmts, f, st) && s in st.states && s < |stmts| && given.Keys == st.states[s].Keys
    ensures forall b :: 0 <= b < |Branches(stmts[s])| ==>
              HasOperands(stmts, st, s, Branches(stmts[s])[b], Rest(given, Operands(stmts[s])))
  {
    hide ValidStructure, HasOperands;
    forall b | 0 <= b < |Branches(stmts[s])|
      ensures HasOperands(stmts, st, s, Branches(stmts[s])[b], Rest(given, Operands(stmts[s])))
    {
      OperandsDefined(stmts, f, st, s, given, b);
    }
  }

  lemma SelfCall(stmts: seq<Statement>, f: Function, st: Structure, s: StmtIdx)
    requires RegisteredCalls(stmts, f, st) && s in st.states && s < |stmts|
    requires stmts[s].Invocation? && stmts[s].libfunc == Call(f.id)
    ensures |stmts[s].branches| == 1 && |stmts[s].branches[0].results| == |f.retTypes|
  {
  }
}
