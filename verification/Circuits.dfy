/** Counting a circuit's gates by resolving its wires as an evaluation would. */
module Circuits {
  import opened Options

  /** An equation between wires: the left operand and the right one give the output. */
  datatype Gate = Gate(lhs: nat, rhs: nat, output: nat)

  datatype Kind = Add | Sub | Mul | Inverse

  /** A gate that was used, and the wire that it resolved. */
  datatype Use = Use(kind: Kind, gate: Gate) {
    predicate Forward() {
      kind.Add? || kind.Mul?
    }

    function Wire(): nat {
      if Forward() then gate.output else gate.lhs
    }

    predicate OfMul() {
      kind.Mul? || kind.Inverse?
    }
  }

  // ----- a log of uses -----

  /** The wires known at first: the constant and the inputs. */
  predicate Given(inputs: nat, wire: nat) {
    wire <= inputs
  }

  predicate Resolved(log: seq<Use>, wire: nat) {
    exists i :: 0 <= i < |log| && log[i].Wire() == wire
  }

  predicate Known(inputs: nat, log: seq<Use>, wire: nat) {
    Given(inputs, wire) || Resolved(log, wire)
  }

  /** A gate resolves a wire that is not known from two that are. */
  predicate Justified(inputs: nat, before: seq<Use>, u: Use) {
    && !Known(inputs, before, u.Wire())
    && Known(inputs, before, u.gate.rhs)
    && Known(inputs, before, if u.Forward() then u.gate.lhs else u.gate.output)
  }

  predicate AllJustified(inputs: nat, log: seq<Use>) {
    forall i :: 0 <= i < |log| ==> Justified(inputs, log[..i], log[i])
  }

  function Count(log: seq<Use>, kind: Kind): nat {
    if log == [] then 0
    else Count(log[..|log| - 1], kind) + if log[|log| - 1].kind == kind then 1 else 0
  }

  /** The gates of one queue, in the order they were used. */
  function Gates(log: seq<Use>, ofMul: bool): seq<Gate> {
    if log == [] then []
    else
      var init := Gates(log[..|log| - 1], ofMul);
      if log[|log| - 1].OfMul() == ofMul then init + [log[|log| - 1].gate] else init
  }

  lemma {:induction false} CountsAddUp(log: seq<Use>)
    ensures |log| == Count(log, Add) + Count(log, Sub) + Count(log, Mul) + Count(log, Inverse)
    ensures |Gates(log, false)| == Count(log, Add) + Count(log, Sub)
    ensures |Gates(log, true)| == Count(log, Mul) + Count(log, Inverse)
  {
    if log != [] {
      CountsAddUp(log[..|log| - 1]);
    }
  }

  lemma Append(log: seq<Use>, u: Use)
    ensures (log + [u])[..|log|] == log
    ensures forall kind :: Count(log + [u], kind) == Count(log, kind) + if u.kind == kind then 1 else 0
    ensures Gates(log + [u], u.OfMul()) == Gates(log, u.OfMul()) + [u.gate]
    ensures Gates(log + [u], !u.OfMul()) == Gates(log, !u.OfMul())
    ensures forall wire :: Resolved(log + [u], wire) <==> Resolved(log, wire) || wire == u.Wire()
  {
    assert (log + [u])[..|log|] == log;
    forall wire ensures Resolved(log + [u], wire) <==> Resolved(log, wire) || wire == u.Wire() {
      if Resolved(log, wire) {
        var i :| 0 <= i < |log| && log[i].Wire() == wire;
        assert (log + [u])[i].Wire() == wire;
      }
      if wire == u.Wire() {
        assert (log + [u])[|log|].Wire() == wire;
      }
    }
  }

  lemma StillJustified(inputs: nat, log: seq<Use>, u: Use)
    requires AllJustified(inputs, log) && Justified(inputs, log, u)
    ensures AllJustified(inputs, log + [u])
  {
    hide Justified;
    var more := log + [u];
    forall i | 0 <= i < |more| ensures Justified(inputs, more[..i], more[i]) {
      if i < |log| {
        assert more[..i] == log[..i] && Justified(inputs, log[..i], log[i]);
      } else {
        assert more[..i] == log;
      }
    }
  }

  /** No wire is resolved twice, and none that was given. */
  lemma ResolvedOnce(inputs: nat, log: seq<Use>, i: nat, j: nat)
    requires AllJustified(inputs, log) && i < j < |log|
    ensures log[i].Wire() != log[j].Wire() && !Given(inputs, log[j].Wire())
  {
    assert Justified(inputs, log[..j], log[j]);
    assert log[..j][i].Wire() == log[i].Wire();
  }

  /** The table of known wires says which ones the log resolved. */
  ghost predicate Matches(known: seq<bool>, inputs: nat, log: seq<Use>) {
    forall w :: 0 <= w < |known| ==> (known[w] <==> Known(inputs, log, w))
  }

  function Trues(known: seq<bool>): nat {
    if known == [] then 0 else Trues(known[..|known| - 1]) + if known[|known| - 1] then 1 else 0
  }

  lemma {:induction false} OneMoreTrue(known: seq<bool>, w: nat)
    requires w < |known| && !known[w]
    ensures Trues(known[w := true]) == Trues(known) + 1
  {
    var last := |known| - 1;
    if w < last {
      OneMoreTrue(known[..last], w);
      assert known[w := true][..last] == known[..last][w := true];
    } else {
      assert known[w := true][..last] == known[..last];
    }
  }

  lemma {:induction false} FirstTrues(known: seq<bool>, n: nat)
    requires n <= |known| && forall i :: 0 <= i < |known| ==> (known[i] <==> i < n)
    ensures Trues(known) == n
  {
    if known != [] {
      FirstTrues(known[..|known| - 1], if n < |known| then n else n - 1);
    }
  }

  /** One more wire is resolved. */
  lemma Resolve(known: seq<bool>, inputs: nat, log: seq<Use>, u: Use)
    requires Matches(known, inputs, log) && AllJustified(inputs, log)
    requires u.gate.lhs < |known| && u.gate.rhs < |known| && u.gate.output < |known|
    requires !known[u.Wire()] && known[u.gate.rhs] && known[if u.Forward() then u.gate.lhs else u.gate.output]
    requires Trues(known) == 1 + inputs + |log|
    ensures Matches(known[u.Wire() := true], inputs, log + [u]) && AllJustified(inputs, log + [u])
    ensures Trues(known[u.Wire() := true]) == 1 + inputs + |log + [u]|
  {
    hide Resolved, AllJustified;
    Append(log, u);
    assert Justified(inputs, log, u);
    StillJustified(inputs, log, u);
    OneMoreTrue(known, u.Wire());
  }

  predicate InRange(gates: seq<Gate>, wires: nat) {
    forall g :: g in gates ==> g.lhs < wires && g.rhs < wires && g.output < wires
  }

  /** The gate cannot be used as it stands: its wires are not known in the right combination. */
  predicate Blocked(inputs: nat, log: seq<Use>, g: Gate) {
    var l, r, o := Known(inputs, log, g.lhs), Known(inputs, log, g.rhs), Known(inputs, log, g.output);
    !(l && r && !o) && !(!l && r && o)
  }

  lemma NothingUsed(known: seq<bool>, inputs: nat)
    requires |known| > inputs && forall i :: 0 <= i < |known| ==> (known[i] <==> i <= inputs)
    ensures Matches(known, inputs, []) && AllJustified(inputs, []) && Trues(known) == 1 + inputs
    ensures Gates([], false) == [] && Gates([], true) == [] && forall kind :: Count([], kind) == 0
  {
    FirstTrues(known, 1 + inputs);
  }

  class Statistics {
    var addGates: nat
    var subGates: nat
    var mulGates: nat
    var inverseGates: nat

    /** Uses add gates while they can be used, then one mul gate, and so on. On success every mul gate
        has been used, and add gates are left only behind one that is blocked; it fails at a mul gate
        that is blocked while the next add gate, if any, is as well. */
    method AddCircuitGates(inputs: nat, values: nat, adds: seq<Gate>, muls: seq<Gate>)
        returns (ok: bool, ghost log: seq<Use>, ghost final: seq<bool>)
      requires InRange(adds, 1 + inputs + values) && InRange(muls, 1 + inputs + values)
      modifies this
      ensures AllJustified(inputs, log)
      ensures |final| == 1 + inputs + values && Matches(final, inputs, log) && Trues(final) == 1 + inputs + |log|
      ensures Gates(log, false) <= adds && Gates(log, true) <= muls
      ensures addGates == old(addGates) + Count(log, Add) && subGates == old(subGates) + Count(log, Sub)
      ensures mulGates == old(mulGates) + Count(log, Mul) && inverseGates == old(inverseGates) + Count(log, Inverse)
      ensures |Gates(log, false)| < |adds| ==> Blocked(inputs, log, adds[|Gates(log, false)|])
      ensures ok <==> Gates(log, true) == muls
      ensures !ok ==> |Gates(log, true)| < |muls| && Blocked(inputs, log, muls[|Gates(log, true)|])
    {
      hide AllJustified, Resolved, Gates, Count, Trues, Matches, Blocked, InRange;
      log := [];
      var known := new bool[1 + inputs + values](i => i <= inputs);
      var i, j := 0, 0;
      ghost var a0, s0, m0, i0 := addGates, subGates, mulGates, inverseGates;
      NothingUsed(known[..], inputs);
      while true
        invariant 0 <= i <= |adds| && 0 <= j <= |muls| && fresh(known) && known.Length == 1 + inputs + values
        invariant Matches(known[..], inputs, log) && AllJustified(inputs, log) && Trues(known[..]) == 1 + inputs + |log|
        invariant Gates(log, false) == adds[..i] && Gates(log, true) == muls[..j]
        invariant addGates == a0 + Count(log, Add) && subGates == s0 + Count(log, Sub)
        invariant mulGates == m0 + Count(log, Mul) && inverseGates == i0 + Count(log, Inverse)
        decreases |muls| - j
      {
        i, log := UseAdds(known, inputs, adds, muls, i, j, log);
        if j == |muls| {
          ok := true;
          break;
        }
        ok, log := UseMul(known, inputs, adds, muls, i, j, log);
        if !ok {
          break;
        }
        j := j + 1;
      }
      final := known[..];
    }

    /** Uses the next mul gate, if it is not blocked. */
    method UseMul(known: array<bool>, inputs: nat, ghost adds: seq<Gate>, muls: seq<Gate>, ghost i: nat, j: nat,
                  ghost start: seq<Use>)
      returns (ok: bool, ghost log: seq<Use>)
      requires i <= |adds| && j < |muls| && InRange(muls, known.Length)
      requires Matches(known[..], inputs, start) && AllJustified(inputs, start)
      requires Trues(known[..]) == 1 + inputs + |start|
      requires Gates(start, false) == adds[..i] && Gates(start, true) == muls[..j]
      modifies this`mulGates, this`inverseGates, known
      ensures Matches(known[..], inputs, log) && AllJustified(inputs, log) && Trues(known[..]) == 1 + inputs + |log|
      ensures Gates(log, false) == adds[..i] && Gates(log, true) == muls[..if ok then j + 1 else j]
      ensures mulGates - Count(log, Mul) == old(mulGates) - Count(start, Mul)
      ensures inverseGates - Count(log, Inverse) == old(inverseGates) - Count(start, Inverse)
      ensures Count(log, Add) == Count(start, Add) && Count(log, Sub) == Count(start, Sub)
      ensures !ok ==> log == start && Blocked(inputs, log, muls[j])
    {
      hide AllJustified, Resolved, Gates, Count, Trues;
      log := start;
      var g := muls[j];
      ok := true;
      if known[g.lhs] && known[g.rhs] && !known[g.output] {
        Resolve(known[..], inputs, log, Use(Mul, g));
        Append(log, Use(Mul, g));
        log := log + [Use(Mul, g)];
        mulGates := mulGates + 1;
        known[g.output] := true;
      } else if !known[g.lhs] && known[g.rhs] && known[g.output] {
        Resolve(known[..], inputs, log, Use(Inverse, g));
        Append(log, Use(Inverse, g));
        log := log + [Use(Inverse, g)];
        inverseGates := inverseGates + 1;
        known[g.lhs] := true;
      } else {
        ok := false;
      }
    }

    /** Uses add gates until one is blocked. */
    method UseAdds(known: array<bool>, inputs: nat, adds: seq<Gate>, ghost muls: seq<Gate>, from: nat, ghost j: nat,
                   ghost start: seq<Use>)
      returns (i: nat, ghost log: seq<Use>)
      requires from <= |adds| && j <= |muls| && InRange(adds, known.Length)
      requires Matches(known[..], inputs, start) && AllJustified(inputs, start)
      requires Trues(known[..]) == 1 + inputs + |start|
      requires Gates(start, false) == adds[..from] && Gates(start, true) == muls[..j]
      modifies this`addGates, this`subGates, known
      ensures i <= |adds| && Matches(known[..], inputs, log) && AllJustified(inputs, log)
      ensures Trues(known[..]) == 1 + inputs + |log|
      ensures Gates(log, false) == adds[..i] && Gates(log, true) == muls[..j]
      ensures addGates - Count(log, Add) == old(addGates) - Count(start, Add)
      ensures subGates - Count(log, Sub) == old(subGates) - Count(start, Sub)
      ensures Count(log, Mul) == Count(start, Mul) && Count(log, Inverse) == Count(start, Inverse)
      ensures i < |adds| ==> Blocked(inputs, log, adds[i])
    {
      hide AllJustified, Resolved, Gates, Count, Trues;
      i, log := from, start;
      while i < |adds|
        invariant from <= i <= |adds| && Matches(known[..], inputs, log) && AllJustified(inputs, log)
        invariant Trues(known[..]) == 1 + inputs + |log|
        invariant Gates(log, false) == adds[..i] && Gates(log, true) == muls[..j]
        invariant addGates - Count(log, Add) == old(addGates) - Count(start, Add)
        invariant subGates - Count(log, Sub) == old(subGates) - Count(start, Sub)
        invariant Count(log, Mul) == Count(start, Mul) && Count(log, Inverse) == Count(start, Inverse)
      {
        var g := adds[i];
        if known[g.lhs] && known[g.rhs] && !known[g.output] {
          Resolve(known[..], inputs, log, Use(Add, g));
          Append(log, Use(Add, g));
          log := log + [Use(Add, g)];
          addGates := addGates + 1;
          known[g.output] := true;
        } else if !known[g.lhs] && known[g.rhs] && known[g.output] {
          Resolve(known[..], inputs, log, Use(Sub, g));
          Append(log, Use(Sub, g));
          log := log + [Use(Sub, g)];
          subGates := subGates + 1;
          known[g.lhs] := true;
        } else {
          break;
        }
        i := i + 1;
      }
    }
  }
}
