/** Nested invocations: each replaces the thread's run-time state and puts it back when it ends, after
    dropping the maps of the dictionaries it made and before releasing the arena they are in. */
module Invocations {
  import opened Options

  type ArenaId = nat
  type Costs(==, !new, 0)
  type Handler = nat

  datatype Dict = Dict(id: nat, arena: ArenaId)

  /** What running code does to the thread's state; an invocation may be nested in another. */
  datatype Action = DictNew | BlakeCall | Invocation(costs: Costs, handler: Option<Handler>, body: seq<Action>)

  datatype Event = Created(dict: Dict) | MapDropped(dict: Dict) | Released(arena: ArenaId)

  /** The next ids that are not in use. */
  datatype Ids = Ids(dict: nat, arena: ArenaId)

  // ----- what happens, as a function of the tree -----

  datatype Outcome = Outcome(events: seq<Event>, registry: seq<Dict>, ids: Ids)

  function Drops(registry: seq<Dict>): seq<Event> {
    seq(|registry|, i requires 0 <= i < |registry| => MapDropped(registry[i]))
  }

  /** The events of an invocation, and the ids left after it. */
  function Trace(inv: Action, ids: Ids): (seq<Event>, Ids)
    requires inv.Invocation?
    decreases inv, 1
  {
    var body := BodyTrace(inv.body, ids.arena, ids.(arena := ids.arena + 1));
    (body.events + Drops(body.registry) + [Released(ids.arena)], body.ids)
  }

  function BodyTrace(body: seq<Action>, arena: ArenaId, ids: Ids): Outcome
    decreases body, 0
  {
    if body == [] then Outcome([], [], ids)
    else
      var init := BodyTrace(body[..|body| - 1], arena, ids);
      match body[|body| - 1]
      case DictNew =>
        var d := Dict(init.ids.dict, arena);
        Outcome(init.events + [Created(d)], init.registry + [d], init.ids.(dict := init.ids.dict + 1))
      case BlakeCall => init
      case Invocation(_, _, _) =>
        var (events, ids') := Trace(body[|body| - 1], init.ids);
        Outcome(init.events + events, init.registry, ids')
  }

  /** How often code calls the blake builtin itself, not counting invocations within it. */
  function Blakes(body: seq<Action>): nat {
    multiset(body)[BlakeCall]
  }

  lemma NoBlakes(body: seq<Action>)
    ensures Blakes(body[..0]) == 0 && body[..|body|] == body
  {
  }

  lemma BlakesMore(body: seq<Action>, i: nat)
    requires i < |body|
    ensures Blakes(body[..i + 1]) == Blakes(body[..i]) + if body[i].BlakeCall? then 1 else 0
  {
    assert body[..i + 1] == body[..i] + [body[i]];
  }

  // ----- the thread's state -----

  datatype Guard = Guard(builtinCosts: Costs, blakeCalls: nat, arena: ArenaId, registry: seq<Dict>,
                         handler: Option<Handler>)

  class Thread {
    var builtinCosts: Costs
    var blakeCalls: nat
    var arena: ArenaId
    var registry: seq<Dict>
    var handler: Handler
    var ids: Ids
    var events: seq<Event>

    /** Replaces the state and keeps what it was. */
    method Install(costs: Costs, newHandler: Option<Handler>) returns (guard: Guard)
      modifies this
      ensures guard == Guard(old(builtinCosts), old(blakeCalls), old(arena), old(registry),
                             if newHandler.Some? then Some(old(handler)) else None)
      ensures builtinCosts == costs && blakeCalls == 0 && arena == old(ids.arena) && registry == []
      ensures handler == if newHandler.Some? then newHandler.value else old(handler)
      ensures ids == old(ids).(arena := old(ids.arena) + 1) && events == old(events)
    {
      guard := Guard(builtinCosts, blakeCalls, arena, registry, if newHandler.Some? then Some(handler) else None);
      builtinCosts, blakeCalls := costs, 0;
      arena, ids := ids.arena, ids.(arena := ids.arena + 1);
      registry := [];
      if newHandler.Some? {
        handler := newHandler.value;
      }
    }

    /** Puts the state back. The maps of this invocation's dictionaries go first, then their arena. */
    method DropGuard(guard: Guard)
      modifies this
      ensures builtinCosts == guard.builtinCosts && blakeCalls == guard.blakeCalls
      ensures arena == guard.arena && registry == guard.registry
      ensures handler == if guard.handler.Some? then guard.handler.value else old(handler)
      ensures ids == old(ids) && events == old(events) + Drops(old(registry)) + [Released(old(arena))]
    {
      builtinCosts, blakeCalls := guard.builtinCosts, guard.blakeCalls;
      var mine := registry;
      registry := guard.registry;
      var i := 0;
      while i < |mine|
        invariant 0 <= i <= |mine| && events == old(events) + Drops(mine[..i])
        invariant builtinCosts == guard.builtinCosts && blakeCalls == guard.blakeCalls && registry == guard.registry
        invariant arena == old(arena) && handler == old(handler) && ids == old(ids)
      {
        assert Drops(mine[..i + 1]) == Drops(mine[..i]) + [MapDropped(mine[i])];
        events := events + [MapDropped(mine[i])];
        i := i + 1;
      }
      assert mine[..i] == mine;
      var released := arena;
      arena := guard.arena;
      if guard.handler.Some? {
        handler := guard.handler.value;
      }
      events := events + [Released(released)];
    }

    /** Whatever an invocation does, everything is afterwards as it was before. What is reported are the calls
        of its own code, not those of invocations within it. */
    method Invoke(inv: Action) returns (blakes: nat)
      requires inv.Invocation?
      modifies this
      ensures blakes == Blakes(inv.body)
      ensures builtinCosts == old(builtinCosts) && blakeCalls == old(blakeCalls) && arena == old(arena)
      ensures registry == old(registry) && handler == old(handler)
      ensures events == old(events) + Trace(inv, old(ids)).0 && ids == Trace(inv, old(ids)).1
      decreases inv, 1
    {
      ghost var before, start := events, ids;
      var guard := Install(inv.costs, inv.handler);
      Body(inv.body);
      blakes := blakeCalls;
      DropGuard(guard);
      ghost var body := BodyTrace(inv.body, start.arena, start.(arena := start.arena + 1));
      assert before + body.events + Drops(body.registry) + [Released(start.arena)]
          == before + (body.events + Drops(body.registry) + [Released(start.arena)]);
    }

    method Body(body: seq<Action>)
      requires registry == []
      modifies this
      ensures builtinCosts == old(builtinCosts) && arena == old(arena) && handler == old(handler)
      ensures blakeCalls == old(blakeCalls) + Blakes(body)
      ensures var outcome := BodyTrace(body, old(arena), old(ids));
              events == old(events) + outcome.events && registry == outcome.registry && ids == outcome.ids
      decreases body, 0
    {
      hide Blakes;
      NoBlakes(body);
      var i := 0;
      while i < |body|
        invariant 0 <= i <= |body|
        invariant builtinCosts == old(builtinCosts) && arena == old(arena) && handler == old(handler)
        invariant blakeCalls == old(blakeCalls) + Blakes(body[..i])
        invariant var outcome := BodyTrace(body[..i], old(arena), old(ids));
                  events == old(events) + outcome.events && registry == outcome.registry && ids == outcome.ids
      {
        assert body[..i + 1][..i] == body[..i];
        BlakesMore(body, i);
        match body[i] {
          case DictNew =>
            var d := Dict(ids.dict, arena);
            ids := ids.(dict := ids.dict + 1);
            registry := registry + [d];
            events := events + [Created(d)];
          case BlakeCall => blakeCalls := blakeCalls + 1;
          case Invocation(_, _, _) => var _ := Invoke(body[i]);
        }
        i := i + 1;
      }
      assert body[..i] == body;
    }
  }

  // ----- every tree -----

  /** The arena an event is about. */
  function About(e: Event): ArenaId {
    if e.Released? then e.arena else e.dict.arena
  }

  /** Events that only make or drop dictionaries, and release arenas, with ids from a range; besides,
      they may be about dictionaries in `outer`. */
  ghost predicate InRange(events: seq<Event>, from: Ids, to: Ids, outer: ArenaId) {
    && from.dict <= to.dict && from.arena <= to.arena
    && forall e :: e in events ==>
         && (e.Released? ==> from.arena <= e.arena < to.arena)
         && (!e.Released? ==> from.dict <= e.dict.id < to.dict)
         && (from.arena <= About(e) < to.arena || About(e) == outer)
  }

  /** After an arena is released nothing happens in it. */
  ghost predicate Orderly(events: seq<Event>) {
    forall i, j :: 0 <= i < j < |events| && events[i].Released? ==> About(events[j]) != events[i].arena
  }

  /** How often a dictionary is made and dropped. */
  function Makes(events: seq<Event>, d: Dict): nat {
    multiset(events)[Created(d)]
  }

  function MapDrops(events: seq<Event>, d: Dict): nat {
    multiset(events)[MapDropped(d)]
  }

  lemma OrderlyAppend(a: seq<Event>, b: seq<Event>, from: Ids, mid: Ids, to: Ids, outer: ArenaId)
    requires Orderly(a) && Orderly(b) && InRange(a, from, mid, outer) && InRange(b, mid, to, outer)
    requires outer < from.arena
    ensures Orderly(a + b) && InRange(a + b, from, to, outer)
  {
    forall i, j | 0 <= i < j < |a + b| && (a + b)[i].Released? ensures About((a + b)[j]) != (a + b)[i].arena {
      if i < |a| <= j {
        assert a[i] in a && b[j - |a|] in b;
      }
    }
    forall e | e in a + b ensures e in a || e in b {
    }
  }

  lemma {:induction false} DropsCount(registry: seq<Dict>, d: Dict)
    ensures MapDrops(Drops(registry), d) == multiset(registry)[d] && Makes(Drops(registry), d) == 0
  {
    if registry == [] {
      assert Drops(registry) == [];
    } else {
      var last := |registry| - 1;
      DropsCount(registry[..last], d);
      assert registry == registry[..last] + [registry[last]];
      assert Drops(registry) == Drops(registry[..last]) + [MapDropped(registry[last])];
    }
  }

  ghost predicate RegistryOk(registry: seq<Dict>, arena: ArenaId, from: Ids, to: Ids) {
    forall d :: d in registry ==> d.arena == arena && from.dict <= d.id < to.dict
  }

  /** What a body leaves: every dictionary made so far was dropped once, or is in the registry once. */
  lemma {:induction false} BodyBalanced(body: seq<Action>, arena: ArenaId, ids: Ids, d: Dict)
    requires arena < ids.arena
    ensures var r := BodyTrace(body, arena, ids);
            Makes(r.events, d) == MapDrops(r.events, d) + multiset(r.registry)[d] <= 1
    decreases body, 0
  {
    if body != [] {
      var last := |body| - 1;
      var init := BodyTrace(body[..last], arena, ids);
      BodyBalanced(body[..last], arena, ids, d);
      BodyOrderly(body[..last], arena, ids);
      match body[last] {
        case DictNew => MakeOne(init, arena, ids, d);
        case BlakeCall =>
        case Invocation(_, _, _) =>
          TraceBalanced(body[last], init.ids, d);
          TraceOrderly(body[last], init.ids, arena);
          DisjointCounts(init.events, Trace(body[|body| - 1], init.ids).0, ids, init.ids,
                         Trace(body[|body| - 1], init.ids).1, arena, d);
      }
    }
  }

  lemma MakeOne(init: Outcome, arena: ArenaId, ids: Ids, d: Dict)
    requires InRange(init.events, ids, init.ids, arena)
    requires Makes(init.events, d) == MapDrops(init.events, d) + multiset(init.registry)[d] <= 1
    ensures var d' := Dict(init.ids.dict, arena);
            var (events, registry) := (init.events + [Created(d')], init.registry + [d']);
            Makes(events, d) == MapDrops(events, d) + multiset(registry)[d] <= 1
  {
    if d.id == init.ids.dict {
      NotMadeBefore(init, arena, ids, d);
    }
  }

  lemma NotMadeBefore(init: Outcome, arena: ArenaId, ids: Ids, d: Dict)
    requires InRange(init.events, ids, init.ids, arena) && d.id == init.ids.dict
    ensures Makes(init.events, d) == 0
  {
    assert Created(d) !in init.events;
  }

  lemma DisjointCounts(a: seq<Event>, b: seq<Event>, from: Ids, mid: Ids, to: Ids, outer: ArenaId, d: Dict)
    requires InRange(a, from, mid, outer) && InRange(b, mid, to, outer)
    ensures Makes(a, d) == 0 || Makes(b, d) == 0
  {
    assert Created(d) in a ==> d.id < mid.dict;
    assert Created(d) in b ==> mid.dict <= d.id;
  }

  /** Every dictionary an invocation makes is made once and its map dropped once; no other map is. */
  lemma {:induction false} TraceBalanced(inv: Action, ids: Ids, d: Dict)
    requires inv.Invocation?
    ensures var events := Trace(inv, ids).0; Makes(events, d) == MapDrops(events, d) <= 1
    decreases inv, 1
  {
    var body := BodyTrace(inv.body, ids.arena, ids.(arena := ids.arena + 1));
    BodyBalanced(inv.body, ids.arena, ids.(arena := ids.arena + 1), d);
    DropsCount(body.registry, d);
  }

  lemma {:induction false} BodyOrderly(body: seq<Action>, arena: ArenaId, ids: Ids)
    requires arena < ids.arena
    ensures var r := BodyTrace(body, arena, ids);
            Orderly(r.events) && InRange(r.events, ids, r.ids, arena) && RegistryOk(r.registry, arena, ids, r.ids)
    decreases body, 0
  {
    if body != [] {
      var last := |body| - 1;
      var init := BodyTrace(body[..last], arena, ids);
      BodyOrderly(body[..last], arena, ids);
      match body[last] {
        case DictNew =>
          var r := BodyTrace(body, arena, ids);
          OrderlyAppend(init.events, [Created(Dict(init.ids.dict, arena))], ids, init.ids, r.ids, arena);
        case BlakeCall =>
        case Invocation(_, _, _) =>
          var (events, ids') := Trace(body[|body| - 1], init.ids);
          TraceOrderly(body[last], init.ids, arena);
          OrderlyAppend(init.events, events, ids, init.ids, ids', arena);
      }
    }
  }

  /** An invocation touches only dictionaries and arenas of its own, all of them new, and nothing
      happens in an arena after its release: in particular no map is dropped there. */
  lemma {:induction false} TraceOrderly(inv: Action, ids: Ids, outer: ArenaId)
    requires outer < ids.arena && inv.Invocation?
    ensures var (events, ids') := Trace(inv, ids);
            && Orderly(events) && InRange(events, ids, ids', outer)
            && forall e :: e in events ==> ids.arena <= About(e) < ids'.arena
    decreases inv, 1
  {
    var arena, inside := ids.arena, ids.(arena := ids.arena + 1);
    var body := BodyTrace(inv.body, arena, inside);
    BodyOrderly(inv.body, arena, inside);
    var drops := Drops(body.registry);
    assert InRange(drops, inside, body.ids, arena) && Orderly(drops);
    var events := body.events + drops + [Released(arena)];
    forall i, j | 0 <= i < j < |events| && events[i].Released? ensures About(events[j]) != events[i].arena {
      EndOrder(body.events, drops, arena, inside, body.ids, i, j);
    }
    forall e | e in events ensures e in body.events || e in drops || e == Released(arena) {
    }
  }

  lemma EndOrder(events: seq<Event>, drops: seq<Event>, arena: ArenaId, from: Ids, to: Ids, i: nat, j: nat)
    requires Orderly(events) && InRange(events, from, to, arena) && arena < from.arena
    requires forall e :: e in drops ==> e.MapDropped? && e.dict.arena == arena
    requires var all := events + drops + [Released(arena)]; i < j < |all| && all[i].Released?
    ensures var all := events + drops + [Released(arena)]; About(all[j]) != all[i].arena
  {
    var all := events + drops + [Released(arena)];
    forall k | |events| <= k < |events| + |drops| ensures all[k].MapDropped? && About(all[k]) == arena {
      assert all[k] == drops[k - |events|] && drops[k - |events|] in drops;
    }
    assert i < |events| && all[i] == events[i] && events[i] in events;
    if j < |events| {
      assert all[j] == events[j];
    }
  }
}
