/** The diff engine: which attributes of a resource differ from its definition, and what running
    the planned handlers makes of them. */
module DiffEngine {
  import opened PyStrings
  import opened Seqs
  import opened Handlers
  import opened CoverSearch

  type Val = string

  /** Attributes of a state or of a definition; a missing attribute is the same as None. */
  type Attributes = map<string, Option<Val>>

  datatype Change = Set | Update | Unset

  function Get(m: Attributes, k: string): (r: Option<Val>)
    ensures r == if k in m then m[k] else None
  {
    if k in m then m[k] else None
  }

  /** The entry eval_resource_attr_diff makes, if it makes one. */
  function ChangeOf(s: Option<Val>, d: Option<Val>): Option<Change> {
    if s.None? && d.Some? then Some(Set)
    else if s.Some? && d.None? then Some(Unset)
    else if s.Some? && d.Some? && s != d then Some(Update)
    else None
  }

  /** All entries for a state and a definition. */
  ghost function Changes(state: Attributes, definition: Attributes): (r: map<string, Change>)
    ensures forall k :: k in r <==> Get(state, k) != Get(definition, k)
    ensures forall k :: k in r ==>
              r[k] == if Get(state, k).None? then Set else if Get(definition, k).None? then Unset else Update
  {
    map k | k in state.Keys + definition.Keys && ChangeOf(Get(state, k), Get(definition, k)).Some? ::
      ChangeOf(Get(state, k), Get(definition, k)).value
  }

  const RESERVED: seq<string> := ["index", "state", "_type", "deployment", "_name", "name", "creationTime"]

  ghost function Unreserved(diff: map<string, Change>, reserved: seq<string>): (r: set<string>)
    ensures forall k :: k in r <==> k in diff && k !in reserved
  {
    set k | k in diff && k !in reserved
  }

  /** The keys that still have to be realised. */
  ghost function Pending(state: Attributes, definition: Attributes, reserved: seq<string>): set<string> {
    Unreserved(Changes(state, definition), reserved)
  }

  /** The stored attributes of a resource. */
  class StateDict {
    var entries: Attributes

    constructor (entries: Attributes)
      ensures this.entries == entries
    {
      this.entries := entries;
    }
  }

  class Diff {
    const graph: Graph
    const handlers: seq<nat>
    const definition: Attributes
    const state: StateDict
    var diff: map<string, Change>
    var reserved: seq<string>

    constructor (graph: Graph, handlers: seq<nat>, definition: Attributes, state: StateDict, reservedKeys: seq<string>)
      ensures this.graph == graph && this.handlers == handlers && this.definition == definition && this.state == state
      ensures diff == map[] && reserved == RESERVED + reservedKeys
      ensures reserved == ["index", "state", "_type", "deployment", "_name", "name", "creationTime"] + reservedKeys
    {
      this.graph, this.handlers, this.definition, this.state := graph, handlers, definition, state;
      diff := map[];
      reserved := RESERVED + reservedKeys;
    }

    method EvalResourceAttrDiff(key: string)
      modifies this`diff
      ensures diff == match ChangeOf(Get(state.entries, key), Get(definition, key))
                      case None => old(diff)
                      case Some(change) => old(diff)[key := change]
      ensures var (s, d) := (Get(state.entries, key), Get(definition, key));
              diff == if s == d then old(diff)
                      else old(diff)[key := if s.None? then Set else if d.None? then Unset else Update]
    {
      var s, d := Get(state.entries, key), Get(definition, key);
      if s.None? && d.Some? {
        diff := diff[key := Set];
      } else if s.Some? && d.None? {
        diff := diff[key := Unset];
      } else if s.Some? && d.Some? {
        if s != d {
          diff := diff[key := Update];
        }
      }
    }

    method GetKeys() returns (keys: set<string>)
      ensures keys == Unreserved(diff, reserved)
      ensures forall k :: k in keys <==> k in diff && k !in reserved
    {
      keys := set k | k in diff && k !in reserved;
    }

    /** Adds an entry for every difference; entries of an earlier plan stay. */
    method Plan() returns (r: Plan, ghost chosen: seq<nat>)
      requires Closed(graph) && InGraph(graph, handlers)
      modifies this`diff
      ensures diff == old(diff) + Changes(state.entries, definition)
      ensures (forall k :: Get(state.entries, k) == Get(definition, k)) ==> diff == old(diff)
      ensures PlanFor(graph, handlers, Unreserved(diff, reserved), r, chosen)
      ensures forall k :: k in Unreserved(diff, reserved) <==>
                k !in reserved && (k in old(diff) || Get(state.entries, k) != Get(definition, k))
      ensures r.Sequence? ==> InGraph(graph, r.handlers)
      ensures r.Sequence? ==>
                forall k :: k !in reserved && (k in old(diff) || Get(state.entries, k) != Get(definition, k)) ==>
                  exists h :: h in r.handlers && k in graph[h].keys
    {
      hide PlanFor, KeysOf, Closed, FirstSmallest, SortOf;
      var todo := state.entries.Keys + definition.Keys;
      ghost var all := Changes(state.entries, definition);
      while todo != {}
        invariant todo <= state.entries.Keys + definition.Keys
        invariant forall k :: k in todo && k in diff ==> k in old(diff) && diff[k] == old(diff)[k]
        invariant forall k :: k in diff ==> k in old(diff) || k in all
        invariant forall k :: k in old(diff) ==> k in diff && (k !in all ==> diff[k] == old(diff)[k])
        invariant forall k :: k in all && k !in todo ==> k in diff && diff[k] == all[k]
        decreases todo
      {
        var k :| k in todo;
        todo := todo - {k};
        EvalResourceAttrDiff(k);
      }
      assert diff == old(diff) + all;
      var keys := GetKeys();
      r, chosen := GetHandlersSequence(graph, handlers, keys, 1);
      IsPlan(graph, handlers, keys, r, chosen);
      if r.Sequence? {
        PlanCovers(graph, handlers, keys, r.handlers, chosen);
        EachHandled(graph, keys, r.handlers);
      }
    }
  }

  lemma EachHandled(g: Graph, keys: set<string>, hs: seq<nat>)
    requires InGraph(g, hs) && keys <= KeysOf(g, hs)
    ensures forall k :: k in keys ==> exists h :: h in hs && k in g[h].keys
  {
  }

  lemma IsPlan(g: Graph, handlers: seq<nat>, keys: set<string>, r: Plan, chosen: seq<nat>)
    requires InGraph(g, handlers)
    requires keys == {} ==> r == Sequence([])
    requires keys != {} && r.Sequence? ==> FirstSmallest(g, handlers, keys, 1, chosen) && SortOf(g, chosen, r.handlers)
    requires r.CouldNotFind? ==> r.missing == keys - KeysOf(g, handlers) && r.missing != {} && 1 <= |handlers|
    requires r.Endless? <==> keys != {} && 1 > |handlers|
    ensures PlanFor(g, handlers, keys, r, chosen)
  {
  }

  /** Planning again with the same Diff, once the state agrees with the definition, is planning for
      every key of the first plan again: only a fresh Diff finds nothing left to do. */
  lemma StaleDiff(g: Graph, handlers: seq<nat>, before: Attributes, after: Attributes, definition: Attributes,
                  reserved: seq<string>, again: Plan, chosen: seq<nat>)
    requires InGraph(g, handlers) && forall k :: Get(after, k) == Get(definition, k)
    requires PlanFor(g, handlers, Unreserved(Changes(before, definition) + Changes(after, definition), reserved), again, chosen)
    ensures PlanFor(g, handlers, Pending(before, definition, reserved), again, chosen)
    ensures again == Sequence([]) <==> Pending(before, definition, reserved) == {}
    ensures Pending(after, definition, reserved) == {}
  {
    hide KeysOf, FirstSmallest, SortOf;
    var keys := Pending(before, definition, reserved);
    assert Changes(after, definition) == map[];
    assert Changes(before, definition) + map[] == Changes(before, definition);
    if keys != {} && again.Sequence? {
      CoversSomething(g, handlers, keys, again.handlers, chosen);
    }
  }

  lemma CoversSomething(g: Graph, handlers: seq<nat>, keys: set<string>, hs: seq<nat>, chosen: seq<nat>)
    requires InGraph(g, handlers) && keys != {} && PlanFor(g, handlers, keys, Sequence(hs), chosen)
    ensures hs != []
  {
    PlanCovers(g, handlers, keys, hs, chosen);
    NoKeys(g);
  }

  // ----- Running the plan -----

  /** What a handler does: on each of the keys the state becomes what the definition says. */
  function Realised(state: Attributes, definition: Attributes, keys: seq<string>): (r: Attributes)
    ensures forall k :: Get(r, k) == if k in keys then Get(definition, k) else Get(state, k)
  {
    var touched := set k | k in keys;
    map k | k in state.Keys + touched :: if k in keys then Get(definition, k) else state[k]
  }

  datatype Outcome = Done | Raised(handler: nat) | NotPlanned(plan: Plan)

  class Resource {
    const graph: Graph
    const handlers: seq<nat>
    const reservedKeys: seq<string>
    const state: StateDict

    constructor (graph: Graph, handlers: seq<nat>, reservedKeys: seq<string>, state: StateDict)
      ensures this.graph == graph && this.handlers == handlers && this.reservedKeys == reservedKeys && this.state == state
    {
      this.graph, this.handlers, this.reservedKeys, this.state := graph, handlers, reservedKeys, state;
    }

    ghost function Reserved(): (r: seq<string>)
      ensures r == ["index", "state", "_type", "deployment", "_name", "name", "creationTime"] + reservedKeys
    {
      RESERVED + reservedKeys
    }

    /** The loop of create() over the planned handlers. */
    method RunHandlers(hs: seq<nat>, definition: Attributes, failing: map<nat, seq<string>>) returns (r: Outcome, ghost ran: seq<nat>)
      requires InGraph(graph, hs)
      modifies state
      ensures InGraph(graph, ran) && ran <= hs && forall h :: h in ran ==> h !in failing
      ensures match r
              case Done => ran == hs && state.entries == RealiseAll(graph, old(state.entries), definition, hs)
              case Raised(h) =>
                && h in failing && h < |graph| && ran + [h] <= hs
                && state.entries == Realised(RealiseAll(graph, old(state.entries), definition, ran), definition, failing[h])
              case NotPlanned(_) => false
    {
      hide Realised;
      ran := [];
      for i := 0 to |hs|
        invariant ran == hs[..i] && InGraph(graph, ran)
        invariant forall h :: h in ran ==> h !in failing
        invariant state.entries == RealiseAll(graph, old(state.entries), definition, ran)
      {
        var h := hs[i];
        assert h in hs && ran + [h] == hs[..i + 1];
        if h in failing {
          state.entries := Realised(state.entries, definition, failing[h]);
          return Raised(h), ran;
        }
        state.entries := Realised(state.entries, definition, graph[h].keys);
        assert (ran + [h])[..|ran|] == ran;
        ran := ran + [h];
      }
      assert ran == hs;
      r := Done;
    }

    /** create(): plans with a fresh Diff and runs the plan.  `failing` gives, for each handler that
        raises, the keys it realised before. */
    method Create(definition: Attributes, failing: map<nat, seq<string>>)
        returns (r: Outcome, ghost ran: seq<nat>, ghost plan: Plan, ghost chosen: seq<nat>)
      requires Closed(graph) && InGraph(graph, handlers)
      requires forall h, k :: h in failing && h < |graph| && k in failing[h] ==> k in graph[h].keys
      modifies state
      ensures PlanFor(graph, handlers, old(Pending(state.entries, definition, Reserved())), plan, chosen)
      ensures match r
              case Done => plan == Sequence(ran)
              case Raised(h) => plan.Sequence? && ran + [h] <= plan.handlers
              case NotPlanned(p) => p == plan && ran == []
      ensures InGraph(graph, ran) && NoDup(ran)
      ensures forall k :: Get(state.entries, k) == old(Get(state.entries, k)) || Get(state.entries, k) == Get(definition, k)
      ensures forall k :: k in KeysOf(graph, ran) ==> Get(state.entries, k) == Get(definition, k)
      ensures forall h :: h in ran ==> h !in failing
      ensures r.Done? ==>
                && state.entries == RealiseAll(graph, old(state.entries), definition, ran)
                && (forall k :: k !in KeysOf(graph, ran) ==> Get(state.entries, k) == old(Get(state.entries, k)))
                && Pending(state.entries, definition, Reserved()) == {}
      ensures r.Raised? ==>
                && r.handler in failing && r.handler < |graph|
                && (forall k :: k !in KeysOf(graph, ran) && k !in failing[r.handler] ==> Get(state.entries, k) == old(Get(state.entries, k)))
      ensures Pending(state.entries, definition, Reserved()) <= old(Pending(state.entries, definition, Reserved()))
      ensures r.Done? ==> forall k :: k !in Reserved() ==> Get(state.entries, k) == Get(definition, k)
      ensures (forall k :: k !in Reserved() ==> old(Get(state.entries, k)) == Get(definition, k)) <==> r == Done && ran == []
      ensures r.NotPlanned? ==> state.entries == old(state.entries) && ran == []
      ensures r.NotPlanned? <==> !Covers(graph, handlers, old(Pending(state.entries, definition, Reserved())))
    {
      hide KeysOf, PlanFor, Closed, Changes, Covers, Pending, Get, RealiseAll;
      var diff := new Diff(graph, handlers, definition, state, reservedKeys);
      ghost var was := state.entries;
      var planned;
      planned, chosen := diff.Plan();
      plan := planned;
      ghost var keys := Pending(was, definition, Reserved());
      FreshKeys(was, definition, Reserved());
      PlanOutcome(graph, handlers, keys, plan, chosen);
      NothingPending(was, definition, Reserved());
      match planned
      case Sequence(hs) =>
        PlanCovers(graph, handlers, keys, hs, chosen);
        r, ran := RunHandlers(hs, definition, failing);
        RealisedKeys(graph, was, definition, ran);
        PrefixNoDup(ran, hs);
        PendingShrinks(was, state.entries, definition, Reserved());
        if r.Done? {
          AllRealised(was, state.entries, definition, Reserved(), KeysOf(graph, hs));
          NothingPending(state.entries, definition, Reserved());
        }
        if hs == [] {
          NoKeys(graph);
        }
      case _ =>
        r, ran := NotPlanned(planned), [];
        NoKeys(graph);
    }
  }

  lemma PrefixNoDup(a: seq<nat>, b: seq<nat>)
    requires a <= b && NoDup(b)
    ensures NoDup(a)
  {
  }

  /** The state after a sequence of handlers. */
  function RealiseAll(g: Graph, state: Attributes, definition: Attributes, hs: seq<nat>): Attributes
    requires InGraph(g, hs)
  {
    if hs == [] then state
    else
      var n := |hs| - 1;
      assert forall h :: h in hs[..n] ==> h in hs;
      assert hs[n] in hs;
      Realised(RealiseAll(g, state, definition, hs[..n]), definition, g[hs[n]].keys)
  }

  lemma {:induction false} RealisedKeys(g: Graph, state: Attributes, definition: Attributes, hs: seq<nat>)
    requires InGraph(g, hs)
    ensures var after := RealiseAll(g, state, definition, hs);
            forall k :: Get(after, k) == if k in KeysOf(g, hs) then Get(definition, k) else Get(state, k)
  {
    hide KeysOf, Get, Realised;
    NoKeys(g);
    if hs != [] {
      var n := |hs| - 1;
      assert forall h :: h in hs[..n] ==> h in hs;
      assert hs[n] in hs;
      RealisedKeys(g, state, definition, hs[..n]);
      KeysOfNext(g, hs[..n], hs[n]);
      assert hs == hs[..n] + [hs[n]];
    }
  }

  /** Once the planned handlers have run nothing is left to realise, and planning afresh plans
      nothing. */
  lemma PlanConverges(g: Graph, handlers: seq<nat>, state: Attributes, definition: Attributes, reserved: seq<string>,
                      hs: seq<nat>, chosen: seq<nat>, r: Plan, chosen': seq<nat>)
    requires InGraph(g, handlers) && InGraph(g, hs)
    requires PlanFor(g, handlers, Pending(state, definition, reserved), Sequence(hs), chosen)
    requires PlanFor(g, handlers, Pending(RealiseAll(g, state, definition, hs), definition, reserved), r, chosen')
    ensures Pending(RealiseAll(g, state, definition, hs), definition, reserved) == {}
    ensures forall k :: k !in reserved ==> Get(RealiseAll(g, state, definition, hs), k) == Get(definition, k)
    ensures r == Sequence([])
  {
    hide Pending, KeysOf, Covers, FirstSmallest, SortOf;
    NothingPending(RealiseAll(g, state, definition, hs), definition, reserved);
    PlanCovers(g, handlers, Pending(state, definition, reserved), hs, chosen);
    RealisedKeys(g, state, definition, hs);
    AllRealised(state, RealiseAll(g, state, definition, hs), definition, reserved, KeysOf(g, hs));
    PlanOutcome(g, handlers, {}, r, chosen');
  }

  /** Nothing is pending when everything outside the reserved keys agrees, and only then. */
  lemma NothingPending(state: Attributes, definition: Attributes, reserved: seq<string>)
    ensures Pending(state, definition, reserved) == {} <==>
            forall k :: k !in reserved ==> Get(state, k) == Get(definition, k)
  {
    hide Get, Changes;
    if Pending(state, definition, reserved) == {} {
      forall k | k !in reserved
        ensures Get(state, k) == Get(definition, k)
      {
        assert k !in Pending(state, definition, reserved);
      }
    }
  }

  lemma FreshKeys(state: Attributes, definition: Attributes, reserved: seq<string>)
    ensures Unreserved(map[] + Changes(state, definition), reserved) == Pending(state, definition, reserved)
  {
  }

  lemma NoKeys(g: Graph)
    ensures KeysOf(g, []) == {}
  {
  }

  /** The planned sequence covers the keys. */
  lemma PlanCovers(g: Graph, handlers: seq<nat>, keys: set<string>, hs: seq<nat>, chosen: seq<nat>)
    requires InGraph(g, handlers) && PlanFor(g, handlers, keys, Sequence(hs), chosen)
    ensures InGraph(g, hs) && keys <= KeysOf(g, hs) && NoDup(hs)
    ensures keys == {} ==> hs == []
  {
    hide FirstAt, Combinations;
    if keys != {} {
      var i :| FirstAt(g, handlers, keys, 1, chosen, i);
      FirstCovers(g, handlers, keys, chosen, i);
      SameKeys(g, chosen, hs);
    }
  }

  lemma FirstCovers(g: Graph, handlers: seq<nat>, keys: set<string>, chosen: seq<nat>, i: nat)
    requires FirstAt(g, handlers, keys, 1, chosen, i)
    ensures Covers(g, chosen, keys)
  {
  }

  lemma SameKeys(g: Graph, a: seq<nat>, b: seq<nat>)
    requires InGraph(g, a) && forall h :: h in a <==> h in b
    ensures InGraph(g, b) && KeysOf(g, a) == KeysOf(g, b)
  {
  }

  lemma PendingShrinks(was: Attributes, now: Attributes, definition: Attributes, reserved: seq<string>)
    requires forall k :: Get(now, k) == Get(was, k) || Get(now, k) == Get(definition, k)
    ensures Pending(now, definition, reserved) <= Pending(was, definition, reserved)
  {
  }

  lemma AllRealised(was: Attributes, now: Attributes, definition: Attributes, reserved: seq<string>, keys: set<string>)
    requires Pending(was, definition, reserved) <= keys
    requires forall k :: Get(now, k) == if k in keys then Get(definition, k) else Get(was, k)
    ensures Pending(now, definition, reserved) == {}
  {
  }
}
