/** The handlers of a resource and their depth-first ordering, `Diff.topological_sort`. */
module Handlers {
  import opened PyStrings
  import opened Seqs

  /** A handler stands for the keys it realises; `deps` are handlers it comes after. */
  datatype Handler = Handler(keys: seq<string>, deps: seq<nat>)

  /** Handlers are numbered; every dependency is a handler. */
  type Graph = seq<Handler>

  ghost predicate Closed(g: Graph) {
    forall u, v :: 0 <= u < |g| && v in g[u].deps ==> v < |g|
  }

  ghost predicate Edge(g: Graph, u: nat, v: nat) {
    u < |g| && v in g[u].deps
  }

  ghost predicate IsWalk(g: Graph, walk: seq<nat>) {
    walk != [] && forall i {:trigger walk[i]} :: 0 < i < |walk| ==> Edge(g, walk[i - 1], walk[i])
  }

  /** u depends on v, directly or not, or is v. */
  ghost predicate Reaches(g: Graph, u: nat, v: nat) {
    exists walk :: IsWalk(g, walk) && walk[0] == u && walk[|walk| - 1] == v
  }

  /** No handler depends on itself, directly or not. */
  ghost predicate Acyclic(g: Graph) {
    forall u, v :: Edge(g, u, v) ==> !Reaches(g, v, u)
  }

  ghost predicate Before(s: seq<nat>, x: nat, y: nat) {
    exists i, j :: 0 <= i < j < |s| && s[i] == x && s[j] == y
  }

  lemma ReachesItself(g: Graph, u: nat)
    ensures Reaches(g, u, u)
  {
    assert IsWalk(g, [u]);
  }

  lemma ReachesOneMore(g: Graph, u: nat, v: nat, w: nat)
    requires Reaches(g, u, v) && Edge(g, v, w)
    ensures Reaches(g, u, w)
  {
    hide Edge;
    var walk :| IsWalk(g, walk) && walk[0] == u && walk[|walk| - 1] == v;
    var longer := walk + [w];
    forall i {:trigger longer[i]} | 0 < i < |longer|
      ensures Edge(g, longer[i - 1], longer[i])
    {
      assert i < |walk| ==> longer[i] == walk[i] && longer[i - 1] == walk[i - 1];
    }
    assert IsWalk(g, longer) && longer[0] == u && longer[|longer| - 1] == w;
  }

  /** Each finished handler comes after its dependencies, but for those that depend on it. */
  ghost predicate Ordered(g: Graph, s: seq<nat>) {
    forall i, v :: 0 <= i < |s| && Edge(g, s[i], v) ==> v in s[..i] || Reaches(g, v, s[i])
  }

  /** What holds of the two variables of topological_sort between any two steps. */
  ghost predicate Sound(g: Graph, parent: map<nat, Option<nat>>, s: seq<nat>) {
    && Closed(g)
    && (forall h :: h in parent ==> h < |g|)
    && (forall h :: h in parent && parent[h].Some? ==> Edge(g, parent[h].value, h))
    && (forall h :: h in s ==> h in parent)
    && (forall h, v :: h in s && Edge(g, h, v) ==> v in parent)
    && NoDup(s)
    && Ordered(g, s)
  }

  /** Discovered but not finished. */
  ghost function OpenIn(parent: map<nat, Option<nat>>, s: seq<nat>): set<nat> {
    set h | h in parent && h !in s
  }

  ghost function Unseen(g: Graph, parent: map<nat, Option<nat>>): set<nat> {
    set h: nat | h < |g| && h !in parent
  }

  ghost predicate AllReach(g: Graph, from: set<nat>, h: nat) {
    forall o :: o in from ==> Reaches(g, o, h)
  }

  /** h leads to all that was discovered since `was`. */
  ghost predicate Leads(g: Graph, h: nat, was: set<nat>, now: set<nat>) {
    was <= now && forall x :: x in now && x !in was ==> Reaches(g, h, x)
  }

  lemma Discovering(g: Graph, parent: map<nat, Option<nat>>, s: seq<nat>, v: nat, from: Option<nat>)
    requires Sound(g, parent, s) && v < |g| && v !in parent
    requires from.Some? ==> Edge(g, from.value, v) && AllReach(g, OpenIn(parent, s), from.value)
    requires from.None? ==> OpenIn(parent, s) == {}
    ensures Sound(g, parent[v := from], s) && OpenIn(parent[v := from], s) == OpenIn(parent, s) + {v}
    ensures v !in OpenIn(parent, s) && AllReach(g, OpenIn(parent[v := from], s), v)
    ensures |Unseen(g, parent[v := from])| < |Unseen(g, parent)|
  {
    hide Reaches, Ordered, NoDup, Edge;
    DiscoveredOpen(g, parent, s, v, from);
    var open := OpenIn(parent, s);
    hide OpenIn;
    ReachesItself(g, v);
    forall o | o in open
      ensures Reaches(g, o, v)
    {
      ReachesOneMore(g, o, from.value, v);
    }
  }

  lemma DiscoveredOpen(g: Graph, parent: map<nat, Option<nat>>, s: seq<nat>, v: nat, from: Option<nat>)
    requires v < |g| && v !in parent && forall h :: h in s ==> h in parent
    ensures v !in OpenIn(parent, s) && OpenIn(parent[v := from], s) == OpenIn(parent, s) + {v}
    ensures |Unseen(g, parent[v := from])| < |Unseen(g, parent)|
  {
    OneOpenMore(parent, s, v, from);
    OneSeenMore(g, parent, v, from);
  }

  lemma OneOpenMore(parent: map<nat, Option<nat>>, s: seq<nat>, v: nat, from: Option<nat>)
    requires v !in parent && forall h :: h in s ==> h in parent
    ensures v !in OpenIn(parent, s) && OpenIn(parent[v := from], s) == OpenIn(parent, s) + {v}
  {
    var after := parent[v := from];
    assert v !in s;
    forall h
      ensures h in OpenIn(after, s) <==> h in OpenIn(parent, s) || h == v
    {
      assert h in after <==> h in parent || h == v;
    }
  }

  lemma OneSeenMore(g: Graph, parent: map<nat, Option<nat>>, v: nat, from: Option<nat>)
    requires v < |g| && v !in parent
    ensures |Unseen(g, parent[v := from])| < |Unseen(g, parent)|
  {
    var (before, after) := (Unseen(g, parent), Unseen(g, parent[v := from]));
    forall h: nat
      ensures h in after <==> h in before && h != v
    {
      assert h in parent[v := from] <==> h in parent || h == v;
    }
    assert after == before - {v} && v in before;
  }

  lemma LeadsOn(g: Graph, h: nat, v: nat, was: set<nat>, before: set<nat>, now: set<nat>)
    requires Edge(g, h, v) && Leads(g, h, was, before) && Leads(g, v, before + {v}, now)
    ensures Leads(g, h, was, now)
  {
    hide Reaches;
    ReachesItself(g, h);
    ReachesOneMore(g, h, h, v);
    forall x | x in now && x !in was
      ensures Reaches(g, h, x)
    {
      if x !in before && x != v {
        ReachesFrom(g, h, v, x);
      }
    }
  }

  lemma Finishing(g: Graph, parent: map<nat, Option<nat>>, s: seq<nat>, h: nat)
    requires Sound(g, parent, s) && h in OpenIn(parent, s) && AllReach(g, OpenIn(parent, s), h)
    requires forall v :: v in g[h].deps ==> v in parent
    ensures Sound(g, parent, s + [h]) && OpenIn(parent, s + [h]) == OpenIn(parent, s) - {h}
  {
    hide Reaches;
    FinishLast(g, s, h, OpenIn(parent, s));
  }

  /** The variables of topological_sort that visit() updates. */
  class Sorter {
    const g: Graph
    var parent: map<nat, Option<nat>>
    var sequence: seq<nat>

    ghost predicate Valid()
      reads this
    {
      Sound(g, parent, sequence)
    }

    ghost function Open(): set<nat>
      reads this
    {
      OpenIn(parent, sequence)
    }

    constructor (g: Graph)
      requires Closed(g)
      ensures Valid() && this.g == g && parent == map[] && sequence == []
    {
      this.g := g;
      parent := map[];
      sequence := [];
    }

    /** Finishes h after everything it leads to, whatever cycles there are. */
    method Visit(h: nat)
      requires Valid() && h in Open() && h < |g| && AllReach(g, Open(), h)
      modifies this
      ensures Valid() && Open() == old(Open()) - {h}
      ensures Leads(g, h, old(parent.Keys), parent.Keys) && old(sequence) <= sequence
      ensures sequence != [] && sequence[|sequence| - 1] == h
      decreases |Unseen(g, parent)|
    {
      hide Sound, OpenIn, AllReach, Leads, Reaches;
      var deps := g[h].deps;
      NothingNew(g, h, parent.Keys);
      for i := 0 to |deps|
        invariant Valid() && Open() == old(Open())
        invariant Leads(g, h, old(parent.Keys), parent.Keys) && old(sequence) <= sequence
        invariant old(parent.Keys) <= parent.Keys
        invariant forall v :: v in deps[..i] ==> v in parent
        invariant |Unseen(g, parent)| <= |old(Unseen(g, parent))|
      {
        var v := deps[i];
        assert Edge(g, h, v);
        IsHandler(g, parent, sequence, h, v);
        if v !in parent {
          ghost var before := parent.Keys;
          Discovering(g, parent, sequence, v, Some(h));
          parent := parent[v := Some(h)];
          assert parent.Keys == before + {v};
          ghost var found := parent.Keys;
          Visit(v);
          LeadsOn(g, h, v, old(parent.Keys), before, parent.Keys);
          GrowsOnly(g, v, found, parent);
        }
      }
      assert deps[..|deps|] == deps;
      Finishing(g, parent, sequence, h);
      sequence := sequence + [h];
    }
  }

  lemma NothingNew(g: Graph, h: nat, keys: set<nat>)
    ensures Leads(g, h, keys, keys)
  {
  }

  lemma IsHandler(g: Graph, parent: map<nat, Option<nat>>, s: seq<nat>, h: nat, v: nat)
    requires Sound(g, parent, s) && Edge(g, h, v)
    ensures v < |g|
  {
  }

  lemma GrowsOnly(g: Graph, v: nat, was: set<nat>, parent: map<nat, Option<nat>>)
    requires Leads(g, v, was, parent.Keys)
    ensures was <= parent.Keys
    ensures forall p: map<nat, Option<nat>> :: p.Keys == was ==> |Unseen(g, parent)| <= |Unseen(g, p)|
  {
    forall p: map<nat, Option<nat>> | p.Keys == was
      ensures |Unseen(g, parent)| <= |Unseen(g, p)|
    {
      SubsetSize(Unseen(g, parent), Unseen(g, p));
    }
  }

  lemma {:induction false} SubsetSize(a: set<nat>, b: set<nat>)
    requires a <= b
    ensures |a| <= |b|
  {
    if a != {} {
      var x :| x in a;
      SubsetSize(a - {x}, b - {x});
    }
  }

  lemma ReachesFrom(g: Graph, u: nat, v: nat, w: nat)
    requires Edge(g, u, v) && Reaches(g, v, w)
    ensures Reaches(g, u, w)
  {
    hide Edge;
    var walk :| IsWalk(g, walk) && walk[0] == v && walk[|walk| - 1] == w;
    var longer := [u] + walk;
    forall i {:trigger longer[i]} | 0 < i < |longer|
      ensures Edge(g, longer[i - 1], longer[i])
    {
      assert i > 1 ==> longer[i] == walk[i - 1] && longer[i - 1] == walk[i - 2];
    }
    assert IsWalk(g, longer) && longer[0] == u && longer[|longer| - 1] == w;
  }

  lemma FinishLast(g: Graph, s: seq<nat>, h: nat, open: set<nat>)
    requires Ordered(g, s) && h !in s
    requires forall v :: Edge(g, h, v) ==> v in s || v in open
    requires forall o :: o in open ==> Reaches(g, o, h)
    ensures Ordered(g, s + [h])
    ensures NoDup(s) ==> NoDup(s + [h])
  {
    forall i, v | 0 <= i < |s + [h]| && Edge(g, (s + [h])[i], v)
      ensures v in (s + [h])[..i] || Reaches(g, v, (s + [h])[i])
    {
      assert (s + [h])[..i] == s[..i];
      if i == |s| {
        assert s[..i] == s;
      }
    }
  }

  /** `[h for h in sequence if h in handlers]`. */
  function Selected(s: seq<nat>, handlers: seq<nat>): seq<nat> {
    if s == [] then []
    else (if s[0] in handlers then [s[0]] else []) + Selected(s[1..], handlers)
  }

  lemma {:induction false} SelectedMembers(s: seq<nat>, handlers: seq<nat>)
    ensures forall h :: h in Selected(s, handlers) <==> h in s && h in handlers
    ensures NoDup(s) ==> NoDup(Selected(s, handlers))
  {
    if s != [] {
      SelectedMembers(s[1..], handlers);
      assert s == [s[0]] + s[1..];
    }
  }

  lemma BeforeTail(s: seq<nat>, x: nat, y: nat)
    requires s != []
    ensures Before(s, x, y) <==> (s[0] == x && y in s[1..]) || Before(s[1..], x, y)
  {
    var rest := s[1..];
    if Before(s, x, y) {
      var i, j :| 0 <= i < j < |s| && s[i] == x && s[j] == y;
      assert rest[j - 1] == y && (i > 0 ==> rest[i - 1] == x);
    }
    if s[0] == x && y in rest {
      var j :| 0 <= j < |rest| && rest[j] == y;
      assert s[j + 1] == y;
    }
    if Before(rest, x, y) {
      var i, j :| 0 <= i < j < |rest| && rest[i] == x && rest[j] == y;
      assert s[i + 1] == x && s[j + 1] == y;
    }
  }

  lemma {:induction false} SelectedOrder(s: seq<nat>, handlers: seq<nat>, x: nat, y: nat)
    requires Before(s, x, y) && x in handlers && y in handlers
    ensures Before(Selected(s, handlers), x, y)
  {
    hide Before;
    if s == [] {
      NotBefore(x, y);
    } else {
      BeforeTail(s, x, y);
      SelectedMembers(s[1..], handlers);
      if Before(s[1..], x, y) {
        SelectedOrder(s[1..], handlers, x, y);
      }
      var rest := Selected(s[1..], handlers);
      if s[0] in handlers {
        assert ([s[0]] + rest)[1..] == rest;
        BeforeTail([s[0]] + rest, x, y);
      } else {
        assert [] + rest == rest;
      }
    }
  }

  lemma NotBefore(x: nat, y: nat)
    ensures !Before([], x, y)
  {
  }

  /** What topological_sort promises of its result. */
  ghost predicate SortOf(g: Graph, handlers: seq<nat>, r: seq<nat>) {
    && NoDup(r)
    && (forall h :: h in r <==> h in handlers)
    && (forall u, v :: u in handlers && v in handlers && Edge(g, u, v) && !Reaches(g, v, u) ==> Before(r, v, u))
    && (Acyclic(g) ==> forall u, v :: u in handlers && v in handlers && u != v && Reaches(g, u, v) ==> Before(r, v, u))
  }

  /** A finished sequence that contains its dependencies respects the acyclic part of the order. */
  lemma OrderedEdge(g: Graph, s: seq<nat>, u: nat, v: nat)
    requires Ordered(g, s) && u in s && Edge(g, u, v) && !Reaches(g, v, u)
    ensures Before(s, v, u)
  {
    var i :| 0 <= i < |s| && s[i] == u;
    var j :| 0 <= j < i && s[..i][j] == v;
    assert s[j] == v;
  }

  lemma BeforeTransitive(s: seq<nat>, x: nat, y: nat, z: nat)
    requires NoDup(s) && Before(s, x, y) && Before(s, y, z)
    ensures Before(s, x, z)
  {
  }

  /** Even through handlers that were not selected, dependencies come first. */
  lemma {:induction false} OrderedWalk(g: Graph, s: seq<nat>, walk: seq<nat>)
    requires Ordered(g, s) && NoDup(s) && Acyclic(g)
    requires forall h, v :: h in s && Edge(g, h, v) ==> v in s
    requires IsWalk(g, walk) && |walk| > 1 && walk[0] in s
    ensures Before(s, walk[|walk| - 1], walk[0])
    decreases |walk|
  {
    assert Edge(g, walk[0], walk[1]);
    OrderedEdge(g, s, walk[0], walk[1]);
    if |walk| > 2 {
      var rest := walk[1..];
      assert forall i {:trigger rest[i]} :: 0 < i < |rest| ==> rest[i - 1] == walk[i] && rest[i] == walk[i + 1];
      OrderedWalk(g, s, rest);
      BeforeTransitive(s, walk[|walk| - 1], walk[1], walk[0]);
    }
  }

  /** topological_sort: the selected handlers, each once, after those they depend on. */
  method TopologicalSort(g: Graph, handlers: seq<nat>) returns (r: seq<nat>)
    requires Closed(g) && forall h :: h in handlers ==> h < |g|
    ensures SortOf(g, handlers, r)
  {
    hide Sound, OpenIn, AllReach, Leads, Reaches, SortOf;
    var sorter := new Sorter(g);
    NothingOpen();
    for i := 0 to |handlers|
      invariant sorter.Valid() && sorter.Open() == {} && sorter.g == g && fresh(sorter)
      invariant forall h :: h in handlers[..i] ==> h in sorter.parent
    {
      var h := handlers[i];
      if h !in sorter.parent {
        assert h in handlers;
        Discovering(g, sorter.parent, sorter.sequence, h, None);
        sorter.parent := sorter.parent[h := None];
        ghost var found := sorter.parent.Keys;
        sorter.Visit(h);
        GrowsOnly(g, h, found, sorter.parent);
      }
    }
    assert handlers[..|handlers|] == handlers;
    r := Selected(sorter.sequence, handlers);
    SortsSelected(g, sorter.parent, sorter.sequence, handlers);
  }

  lemma NothingOpen()
    ensures OpenIn(map[], []) == {}
  {
  }

  lemma SortsSelected(g: Graph, parent: map<nat, Option<nat>>, s: seq<nat>, handlers: seq<nat>)
    requires Sound(g, parent, s) && OpenIn(parent, s) == {}
    requires forall h :: h in handlers ==> h in parent
    ensures SortOf(g, handlers, Selected(s, handlers))
  {
    assert forall h :: h in parent ==> h in OpenIn(parent, s) || h in s;
    hide Ordered, Before, NoDup, Acyclic;
    SelectedMembers(s, handlers);
    forall x, y | Before(s, x, y) && x in handlers && y in handlers
      ensures Before(Selected(s, handlers), x, y)
    {
      SelectedOrder(s, handlers, x, y);
    }
    forall u, v | u in handlers && v in handlers && Edge(g, u, v) && !Reaches(g, v, u)
      ensures Before(Selected(s, handlers), v, u)
    {
      OrderedEdge(g, s, u, v);
    }
    if Acyclic(g) {
      forall u, v | u in handlers && v in handlers && u != v && Reaches(g, u, v)
        ensures Before(Selected(s, handlers), v, u)
      {
        var walk :| IsWalk(g, walk) && walk[0] == u && walk[|walk| - 1] == v;
        assert |walk| > 1;
        OrderedWalk(g, s, walk);
      }
    }
  }
}
