/** `Diff.get_handlers_sequence`: the search for the smallest set of handlers whose keys cover the
    keys that differ. */
module CoverSearch {
  import opened Handlers

  // ----- itertools.combinations -----

  function Prefixed(x: nat, cs: seq<seq<nat>>): (r: seq<seq<nat>>)
    ensures |r| == |cs| && forall i :: 0 <= i < |cs| ==> r[i] == [x] + cs[i]
  {
    seq(|cs|, i requires 0 <= i < |cs| => [x] + cs[i])
  }

  /** `itertools.combinations(xs, c)`. */
  function Combinations(xs: seq<nat>, c: nat): seq<seq<nat>>
    decreases xs
  {
    if c == 0 then [[]]
    else if xs == [] then []
    else Prefixed(xs[0], Combinations(xs[1..], c - 1)) + Combinations(xs[1..], c)
  }

  /** The elements of xs at increasing positions. */
  ghost predicate Picks(xs: seq<nat>, at: seq<nat>) {
    (forall i :: 0 <= i < |at| ==> at[i] < |xs|) && forall i, j :: 0 <= i < j < |at| ==> at[i] < at[j]
  }

  ghost function Pick(xs: seq<nat>, at: seq<nat>): seq<nat>
    requires Picks(xs, at)
  {
    seq(|at|, i requires 0 <= i < |at| => xs[at[i]])
  }

  /** t is chosen from xs, keeping its order. */
  ghost predicate ChosenFrom(t: seq<nat>, xs: seq<nat>) {
    exists at :: Picks(xs, at) && Pick(xs, at) == t
  }

  lemma {:induction false} CombinationsChosen(xs: seq<nat>, c: nat, i: nat)
    requires i < |Combinations(xs, c)|
    ensures |Combinations(xs, c)[i]| == c && ChosenFrom(Combinations(xs, c)[i], xs)
    decreases xs
  {
    if c == 0 {
      assert Picks(xs, []) && Pick(xs, []) == [];
    } else {
      var n := |Combinations(xs[1..], c - 1)|;
      if i < n {
        CombinationsChosen(xs[1..], c - 1, i);
        var t := Combinations(xs[1..], c - 1)[i];
        var at :| Picks(xs[1..], at) && Pick(xs[1..], at) == t;
        ChosenFirst(xs, at);
      } else {
        CombinationsChosen(xs[1..], c, i - n);
        var at :| Picks(xs[1..], at) && Pick(xs[1..], at) == Combinations(xs[1..], c)[i - n];
        ChosenLater(xs, at);
      }
    }
  }

  ghost function Shifted(at: seq<nat>): seq<nat> {
    seq(|at|, i requires 0 <= i < |at| => at[i] + 1)
  }

  lemma ChosenFirst(xs: seq<nat>, at: seq<nat>)
    requires xs != [] && Picks(xs[1..], at)
    ensures Picks(xs, [0] + Shifted(at)) && Pick(xs, [0] + Shifted(at)) == [xs[0]] + Pick(xs[1..], at)
  {
  }

  lemma ChosenLater(xs: seq<nat>, at: seq<nat>)
    requires xs != [] && Picks(xs[1..], at)
    ensures Picks(xs, Shifted(at)) && Pick(xs, Shifted(at)) == Pick(xs[1..], at)
  {
  }

  lemma {:induction false} ChosenCombination(xs: seq<nat>, at: seq<nat>)
    requires Picks(xs, at)
    ensures Pick(xs, at) in Combinations(xs, |at|)
    decreases xs
  {
    if at == [] {
      assert Pick(xs, at) == [] && Combinations(xs, 0)[0] == [];
    } else {
      assert at[0] < |xs|;
      var rest := xs[1..];
      if at[0] == 0 {
        var at' := PickFirst(xs, at);
        ChosenCombination(rest, at');
        StartsWith(xs, |at|, Pick(rest, at'));
      } else {
        var at' := PickLater(xs, at);
        ChosenCombination(rest, at');
        GoesWithout(xs, |at|, Pick(rest, at'));
      }
    }
  }

  lemma StartsWith(xs: seq<nat>, c: nat, t: seq<nat>)
    requires xs != [] && c > 0 && t in Combinations(xs[1..], c - 1)
    ensures [xs[0]] + t in Combinations(xs, c)
  {
    var cs := Combinations(xs[1..], c - 1);
    var i :| 0 <= i < |cs| && cs[i] == t;
    assert Combinations(xs, c)[i] == [xs[0]] + t;
  }

  lemma GoesWithout(xs: seq<nat>, c: nat, t: seq<nat>)
    requires xs != [] && c > 0 && t in Combinations(xs[1..], c)
    ensures t in Combinations(xs, c)
  {
    assert Combinations(xs, c) == Prefixed(xs[0], Combinations(xs[1..], c - 1)) + Combinations(xs[1..], c);
  }

  lemma PickFirst(xs: seq<nat>, at: seq<nat>) returns (at': seq<nat>)
    requires Picks(xs, at) && at != [] && at[0] == 0
    ensures xs != [] && |at'| == |at| - 1 && Picks(xs[1..], at') && Pick(xs, at) == [xs[0]] + Pick(xs[1..], at')
  {
    at' := seq(|at| - 1, i requires 0 <= i < |at| - 1 => at[i + 1] - 1);
  }

  lemma PickLater(xs: seq<nat>, at: seq<nat>) returns (at': seq<nat>)
    requires Picks(xs, at) && at != [] && at[0] > 0
    ensures xs != [] && |at'| == |at| && Picks(xs[1..], at') && Pick(xs, at) == Pick(xs[1..], at')
  {
    at' := seq(|at|, i requires 0 <= i < |at| => at[i] - 1);
  }

  /** The combinations of size c are exactly the choices of c handlers. */
  lemma CombinationsAreChoices(xs: seq<nat>, t: seq<nat>)
    ensures t in Combinations(xs, |t|) <==> ChosenFrom(t, xs)
  {
    if t in Combinations(xs, |t|) {
      var i :| 0 <= i < |Combinations(xs, |t|)| && Combinations(xs, |t|)[i] == t;
      CombinationsChosen(xs, |t|, i);
    }
    if ChosenFrom(t, xs) {
      var at :| Picks(xs, at) && Pick(xs, at) == t;
      ChosenCombination(xs, at);
    }
  }

  /** Lexicographic order. */
  predicate LexBefore(s: seq<nat>, t: seq<nat>) {
    s != [] && t != [] && (s[0] < t[0] || (s[0] == t[0] && LexBefore(s[1..], t[1..])))
  }

  ghost predicate Increasing(xs: seq<nat>) {
    forall i, j :: 0 <= i < j < |xs| ==> xs[i] < xs[j]
  }

  /** A combination starts with an element of the list. */
  lemma CombinationStart(xs: seq<nat>, c: nat, i: nat)
    requires c > 0 && i < |Combinations(xs, c)|
    ensures Combinations(xs, c)[i] != [] && Combinations(xs, c)[i][0] in xs
  {
    hide Combinations;
    CombinationsChosen(xs, c, i);
    var at :| Picks(xs, at) && Pick(xs, at) == Combinations(xs, c)[i];
    assert at[0] < |xs|;
  }

  ghost predicate AllSorted(cs: seq<seq<nat>>) {
    forall i, j :: 0 <= i < j < |cs| ==> LexBefore(cs[i], cs[j])
  }

  /** They are enumerated in lexicographic order of positions. */
  lemma {:induction false} CombinationsSorted(xs: seq<nat>, c: nat)
    requires Increasing(xs)
    ensures AllSorted(Combinations(xs, c))
    decreases xs
  {
    if xs == [] || c == 0 {
      FewSorted(xs, c);
    } else {
      IncreasingTail(xs);
      CombinationsSorted(xs[1..], c - 1);
      CombinationsSorted(xs[1..], c);
      NextSorted(xs, c);
    }
  }

  lemma FewSorted(xs: seq<nat>, c: nat)
    requires xs == [] || c == 0
    ensures AllSorted(Combinations(xs, c))
  {
  }

  lemma NextSorted(xs: seq<nat>, c: nat)
    requires xs != [] && c > 0 && Increasing(xs)
    requires AllSorted(Combinations(xs[1..], c - 1)) && AllSorted(Combinations(xs[1..], c))
    ensures AllSorted(Combinations(xs, c))
  {
    var (first, rest) := (Combinations(xs[1..], c - 1), Combinations(xs[1..], c));
    LaterStarts(xs, c);
    assert Combinations(xs, c) == Prefixed(xs[0], first) + rest;
    hide Combinations, AllSorted, Increasing, Prefixed;
    PrefixedSorted(xs[0], first);
    ConcatSorted(xs[0], first, rest);
  }

  lemma LaterStarts(xs: seq<nat>, c: nat)
    requires xs != [] && c > 0 && Increasing(xs)
    ensures var rest := Combinations(xs[1..], c); forall j :: 0 <= j < |rest| ==> rest[j] != [] && xs[0] < rest[j][0]
  {
    IncreasingTail(xs);
    hide Combinations, Increasing;
    var rest := Combinations(xs[1..], c);
    forall j | 0 <= j < |rest|
      ensures rest[j] != [] && xs[0] < rest[j][0]
    {
      CombinationStart(xs[1..], c, j);
    }
  }

  lemma IncreasingTail(xs: seq<nat>)
    requires xs != [] && Increasing(xs)
    ensures Increasing(xs[1..]) && forall x :: x in xs[1..] ==> xs[0] < x
  {
  }

  lemma PrefixedSorted(x: nat, cs: seq<seq<nat>>)
    requires AllSorted(cs)
    ensures AllSorted(Prefixed(x, cs))
  {
    var r := Prefixed(x, cs);
    forall i, j | 0 <= i < j < |cs|
      ensures LexBefore(r[i], r[j])
    {
      assert LexBefore(cs[i], cs[j]);
      assert r[i][1..] == cs[i] && r[j][1..] == cs[j];
    }
  }

  lemma ConcatSorted(x: nat, first: seq<seq<nat>>, rest: seq<seq<nat>>)
    requires AllSorted(Prefixed(x, first)) && AllSorted(rest)
    requires forall j :: 0 <= j < |rest| ==> rest[j] != [] && x < rest[j][0]
    ensures AllSorted(Prefixed(x, first) + rest)
  {
    var a := Prefixed(x, first);
    var all := a + rest;
    forall i, j | 0 <= i < j < |all|
      ensures LexBefore(all[i], all[j])
    {
      if j < |a| {
        assert LexBefore(a[i], a[j]);
      } else if i >= |a| {
        assert LexBefore(rest[i - |a|], rest[j - |a|]);
      } else {
        assert all[i][0] == x && all[j] == rest[j - |a|];
      }
    }
  }

  lemma {:induction false} AllOrNone(xs: seq<nat>, c: nat)
    ensures c == |xs| ==> Combinations(xs, c) == [xs]
    ensures c > |xs| ==> Combinations(xs, c) == []
    decreases xs
  {
    if xs != [] && c >= |xs| {
      AllOrNone(xs[1..], c - 1);
      AllOrNone(xs[1..], c);
      OneOrNone(xs, c, Combinations(xs[1..], c - 1));
    }
  }

  lemma OneOrNone(xs: seq<nat>, c: nat, first: seq<seq<nat>>)
    requires xs != [] && c > 0 && first == Combinations(xs[1..], c - 1) && Combinations(xs[1..], c) == []
    ensures first == [xs[1..]] ==> Combinations(xs, c) == [xs]
    ensures first == [] ==> Combinations(xs, c) == []
  {
    assert Combinations(xs, c) == Prefixed(xs[0], first) + [];
    hide Combinations;
    assert [xs[0]] + xs[1..] == xs;
  }

  // ----- Covering -----

  ghost function KeysOf(g: Graph, hs: seq<nat>): set<string>
    requires forall h :: h in hs ==> h < |g|
  {
    set h, k | h in hs && k in g[h].keys :: k
  }

  ghost predicate Covers(g: Graph, hs: seq<nat>, keys: set<string>) {
    (forall h :: h in hs ==> h < |g|) && keys <= KeysOf(g, hs)
  }

  /** The handlers to run; or the exception naming the keys no handler has; or, without handlers,
      a recursion that no combination ever ends. */
  datatype Plan = Sequence(handlers: seq<nat>) | CouldNotFind(missing: set<string>) | Endless

  /** chosen is the first covering combination of the least covering size. */
  ghost predicate FirstSmallest(g: Graph, handlers: seq<nat>, keys: set<string>, from: nat, chosen: seq<nat>) {
    exists i :: FirstAt(g, handlers, keys, from, chosen, i)
  }

  ghost predicate FirstAt(g: Graph, handlers: seq<nat>, keys: set<string>, from: nat, chosen: seq<nat>, i: nat) {
    var cs := Combinations(handlers, |chosen|);
    && from <= |chosen| && i < |cs| && cs[i] == chosen && Covers(g, chosen, keys)
    && (forall j :: 0 <= j < i ==> !Covers(g, cs[j], keys))
    && NoneCovers(g, handlers, keys, from, |chosen|)
  }

  /** No combination with from <= size < to covers the keys. */
  ghost predicate NoneCovers(g: Graph, handlers: seq<nat>, keys: set<string>, from: nat, to: nat) {
    forall c, t :: from <= c < to && t in Combinations(handlers, c) ==> !Covers(g, t, keys)
  }

  ghost predicate InGraph(g: Graph, handlers: seq<nat>) {
    forall h :: h in handlers ==> h < |g|
  }

  lemma ChosenInGraph(g: Graph, handlers: seq<nat>, t: seq<nat>)
    requires InGraph(g, handlers) && ChosenFrom(t, handlers)
    ensures InGraph(g, t) && KeysOf(g, t) <= KeysOf(g, handlers)
  {
    var at :| Picks(handlers, at) && Pick(handlers, at) == t;
    forall h | h in t
      ensures h in handlers
    {
      var i :| 0 <= i < |t| && t[i] == h;
      assert handlers[at[i]] == h;
    }
  }

  /** The inner loop: `keys.extend(item.get_keys())`. */
  method CollectKeys(g: Graph, hs: seq<nat>) returns (keys: seq<string>)
    requires InGraph(g, hs)
    ensures forall k :: k in keys <==> k in KeysOf(g, hs)
  {
    keys := [];
    for i := 0 to |hs|
      invariant InGraph(g, hs[..i])
      invariant forall k :: k in keys <==> k in KeysOf(g, hs[..i])
    {
      assert hs[i] in hs;
      KeysOfNext(g, hs[..i], hs[i]);
      assert hs[..i + 1] == hs[..i] + [hs[i]];
      keys := keys + g[hs[i]].keys;
    }
    assert hs[..|hs|] == hs;
  }

  lemma KeysOfNext(g: Graph, hs: seq<nat>, h: nat)
    requires InGraph(g, hs) && h < |g|
    ensures InGraph(g, hs + [h])
    ensures forall k :: k in KeysOf(g, hs + [h]) <==> k in KeysOf(g, hs) || k in g[h].keys
  {
    forall k
      ensures k in KeysOf(g, hs + [h]) <==> k in KeysOf(g, hs) || k in g[h].keys
    {
      assert h in hs + [h];
    }
  }

  /** get_handlers_sequence, from combinations of the given size on. */
  method GetHandlersSequence(g: Graph, handlers: seq<nat>, keys: set<string>, combinations: nat)
      returns (r: Plan, ghost chosen: seq<nat>)
    requires Closed(g) && InGraph(g, handlers)
    ensures keys == {} ==> r == Sequence([])
    ensures keys != {} && r.Sequence? ==>
              FirstSmallest(g, handlers, keys, combinations, chosen) && SortOf(g, chosen, r.handlers)
    ensures r.CouldNotFind? ==> r.missing == keys - KeysOf(g, handlers) && r.missing != {}
    ensures r.CouldNotFind? ==> combinations <= |handlers|
    ensures r.Endless? <==> keys != {} && combinations > |handlers|
    decreases |handlers| - combinations
  {
    hide KeysOf, SortOf, Closed, ChosenFrom;
    chosen := [];
    if keys == {} {
      return Sequence([]), [];
    }
    if combinations > |handlers| {
      AllOrNone(handlers, combinations);
      return Endless, [];
    }
    var cs := Combinations(handlers, combinations);
    for i := 0 to |cs|
      invariant combinations == |handlers| ==> i == 0
      invariant forall j :: 0 <= j < i ==> !Covers(g, cs[j], keys)
    {
      CombinationsChosen(handlers, combinations, i);
      ChosenInGraph(g, handlers, cs[i]);
      AllOrNone(handlers, combinations);
      var found := CollectKeys(g, cs[i]);
      var foundKeys := set k | k in found;
      assert foundKeys == KeysOf(g, cs[i]);
      var missing := keys - foundKeys;
      assert forall k :: k in keys && k !in missing ==> k in foundKeys;
      if combinations == |handlers| && missing != {} {
        return CouldNotFind(missing), [];
      }
      if keys <= foundKeys {
        chosen := cs[i];
        var sorted := TopologicalSort(g, cs[i]);
        assert FirstAt(g, handlers, keys, combinations, chosen, i);
        return Sequence(sorted), chosen;
      }
      assert combinations != |handlers|;
    }
    AllOrNone(handlers, combinations);
    r, chosen := GetHandlersSequence(g, handlers, keys, combinations + 1);
    if r.Sequence? {
      LargerFirst(g, handlers, keys, combinations, chosen);
    }
  }

  lemma LargerFirst(g: Graph, handlers: seq<nat>, keys: set<string>, from: nat, chosen: seq<nat>)
    requires forall j :: 0 <= j < |Combinations(handlers, from)| ==> !Covers(g, Combinations(handlers, from)[j], keys)
    requires FirstSmallest(g, handlers, keys, from + 1, chosen)
    ensures FirstSmallest(g, handlers, keys, from, chosen)
  {
    hide Covers, Combinations;
    var i :| FirstAt(g, handlers, keys, from + 1, chosen, i);
    forall c, t | from <= c < |chosen| && t in Combinations(handlers, c)
      ensures !Covers(g, t, keys)
    {
      if c == from {
        var j :| 0 <= j < |Combinations(handlers, from)| && Combinations(handlers, from)[j] == t;
      }
    }
    assert FirstAt(g, handlers, keys, from, chosen, i);
  }

  // ----- The whole search -----

  /** What get_handlers_sequence, called from combinations of one, makes of the keys. */
  ghost predicate PlanFor(g: Graph, handlers: seq<nat>, keys: set<string>, r: Plan, chosen: seq<nat>) {
    match r
    case Sequence(hs) => if keys == {} then hs == [] else FirstSmallest(g, handlers, keys, 1, chosen) && SortOf(g, chosen, hs)
    case CouldNotFind(missing) => handlers != [] && InGraph(g, handlers) && missing == keys - KeysOf(g, handlers) && missing != {}
    case Endless => handlers == [] && keys != {}
  }

  /** Handlers are found exactly when all handlers together cover the keys: the exception is raised
      exactly when they do not, except that without handlers the search never ends. */
  lemma PlanOutcome(g: Graph, handlers: seq<nat>, keys: set<string>, r: Plan, chosen: seq<nat>)
    requires InGraph(g, handlers) && PlanFor(g, handlers, keys, r, chosen)
    ensures r.Sequence? <==> Covers(g, handlers, keys)
    ensures r.CouldNotFind? <==> handlers != [] && !Covers(g, handlers, keys)
    ensures r.Endless? <==> handlers == [] && keys != {}
    ensures keys == {} ==> r.Sequence?
    ensures r.Sequence? <==> forall k :: k in keys ==> exists h :: h in handlers && k in g[h].keys
    ensures r.CouldNotFind? ==> forall k :: k in r.missing <==> k in keys && forall h :: h in handlers ==> k !in g[h].keys
  {
    CoversMeans(g, handlers, keys);
    if r.Sequence? && keys != {} {
      var i :| FirstAt(g, handlers, keys, 1, chosen, i);
      CombinationsChosen(handlers, |chosen|, i);
      ChosenInGraph(g, handlers, chosen);
    }
    if handlers == [] {
      assert KeysOf(g, handlers) == {};
    }
  }

  /** No smaller choice of handlers covers the keys, wherever it is in the list. */
  lemma NoSmallerCover(g: Graph, handlers: seq<nat>, keys: set<string>, chosen: seq<nat>, t: seq<nat>)
    requires keys != {} && FirstSmallest(g, handlers, keys, 1, chosen)
    requires ChosenFrom(t, handlers) && Covers(g, t, keys)
    ensures |chosen| <= |t|
    ensures ChosenFrom(chosen, handlers) && Covers(g, chosen, keys)
  {
    hide Combinations, ChosenFrom;
    var i :| FirstAt(g, handlers, keys, 1, chosen, i);
    CombinationsAreChoices(handlers, t);
    CombinationsChosen(handlers, |chosen|, i);
    CoverNonempty(g, t, keys);
  }

  /** To cover the keys is to have a handler for each. */
  lemma CoversMeans(g: Graph, hs: seq<nat>, keys: set<string>)
    requires InGraph(g, hs)
    ensures Covers(g, hs, keys) <==> forall k :: k in keys ==> exists h :: h in hs && k in g[h].keys
    ensures forall k :: k in KeysOf(g, hs) <==> exists h :: h in hs && k in g[h].keys
  {
  }

  lemma CoverNonempty(g: Graph, t: seq<nat>, keys: set<string>)
    requires keys != {} && Covers(g, t, keys)
    ensures t != []
  {
    var k :| k in keys;
    assert k in KeysOf(g, t);
  }
}
