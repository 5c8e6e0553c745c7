/** `expand_dict`: dictionaries with tuple keys become nested dictionaries.  Expansion keeps what is
    said at every path, fails exactly when that is contradictory at some path, and ends because no
    merge deepens a dictionary. */
module ExpandDict {
  import opened PyStrings
  import opened NixMerge
  import opened PathMeaning

  // ----- Depth -----

  /** No path through v, a tuple counting for its length, is longer than n. */
  ghost predicate DepthAtMost(v: Value, n: nat)
    decreases v
  {
    match v
    case Dict(fields) =>
      forall k :: k in fields ==> |KeyPath(k)| <= n && DepthAtMost(fields[k], n - |KeyPath(k)|)
    case List(items) => n > 0 && forall i :: 0 <= i < |items| ==> DepthAtMost(items[i], n - 1)
    case _ => true
  }

  lemma {:induction false} DeeperBound(v: Value, n: nat, n': nat)
    requires DepthAtMost(v, n) && n <= n'
    ensures DepthAtMost(v, n')
    decreases v
  {
    match v
    case Dict(fields) =>
      forall k | k in fields
        ensures DepthAtMost(fields[k], n' - |KeyPath(k)|)
      {
        DeeperBound(fields[k], n - |KeyPath(k)|, n' - |KeyPath(k)|);
      }
    case List(items) =>
      forall i | 0 <= i < |items|
        ensures DepthAtMost(items[i], n' - 1)
      {
        DeeperBound(items[i], n - 1, n' - 1);
      }
    case _ =>
  }

  /** Every value has some depth. */
  lemma {:induction false} HasDepth(v: Value) returns (n: nat)
    ensures DepthAtMost(v, n)
    decreases v
  {
    n := 1;
    match v
    case Dict(fields) =>
      var done: set<Key> := {};
      while done != fields.Keys
        invariant done <= fields.Keys
        invariant forall k :: k in done ==> |KeyPath(k)| <= n && DepthAtMost(fields[k], n - |KeyPath(k)|)
        decreases fields.Keys - done
      {
        assert fields.Keys - done != {};
        var k :| k in fields && k !in done;
        var d := HasDepth(fields[k]);
        var larger := n + |KeyPath(k)| + d;
        forall j | j in done + {k}
          ensures DepthAtMost(fields[j], larger - |KeyPath(j)|)
        {
          DeeperBound(fields[j], if j in done then n - |KeyPath(j)| else d, larger - |KeyPath(j)|);
        }
        n, done := larger, done + {k};
      }
    case List(items) =>
      for i := 0 to |items|
        invariant n > 0 && forall j :: 0 <= j < i ==> DepthAtMost(items[j], n - 1)
      {
        var d := HasDepth(items[i]);
        forall j | 0 <= j <= i
          ensures DepthAtMost(items[j], n + d)
        {
          DeeperBound(items[j], if j < i then n - 1 else d, n + d);
        }
        n := n + d + 1;
      }
    case _ =>
  }

  /** nixmerge never deepens: this is what ends the recursion of expand_dict. */
  lemma {:induction false} MergeDepth(a: Value, b: Value, n: nat)
    requires DepthAtMost(a, n) && DepthAtMost(b, n) && Merge(a, b).Some?
    ensures DepthAtMost(Merge(a, b).value, n)
    decreases a
  {
    if a.Dict? {
      forall k | k in a.fields && k in b.fields
        ensures DepthAtMost(Merge(a.fields[k], b.fields[k]).value, n - |KeyPath(k)|)
      {
        MergeDepth(a.fields[k], b.fields[k], n - |KeyPath(k)|);
      }
    } else {
      DedupeHashable(a.items + b.items);
    }
  }

  // ----- Expanded dictionaries -----

  ghost predicate NamesOnly(m: map<Key, Value>) {
    forall k :: k in m ==> k.Name?
  }

  /** No tuple key remains in any dictionary reached through dictionaries. */
  ghost predicate TupleFree(v: Value)
    decreases v
  {
    v.Dict? ==> forall k :: k in v.fields ==> k.Name? && TupleFree(v.fields[k])
  }

  /** e is m with its tuple keys expanded: it has no tuple keys, and at every path it says what m
      says there, a list being the merge of all lists m states at that path. */
  ghost predicate ExpandsTo(m: map<Key, Value>, e: map<Key, Value>) {
    && TupleFree(Dict(e))
    && forall p :: Holds(Mean(Dict(e), p), Mean(Dict(m), p))
  }

  /** Something is contradictory about m. */
  ghost predicate Contradictory(m: map<Key, Value>) {
    exists p :: Mean(Dict(m), p) == Clash
  }

  /** An expanded dictionary says at a path what is found by following it. */
  lemma {:induction false} Follow(m: map<Key, Value>, p: seq<string>)
    requires NamesOnly(m)
    ensures Mean(Dict(m), p) ==
            if p == [] then ADict else if Name(p[0]) in m then Mean(m[Name(p[0])], p[1..]) else Nothing
  {
    hide Sum, Term;
    if p != [] {
      SumOfNames(m, m.Keys, p);
    }
  }

  lemma {:induction false} TupleFreeMean(v: Value, p: seq<string>)
    requires TupleFree(v)
    ensures Single(Mean(v, p))
    decreases v
  {
    if v.List? && p == [] {
      assert Mean(v, p).parts == multiset{v.items};
    }
    if v.Dict? {
      Follow(v.fields, p);
      if p != [] && Name(p[0]) in v.fields {
        TupleFreeMean(v.fields[Name(p[0])], p[1..]);
      }
    }
  }

  // ----- The loops of the original -----

  /** What key k becomes: a dictionary with a string key. */
  function PartOf(k: Key, v: Value): map<Key, Value>
    requires k != Path([])
  {
    match k
    case Name(_) => map[k := v]
    case Path(path) => map[Name(path[0]) := if |path| > 1 then Dict(map[Path(path[1..]) := v]) else v]
  }

  ghost function PartsMean(parts: seq<map<Key, Value>>, p: seq<string>): Content {
    if parts == [] then Nothing
    else
      var n := |parts| - 1;
      Combine(PartsMean(parts[..n], p), Mean(Dict(parts[n]), p))
  }

  ghost predicate AreParts(parts: seq<map<Key, Value>>, n: nat) {
    forall i :: 0 <= i < |parts| ==> NamesOnly(parts[i]) && DepthAtMost(Dict(parts[i]), n)
  }

  lemma SingletonMean(k: Key, v: Value, p: seq<string>)
    requires p != []
    ensures Mean(Dict(map[k := v]), p) == Term(map[k := v], k, p, Dict(map[k := v]))
  {
    hide Combine, Term;
    var m := map[k := v];
    assert m.Keys - {k} == {};
    SumTake(m, m.Keys, p, Dict(m), k);
    CombineLaws(Term(m, k, p, Dict(m)), Nothing, Nothing);
  }

  /** The part made from a key says what the key said. */
  lemma PartMean(m: map<Key, Value>, k: Key, p: seq<string>)
    requires k in m && k != Path([]) && p != []
    ensures Mean(Dict(PartOf(k, m[k])), p) == Term(m, k, p, Dict(m))
  {
    hide Combine, Mean, Sum;
    match k
    case Name(_) =>
      SingletonMean(k, m[k], p);
    case Path(path) =>
      var part := PartOf(k, m[k]);
      var inner := Dict(map[Path(path[1..]) := m[k]]);
      SingletonMean(Name(path[0]), part[Name(path[0])], p);
      if |path| > 1 {
        InnerMean(Path(path[1..]), m[k], p[1..]);
        assert KeyPath(k) <= p <==> [path[0]] <= p && path[1..] <= p[1..];
        assert p <= KeyPath(k) <==> p[0] == path[0] && p[1..] <= path[1..];
        if path <= p {
          assert p[1..][|path| - 1..] == p[|path|..];
        }
      } else {
        assert path == [path[0]];
      }
  }

  lemma InnerMean(k: Key, v: Value, p: seq<string>)
    requires k != Path([])
    ensures Mean(Dict(map[k := v]), p) == if p == [] then ADict else Term(map[k := v], k, p, Dict(map[k := v]))
  {
    if p != [] {
      SingletonMean(k, v, p);
    } else {
      assert Path([]) !in map[k := v];
    }
  }

  lemma PartDepth(k: Key, v: Value, n: nat)
    requires k != Path([]) && |KeyPath(k)| <= n && DepthAtMost(v, n - |KeyPath(k)|)
    ensures NamesOnly(PartOf(k, v)) && DepthAtMost(Dict(PartOf(k, v)), n)
  {
    match k
    case Name(_) =>
    case Path(path) =>
      if |path| > 1 {
        var inner := map[Path(path[1..]) := v];
        assert KeyPath(Path(path[1..])) == path[1..];
        assert DepthAtMost(Dict(inner), n - 1);
      }
  }

  /** The parts and the strings collected so far say what the keys done so far say. */
  ghost predicate Collected(paths: seq<map<Key, Value>>, strings: map<Key, Value>, m: map<Key, Value>, done: set<Key>)
    requires done <= m.Keys
  {
    forall p :: p != [] ==> Combine(PartsMean(paths, p), Mean(Dict(strings), p)) == Sum(m, done, p, Dict(m))
  }

  lemma CollectPath(paths: seq<map<Key, Value>>, strings: map<Key, Value>, m: map<Key, Value>, done: set<Key>, k: Key)
    requires done <= m.Keys && k in m && k !in done && k.Path? && k != Path([])
    requires Collected(paths, strings, m, done)
    ensures Collected(paths + [PartOf(k, m[k])], strings, m, done + {k})
  {
    hide Combine, Term, Mean, Sum, PartOf;
    var part := PartOf(k, m[k]);
    forall p | p != []
      ensures Combine(PartsMean(paths + [part], p), Mean(Dict(strings), p)) == Sum(m, done + {k}, p, Dict(m))
    {
      PartMean(m, k, p);
      SumTake(m, done + {k}, p, Dict(m), k);
      assert done + {k} - {k} == done;
      assert (paths + [part])[..|paths|] == paths;
      var (x, y, t) := (PartsMean(paths, p), Mean(Dict(strings), p), Term(m, k, p, Dict(m)));
      CombineLaws(x, t, y);
      CombineLaws(t, x, y);
    }
  }

  lemma CollectString(paths: seq<map<Key, Value>>, strings: map<Key, Value>, m: map<Key, Value>, done: set<Key>, k: Key)
    requires done <= m.Keys && k in m && k !in done && k.Name? && k !in strings && NamesOnly(strings)
    requires Collected(paths, strings, m, done)
    ensures Collected(paths, strings[k := m[k]], m, done + {k})
  {
    hide Combine, Term, Mean, Sum;
    var more := strings[k := m[k]];
    forall p | p != []
      ensures Combine(PartsMean(paths, p), Mean(Dict(more), p)) == Sum(m, done + {k}, p, Dict(m))
    {
      SumTake(m, done + {k}, p, Dict(m), k);
      assert done + {k} - {k} == done;
      SumTake(more, more.Keys, p, Dict(more), k);
      assert more.Keys - {k} == strings.Keys;
      SumAgrees(more, strings, strings.Keys, p);
      MeanIsSum(more, p);
      MeanIsSum(strings, p);
      SameTerm(more, m, k, p);
      var (x, y, t) := (PartsMean(paths, p), Mean(Dict(strings), p), Term(m, k, p, Dict(m)));
      CombineLaws(x, t, y);
      CombineLaws(t, x, y);
    }
  }

  lemma MeanIsSum(m: map<Key, Value>, p: seq<string>)
    requires p != []
    ensures Mean(Dict(m), p) == Sum(m, m.Keys, p, Dict(m))
  {
  }

  lemma SameTerm(a: map<Key, Value>, b: map<Key, Value>, k: Key, p: seq<string>)
    requires k in a && k in b && a[k] == b[k]
    ensures Term(a, k, p, Dict(a)) == Term(b, k, p, Dict(b))
  {
  }

  lemma NothingCollected(m: map<Key, Value>)
    ensures Collected([], map[], m, {})
  {
  }

  /** The collecting loop, over the keys in any order. */
  method Collect(m: map<Key, Value>, ghost n: nat) returns (r: Option<seq<map<Key, Value>>>)
    requires DepthAtMost(Dict(m), n)
    ensures r.None? <==> Path([]) in m
    ensures r.Some? ==> r.value != [] && AreParts(r.value, n)
    ensures r.Some? ==> forall p :: p != [] ==> PartsMean(r.value, p) == Mean(Dict(m), p)
  {
    hide Combine, Term, Mean, Sum, Collected, PartsMean, PartOf;
    var paths: seq<map<Key, Value>>, strings: map<Key, Value> := [], map[];
    var todo := m.Keys;
    NothingCollected(m);
    assert m.Keys - todo == {};
    while todo != {}
      invariant todo <= m.Keys
      invariant Path([]) in m ==> Path([]) in todo
      invariant AreParts(paths, n) && NamesOnly(strings) && DepthAtMost(Dict(strings), n)
      invariant forall k :: k in strings ==> k !in todo
      invariant Collected(paths, strings, m, m.Keys - todo)
      decreases todo
    {
      var key :| key in todo;
      assert m.Keys - todo + {key} == m.Keys - (todo - {key});
      if key.Path? {
        if key.path == [] {
          return None;
        }
        PartDepth(key, m[key], n);
        CollectPath(paths, strings, m, m.Keys - todo, key);
        paths := paths + [PartOf(key, m[key])];
      } else {
        CollectString(paths, strings, m, m.Keys - todo, key);
        strings := strings[key := m[key]];
      }
      todo := todo - {key};
    }
    assert m.Keys - todo == m.Keys;
    r := Some(paths + [strings]);
    forall p: seq<string> | p != []
      ensures PartsMean(r.value, p) == Mean(Dict(m), p)
    {
      AllCollected(paths, strings, m, p);
    }
  }

  lemma AllCollected(paths: seq<map<Key, Value>>, strings: map<Key, Value>, m: map<Key, Value>, p: seq<string>)
    requires Collected(paths, strings, m, m.Keys) && p != []
    ensures PartsMean(paths + [strings], p) == Mean(Dict(m), p)
  {
    hide Combine, Sum, Term;
    assert (paths + [strings])[..|paths|] == paths;
  }

  /** `functools.reduce(nixmerge, parts)`. */
  method MergeAll(parts: seq<map<Key, Value>>, ghost n: nat) returns (r: Option<map<Key, Value>>)
    requires parts != [] && AreParts(parts, n)
    ensures r.Some? ==> NamesOnly(r.value) && DepthAtMost(Dict(r.value), n)
    ensures r.Some? ==> forall p :: Refines(Mean(Dict(r.value), p), PartsMean(parts, p))
    ensures r.None? ==> exists p :: p != [] && PartsMean(parts, p) == Clash
  {
    hide Combine, Mean, PartsMean, Refines, Merge;
    var acc := parts[0];
    FirstPart(parts);
    for i := 1 to |parts|
      invariant NamesOnly(acc) && DepthAtMost(Dict(acc), n)
      invariant forall p :: Refines(Mean(Dict(acc), p), PartsMean(parts[..i], p))
    {
      var merged := MergeValues(Dict(acc), Dict(parts[i]));
      assert parts[..i + 1][..i] == parts[..i];
      if merged.None? {
        ghost var p := MergeFailureClashes(Dict(acc), Dict(parts[i]));
        ClashStays(parts, i, acc, p);
        return None;
      }
      MergeDepth(Dict(acc), Dict(parts[i]), n);
      MergedNames(acc, parts[i], merged.value);
      forall p
        ensures Refines(Mean(merged.value, p), PartsMean(parts[..i + 1], p))
      {
        NextPart(parts, i, acc, merged.value, p);
      }
      acc := merged.value.fields;
    }
    assert parts[..|parts|] == parts;
    return Some(acc);
  }

  lemma FirstPart(parts: seq<map<Key, Value>>)
    requires parts != []
    ensures forall p :: Refines(Mean(Dict(parts[0]), p), PartsMean(parts[..1], p))
  {
    hide Combine, Mean;
    assert parts[..1][..0] == [] && parts[..1][0] == parts[0];
    forall p
      ensures PartsMean(parts[..1], p) == Mean(Dict(parts[0]), p)
    {
      assert PartsMean(parts[..1][..0], p) == Nothing;
      CombineLaws(Nothing, Mean(Dict(parts[0]), p), Nothing);
      CombineLaws(Mean(Dict(parts[0]), p), Nothing, Nothing);
    }
  }

  lemma MergedNames(a: map<Key, Value>, b: map<Key, Value>, c: Value)
    requires NamesOnly(a) && NamesOnly(b) && Merge(Dict(a), Dict(b)) == Some(c)
    ensures c.Dict? && NamesOnly(c.fields)
  {
  }

  lemma NextPart(parts: seq<map<Key, Value>>, i: nat, acc: map<Key, Value>, merged: Value, p: seq<string>)
    requires 0 < i < |parts| && Merge(Dict(acc), Dict(parts[i])) == Some(merged)
    requires Refines(Mean(Dict(acc), p), PartsMean(parts[..i], p))
    ensures Refines(Mean(merged, p), PartsMean(parts[..i + 1], p))
  {
    hide Combine, Mean, Merge;
    var (x, x', y) := (Mean(Dict(acc), p), PartsMean(parts[..i], p), Mean(Dict(parts[i]), p));
    assert parts[..i + 1][..i] == parts[..i];
    MergeAdds(Dict(acc), Dict(parts[i]), p);
    CombineRefines(x, x', y, y);
    RefinesTransitive(Mean(merged, p), Combine(x, y), Combine(x', y));
  }

  lemma {:induction false} ClashStays(parts: seq<map<Key, Value>>, i: nat, acc: map<Key, Value>, p: seq<string>)
    requires 0 < i < |parts| && NamesOnly(acc) && NamesOnly(parts[i])
    requires Refines(Mean(Dict(acc), p), PartsMean(parts[..i], p))
    requires Combine(Mean(Dict(acc), p), Mean(Dict(parts[i]), p)) == Clash
    ensures p != [] && PartsMean(parts, p) == Clash
  {
    hide Mean;
    var (x, x', y) := (Mean(Dict(acc), p), PartsMean(parts[..i], p), Mean(Dict(parts[i]), p));
    assert p != [] by {
      Follow(acc, []);
      Follow(parts[i], []);
    }
    assert parts[..i + 1][..i] == parts[..i];
    CombineRefines(x, x', y, y);
    ClashRemains(parts, i + 1, p);
  }

  lemma {:induction false} ClashRemains(parts: seq<map<Key, Value>>, i: nat, p: seq<string>)
    requires i <= |parts| && PartsMean(parts[..i], p) == Clash
    ensures PartsMean(parts, p) == Clash
    decreases |parts|
  {
    hide Mean;
    if i == |parts| {
      assert parts[..i] == parts;
    } else {
      var n := |parts| - 1;
      assert parts[..n][..i] == parts[..i];
      ClashRemains(parts[..n], i, p);
    }
  }

  /** expand_dict.  None stands for the KeyError of an empty tuple and the errors of nixmerge. */
  method Expand(m: map<Key, Value>, ghost n: nat) returns (r: Option<map<Key, Value>>)
    requires DepthAtMost(Dict(m), n)
    ensures r.Some? <==> !Contradictory(m)
    ensures r.Some? ==> ExpandsTo(m, r.value) && DepthAtMost(Dict(r.value), n)
    decreases n
  {
    hide Combine, Mean, PartsMean, Refines, Contradictory, ExpandsTo, TupleFree, Sum, Term;
    var parts := Collect(m, n);
    if parts.None? {
      EmptyTuple(m);
      return None;
    }
    var merged := MergeAll(parts.value, n);
    if merged.None? {
      ghost var p :| p != [] && PartsMean(parts.value, p) == Clash;
      IsContradictory(m, p);
      return None;
    }
    MergedMean(m, parts.value, merged.value);
    var out: map<Key, Value> := map[];
    var todo := merged.value.Keys;
    while todo != {}
      invariant todo <= merged.value.Keys
      invariant out.Keys == merged.value.Keys - todo
      invariant forall k :: k in out ==> Expanded(merged.value[k], out[k]) && DepthAtMost(out[k], n - 1)
      decreases todo
    {
      var key :| key in todo;
      var val := merged.value[key];
      assert key.Name? && DepthAtMost(val, n - 1);
      if val.Dict? {
        var inner := Expand(val.fields, n - 1);
        if inner.None? {
          ContradictionInside(m, merged.value, key);
          return None;
        }
        InnerExpanded(val.fields, inner.value);
        out := out[key := Dict(inner.value)];
      } else {
        LeafExpanded(val);
        out := out[key := val];
      }
      todo := todo - {key};
    }
    AllExpanded(m, merged.value, out);
    assert DepthAtMost(Dict(out), n);
    return Some(out);
  }

  /** e is v with its dictionaries expanded, if it is a dictionary. */
  ghost predicate Expanded(v: Value, e: Value) {
    TupleFree(e) && forall p :: Refines(Mean(e, p), Mean(v, p))
  }

  ghost predicate SameMeaning(merged: map<Key, Value>, m: map<Key, Value>) {
    forall p :: Refines(Mean(Dict(merged), p), Mean(Dict(m), p))
  }

  lemma EmptyTuple(m: map<Key, Value>)
    requires Path([]) in m
    ensures Contradictory(m)
  {
    assert Mean(Dict(m), []) == Clash;
  }

  lemma IsContradictory(m: map<Key, Value>, p: seq<string>)
    requires Mean(Dict(m), p) == Clash
    ensures Contradictory(m)
  {
  }

  lemma MergedMean(m: map<Key, Value>, parts: seq<map<Key, Value>>, merged: map<Key, Value>)
    requires Path([]) !in m && NamesOnly(merged)
    requires forall p :: p != [] ==> PartsMean(parts, p) == Mean(Dict(m), p)
    requires forall p :: Refines(Mean(Dict(merged), p), PartsMean(parts, p))
    ensures SameMeaning(merged, m)
  {
    hide PartsMean, Combine, Sum, Term;
    forall p
      ensures Refines(Mean(Dict(merged), p), Mean(Dict(m), p))
    {
      if p != [] {
        assert Refines(Mean(Dict(merged), p), PartsMean(parts, p));
      }
    }
  }

  lemma ContradictionInside(m: map<Key, Value>, merged: map<Key, Value>, key: Key)
    requires SameMeaning(merged, m) && NamesOnly(merged) && key in merged
    requires merged[key].Dict? && Contradictory(merged[key].fields)
    ensures Contradictory(m)
  {
    hide Combine, Sum, Term, Mean;
    var q :| Mean(merged[key], q) == Clash;
    var p := [key.name] + q;
    Follow(merged, p);
    assert p[1..] == q;
    assert Refines(Mean(Dict(merged), p), Mean(Dict(m), p));
    IsContradictory(m, p);
  }

  lemma InnerExpanded(m: map<Key, Value>, e: map<Key, Value>)
    requires ExpandsTo(m, e)
    ensures Expanded(Dict(m), Dict(e))
  {
    hide Mean, Refines, Holds;
    forall p
      ensures Refines(Mean(Dict(e), p), Mean(Dict(m), p))
    {
      TupleFreeMean(Dict(e), p);
      RefinesIffHolds(Mean(Dict(e), p), Mean(Dict(m), p));
    }
  }

  lemma LeafExpanded(v: Value)
    requires !v.Dict?
    ensures Expanded(v, v)
  {
  }

  lemma AllExpanded(m: map<Key, Value>, merged: map<Key, Value>, e: map<Key, Value>)
    requires SameMeaning(merged, m) && NamesOnly(merged) && e.Keys == merged.Keys
    requires forall k :: k in e ==> Expanded(merged[k], e[k])
    ensures ExpandsTo(m, e) && !Contradictory(m)
  {
    hide Combine, Sum, Term, Mean;
    forall p
      ensures Holds(Mean(Dict(e), p), Mean(Dict(m), p)) && Mean(Dict(m), p) != Clash
    {
      Follow(e, p);
      Follow(merged, p);
      if p != [] && Name(p[0]) in e {
        assert Refines(Mean(e[Name(p[0])], p[1..]), Mean(merged[Name(p[0])], p[1..]));
      }
      assert Refines(Mean(Dict(e), p), Mean(Dict(merged), p));
      RefinesTransitive(Mean(Dict(e), p), Mean(Dict(merged), p), Mean(Dict(m), p));
      TupleFreeMean(Dict(e), p);
      RefinesIffHolds(Mean(Dict(e), p), Mean(Dict(m), p));
    }
  }

  /** expand_dict as it is called, without a bound. */
  method ExpandDict(m: map<Key, Value>) returns (r: Option<map<Key, Value>>)
    ensures r.Some? <==> !Contradictory(m)
    ensures r.Some? ==> ExpandsTo(m, r.value)
  {
    ghost var n := HasDepth(Dict(m));
    r := Expand(m, n);
  }

  /** Every element of a list in the expansion is an element of a list stated at its path, and no
      element stated there is lost, but for equal ones. */
  lemma ExpandedElements(m: map<Key, Value>, e: map<Key, Value>, p: seq<string>, items: seq<Value>)
    requires ExpandsTo(m, e) && Mean(Dict(e), p) == Lists(multiset{items})
    ensures Mean(Dict(m), p).Lists?
    ensures forall x :: x in items ==> exists part :: part in Mean(Dict(m), p).parts && x in part
    ensures forall part, x :: part in Mean(Dict(m), p).parts && x in part ==> Canon(x) in Elements(items)
  {
    hide Mean, IsMergeOf, Elements, TupleFree;
    var (x, y) := (Mean(Dict(e), p), Mean(Dict(m), p));
    assert Holds(x, y);
    assert items in x.parts;
    if x == y {
      forall z | z in items
        ensures Canon(z) in Elements(items)
      {
        ElementsOfMember(items, z);
      }
    } else {
      var items' :| x.parts == multiset{items'} && IsMergeOf(items', y.parts);
      assert items in multiset{items'};
      MergedElements(items, y.parts);
    }
  }

  /** An atom of m stands at its path in the expansion, and nothing else does. */
  lemma ExpandedAtom(m: map<Key, Value>, e: map<Key, Value>, p: seq<string>, x: Value)
    requires ExpandsTo(m, e) && Stands(Dict(m), p, x) && IsAtom(x)
    ensures Stands(Dict(e), p, x)
    ensures forall y :: Stands(Dict(e), p, y) ==> y == x
  {
    hide Mean, Stands;
    assert Holds(Mean(Dict(e), p), Mean(Dict(m), p));
    TupleFreeMean(Dict(e), p);
    StandsSaid(Dict(m), p, x);
    FoundThere(Dict(e), p, x);
    forall y | Stands(Dict(e), p, y)
      ensures y == x
    {
      StandsSaid(Dict(e), p, y);
    }
  }

  lemma {:induction false} FoundThere(v: Value, p: seq<string>, x: Value)
    requires TupleFree(v) && Mean(v, p) == Atom(x)
    ensures Stands(v, p, x)
    decreases v
  {
    if v.Dict? {
      Follow(v.fields, p);
      var k := Name(p[0]);
      FoundThere(v.fields[k], p[1..], x);
      assert KeyPath(k) == [p[0]] <= p;
    }
  }

  // ----- Expansion is unique and idempotent -----

  /** Equal, or the same lists merged in two orders. */
  ghost predicate Agree(x: Content, y: Content) {
    x == y ||
    (x.Lists? && y.Lists? &&
     exists a, b :: x.parts == multiset{a} && y.parts == multiset{b} && SameMerge(a, b))
  }

  lemma HoldBoth(x: Content, y: Content, z: Content)
    requires Holds(x, z) && Holds(y, z) && Single(x) && Single(y)
    ensures Agree(x, y)
  {
    hide IsMergeOf;
    if x != y {
      if x == z {
        var b :| y.parts == multiset{b} && IsMergeOf(b, z.parts);
        MergeHasParts(b, z.parts);
      } else if y == z {
        var a :| x.parts == multiset{a} && IsMergeOf(a, z.parts);
        MergeHasParts(a, z.parts);
      } else {
        var a :| x.parts == multiset{a} && IsMergeOf(a, z.parts);
        var b :| y.parts == multiset{b} && IsMergeOf(b, z.parts);
        assert SameMerge(a, b);
      }
    }
  }

  lemma MergeHasParts(items: seq<Value>, parts: multiset<seq<Value>>)
    requires IsMergeOf(items, parts)
    ensures forall l :: parts != multiset{l}
  {
  }

  lemma {:induction false} ChildAgrees(a: map<Key, Value>, b: map<Key, Value>, k: Key, q: seq<string>)
    requires NamesOnly(a) && NamesOnly(b) && k.Name? && k in a && k in b
    requires Agree(Mean(Dict(a), [k.name] + q), Mean(Dict(b), [k.name] + q))
    ensures Agree(Mean(a[k], q), Mean(b[k], q))
    ensures Mean(Dict(a), [k.name] + q) == Mean(Dict(b), [k.name] + q) ==> Mean(a[k], q) == Mean(b[k], q)
  {
    hide Mean, Agree;
    var p := [k.name] + q;
    assert p[1..] == q;
    Follow(a, p);
    Follow(b, p);
  }

  lemma {:induction false} SameKeys(a: map<Key, Value>, b: map<Key, Value>)
    requires NamesOnly(a) && NamesOnly(b)
    requires forall p :: Agree(Mean(Dict(a), p), Mean(Dict(b), p))
    ensures a.Keys == b.Keys
  {
    hide Sum, Term;
    forall k: Key
      ensures k in a <==> k in b
    {
      if k.Name? {
        Follow(a, [k.name]);
        Follow(b, [k.name]);
        assert Agree(Mean(Dict(a), [k.name]), Mean(Dict(b), [k.name]));
        assert [k.name][1..] == [];
        if k in a {
          SomethingHere(a, k);
        }
        if k in b {
          SomethingHere(b, k);
        }
      }
    }
  }

  lemma SomethingHere(m: map<Key, Value>, k: Key)
    requires k in m
    ensures Mean(m[k], []) != Nothing
  {
  }

  /** Expanded values that mean the same are the same, up to the order of merged lists. */
  lemma {:induction false} MeaningDetermines(a: Value, b: Value)
    requires TupleFree(a) && TupleFree(b)
    requires forall p :: Agree(Mean(a, p), Mean(b, p))
    ensures SameUpToOrder(a, b)
    ensures (forall p :: Mean(a, p) == Mean(b, p)) ==> a == b
    decreases a
  {
    hide Sum, Term, Agree;
    RootsAgree(a, b);
    if a.Dict? {
      SameKeys(a.fields, b.fields);
      forall k | k in a.fields
        ensures SameUpToOrder(a.fields[k], b.fields[k])
        ensures (forall p :: Mean(a, p) == Mean(b, p)) ==> a.fields[k] == b.fields[k]
      {
        forall q
          ensures Agree(Mean(a.fields[k], q), Mean(b.fields[k], q))
          ensures (forall p :: Mean(a, p) == Mean(b, p)) ==> Mean(a.fields[k], q) == Mean(b.fields[k], q)
        {
          ChildAgrees(a.fields, b.fields, k, q);
        }
        MeaningDetermines(a.fields[k], b.fields[k]);
      }
    }
  }

  lemma RootsAgree(a: Value, b: Value)
    requires TupleFree(a) && TupleFree(b)
    requires Agree(Mean(a, []), Mean(b, []))
    ensures a.Dict? <==> b.Dict?
    ensures !a.Dict? ==> SameUpToOrder(a, b) && (Mean(a, []) == Mean(b, []) ==> a == b)
  {
  }

  /** All expansions of m are the same, up to the order of merged lists. */
  lemma ExpansionsAgree(m: map<Key, Value>, e1: map<Key, Value>, e2: map<Key, Value>)
    requires ExpandsTo(m, e1) && ExpandsTo(m, e2)
    ensures SameUpToOrder(Dict(e1), Dict(e2))
  {
    hide Mean;
    forall p
      ensures Agree(Mean(Dict(e1), p), Mean(Dict(e2), p))
    {
      TupleFreeMean(Dict(e1), p);
      TupleFreeMean(Dict(e2), p);
      HoldBoth(Mean(Dict(e1), p), Mean(Dict(e2), p), Mean(Dict(m), p));
    }
    MeaningDetermines(Dict(e1), Dict(e2));
  }

  /** Nothing is merged where nothing is said twice. */
  lemma OnceIsAll(x: Content, y: Content)
    requires Single(y)
    ensures y != Clash && (Holds(x, y) <==> x == y)
  {
    hide IsMergeOf;
    if x != y && Holds(x, y) {
      var items :| x.parts == multiset{items} && IsMergeOf(items, y.parts);
      MergeHasParts(items, y.parts);
    }
  }

  /** Expanding an expanded dictionary always works and gives exactly that dictionary. */
  lemma ExpandingTwice(e: map<Key, Value>, e': map<Key, Value>)
    requires TupleFree(Dict(e))
    ensures !Contradictory(e)
    ensures ExpandsTo(e, e') <==> e' == e
  {
    hide Mean, Holds, Single;
    forall p
      ensures Single(Mean(Dict(e), p)) && Mean(Dict(e), p) != Clash && Holds(Mean(Dict(e), p), Mean(Dict(e), p))
    {
      TupleFreeMean(Dict(e), p);
      OnceIsAll(Mean(Dict(e), p), Mean(Dict(e), p));
    }
    if ExpandsTo(e, e') {
      forall p
        ensures Mean(Dict(e'), p) == Mean(Dict(e), p)
      {
        OnceIsAll(Mean(Dict(e'), p), Mean(Dict(e), p));
      }
      MeaningDetermines(Dict(e'), Dict(e));
    }
  }
}
