/** What a value with tuple keys says at each path: a sum over every key that leads there, to
    which `nixmerge` adds. */
module PathMeaning {
  import opened PyStrings
  import opened NixMerge

  function KeyPath(k: Key): seq<string> {
    match k
    case Name(name) => [name]
    case Path(path) => path
  }

  // ----- What a value says at a path -----

  /** The sum of the statements made at one path.  `Lists` holds every list stated there. */
  datatype Content =
    | Nothing
    | ADict
    | Atom(value: Value)
    | Lists(parts: multiset<seq<Value>>)
    | Clash

  ghost predicate Mergeable(x: Content) {
    x.Lists? && AllPartsHashable(x.parts)
  }

  ghost predicate AllPartsHashable(parts: multiset<seq<Value>>) {
    forall part :: part in parts ==> AllHashable(part)
  }

  ghost function Combine(x: Content, y: Content): Content {
    if x.Nothing? then y
    else if y.Nothing? then x
    else if x.ADict? && y.ADict? then ADict
    else if Mergeable(x) && Mergeable(y) then Lists(x.parts + y.parts)
    else Clash
  }

  /** a is b with two of its lists merged. */
  ghost predicate MergesTwo(b: multiset<seq<Value>>, a: multiset<seq<Value>>) {
    exists rest, k, l :: MergesThese(b, a, rest, k, l)
  }

  ghost predicate MergesThese(b: multiset<seq<Value>>, a: multiset<seq<Value>>, rest: multiset<seq<Value>>,
                              k: seq<Value>, l: seq<Value>) {
    && AllHashable(k) && AllHashable(l)
    && b == rest + multiset{k, l}
    && a == rest + multiset{Dedupe(k + l)}
  }

  /** a is b with lists merged n times. */
  ghost predicate Reduces(b: multiset<seq<Value>>, a: multiset<seq<Value>>, n: nat)
    decreases n
  {
    if n == 0 then a == b else exists c :: MergesTwo(b, c) && Reduces(c, a, n - 1)
  }

  ghost predicate ReducesTo(b: multiset<seq<Value>>, a: multiset<seq<Value>>) {
    exists n: nat :: Reduces(b, a, n)
  }

  /** x is what y says, with some lists actually merged. */
  ghost predicate Refines(x: Content, y: Content) {
    x == y || (x.Lists? && y.Lists? && ReducesTo(y.parts, x.parts))
  }

  ghost function LeafContent(v: Value): Content {
    match v
    case List(items) => Lists(multiset{items})
    case Dict(_) => ADict
    case _ => Atom(v)
  }

  /** The statement of key k of a dictionary at a nonempty path: along a longer tuple there is a
      dictionary; an empty tuple is contradictory at the dictionary itself. */
  ghost function Term(m: map<Key, Value>, k: Key, p: seq<string>, whole: Value): Content
    requires k in m && m[k] < whole
    decreases whole, 0, 0
  {
    var kp := KeyPath(k);
    if kp == [] then Nothing
    else if |p| < |kp| then if p <= kp then ADict else Nothing
    else if kp <= p then Mean(m[k], p[|kp|..]) else Nothing
  }

  ghost function Sum(m: map<Key, Value>, ks: set<Key>, p: seq<string>, whole: Value): Content
    requires ks <= m.Keys && forall k :: k in m ==> m[k] < whole
    decreases whole, 1, |ks|
  {
    if ks == {} then Nothing
    else
      var k :| k in ks;
      Combine(Term(m, k, p, whole), Sum(m, ks - {k}, p, whole))
  }

  /** Everything v says at path p. */
  ghost function Mean(v: Value, p: seq<string>): Content
    decreases v, 2, 0
  {
    if !v.Dict? then if p == [] then LeafContent(v) else Nothing
    else if p == [] then if Path([]) in v.fields then Clash else ADict
    else Sum(v.fields, v.fields.Keys, p, v)
  }

  // ----- Combine is a commutative monoid, and refinement respects it -----

  /** Two statements contradict each other unless both say there is a dictionary, or both are lists
      without lists or dictionaries in them. */
  lemma CombineClashIff(x: Content, y: Content)
    ensures Combine(x, y) == Clash <==>
            || x == Clash || y == Clash
            || (x != Nothing && y != Nothing && !(x == ADict && y == ADict) && !(ListsOfAtoms(x) && ListsOfAtoms(y)))
  {
    AtomLists(x);
    AtomLists(y);
  }

  predicate IsAtom(v: Value) { v.Null? || v.Bool? || v.Int? || v.Str? }

  ghost predicate ListsOfAtoms(x: Content) {
    x.Lists? && forall part, v :: part in x.parts && v in part ==> IsAtom(v)
  }

  lemma AtomLists(x: Content)
    ensures Mergeable(x) <==> ListsOfAtoms(x)
  {
    if ListsOfAtoms(x) {
      forall part | part in x.parts
        ensures AllHashable(part)
      {
        assert forall i :: 0 <= i < |part| ==> part[i] in part;
      }
    }
    if Mergeable(x) {
      forall part, v | part in x.parts && v in part
        ensures IsAtom(v)
      {
        assert AllHashable(part);
      }
    }
  }

  lemma CombineLaws(x: Content, y: Content, z: Content)
    ensures Combine(x, y) == Combine(y, x)
    ensures Combine(x, Combine(y, z)) == Combine(Combine(x, y), z)
    ensures Combine(x, Nothing) == x
    ensures Combine(x, Clash) == Clash
  {
  }

  lemma MergesBeside(b: multiset<seq<Value>>, a: multiset<seq<Value>>, c: multiset<seq<Value>>)
    requires MergesTwo(b, a)
    ensures MergesTwo(b + c, a + c)
  {
    hide AllHashable, Dedupe;
    var rest, k, l :| MergesThese(b, a, rest, k, l);
    assert rest + multiset{k, l} + c == rest + c + multiset{k, l};
    assert rest + multiset{Dedupe(k + l)} + c == rest + c + multiset{Dedupe(k + l)};
    assert MergesThese(b + c, a + c, rest + c, k, l);
  }

  /** Merging two lists goes on beside other lists. */
  lemma {:induction false} ReducesBeside(b: multiset<seq<Value>>, a: multiset<seq<Value>>, n: nat, c: multiset<seq<Value>>)
    requires Reduces(b, a, n)
    ensures Reduces(b + c, a + c, n)
    decreases n
  {
    hide MergesTwo;
    if n > 0 {
      var m :| MergesTwo(b, m) && Reduces(m, a, n - 1);
      MergesBeside(b, m, c);
      ReducesBeside(m, a, n - 1, c);
    }
  }

  lemma {:induction false} ReducesOn(c: multiset<seq<Value>>, b: multiset<seq<Value>>, a: multiset<seq<Value>>, n: nat, m: nat)
    requires Reduces(c, b, n) && Reduces(b, a, m)
    ensures Reduces(c, a, n + m)
    decreases n
  {
    hide MergesTwo;
    if n > 0 {
      var d :| MergesTwo(c, d) && Reduces(d, b, n - 1);
      ReducesOn(d, b, a, n - 1, m);
    }
  }

  lemma MergesHashable(b: multiset<seq<Value>>, a: multiset<seq<Value>>)
    requires MergesTwo(b, a)
    ensures AllPartsHashable(b) <==> AllPartsHashable(a)
  {
    hide AllHashable, Dedupe;
    var rest, k, l :| MergesThese(b, a, rest, k, l);
    HashableParts(k, l);
    DedupeHashable(k + l);
    assert forall part :: part in b <==> part in rest || part == k || part == l;
    assert forall part :: part in a <==> part in rest || part == Dedupe(k + l);
  }

  /** Lists that were not hashable were not merged, and merged ones are. */
  lemma {:induction false} ReducesHashable(b: multiset<seq<Value>>, a: multiset<seq<Value>>, n: nat)
    requires Reduces(b, a, n)
    ensures AllPartsHashable(b) <==> AllPartsHashable(a)
    decreases n
  {
    hide MergesTwo, AllPartsHashable;
    if n > 0 {
      var c :| MergesTwo(b, c) && Reduces(c, a, n - 1);
      ReducesHashable(c, a, n - 1);
      MergesHashable(b, c);
    }
  }

  lemma CombineRefines(x: Content, x': Content, y: Content, y': Content)
    requires Refines(x, x') && Refines(y, y')
    ensures Refines(Combine(x, y), Combine(x', y'))
  {
    hide ReducesTo, AllPartsHashable;
    if x.Lists? && y.Lists? {
      CombineListsRefines(x.parts, x'.parts, y.parts, y'.parts);
    } else {
      OneNoList(x, x', y, y');
    }
  }

  lemma OneNoList(x: Content, x': Content, y: Content, y': Content)
    requires Refines(x, x') && Refines(y, y') && !(x.Lists? && y.Lists?)
    ensures Refines(Combine(x, y), Combine(x', y'))
  {
    hide ReducesTo, AllPartsHashable;
  }

  lemma CombineListsRefines(a: multiset<seq<Value>>, b: multiset<seq<Value>>, a': multiset<seq<Value>>, b': multiset<seq<Value>>)
    requires Refines(Lists(a), Lists(b)) && Refines(Lists(a'), Lists(b'))
    ensures Refines(Combine(Lists(a), Lists(a')), Combine(Lists(b), Lists(b')))
  {
    ReducesParts(a, b);
    ReducesParts(a', b');
    hide AllPartsHashable, ReducesTo, Refines;
    CombinedParts(a, a');
    CombinedParts(b, b');
    if AllPartsHashable(a) && AllPartsHashable(a') {
      BothReduceTo(b, a, b', a');
      ReducedRefines(a + a', b + b');
    } else {
      RefinesItself(Clash);
    }
  }

  lemma CombinedParts(a: multiset<seq<Value>>, b: multiset<seq<Value>>)
    ensures Combine(Lists(a), Lists(b)) ==
            if AllPartsHashable(a) && AllPartsHashable(b) then Lists(a + b) else Clash
  {
    hide AllPartsHashable;
  }

  lemma ReducesParts(a: multiset<seq<Value>>, b: multiset<seq<Value>>)
    requires Refines(Lists(a), Lists(b))
    ensures ReducesTo(b, a) && (AllPartsHashable(b) <==> AllPartsHashable(a))
  {
    var n := Reduction(Lists(a), Lists(b));
    hide Reduces, AllPartsHashable;
    ReducesHashable(b, a, n);
  }

  lemma BothReduceTo(b: multiset<seq<Value>>, a: multiset<seq<Value>>, b': multiset<seq<Value>>, a': multiset<seq<Value>>)
    requires ReducesTo(b, a) && ReducesTo(b', a')
    ensures ReducesTo(b + b', a + a')
  {
    hide Reduces;
    var n: nat :| Reduces(b, a, n);
    var m: nat :| Reduces(b', a', m);
    BothReduce(b, a, n, b', a', m);
  }

  lemma ReducedRefines(a: multiset<seq<Value>>, b: multiset<seq<Value>>)
    requires ReducesTo(b, a)
    ensures Refines(Lists(a), Lists(b))
  {
    hide ReducesTo;
  }

  lemma RefinesItself(x: Content)
    ensures Refines(x, x)
  {
    hide ReducesTo;
  }

  lemma BothReduce(b: multiset<seq<Value>>, a: multiset<seq<Value>>, n: nat, b': multiset<seq<Value>>, a': multiset<seq<Value>>, m: nat)
    requires Reduces(b, a, n) && Reduces(b', a', m)
    ensures ReducesTo(b + b', a + a')
  {
    hide Reduces;
    ReducesBeside(b, a, n, b');
    ReducesBeside(b', a', m, a);
    assert b' + a == a + b' && a' + a == a + a';
    ReducesOn(b + b', a + b', a + a', n, m);
  }

  lemma Reduction(x: Content, x': Content) returns (n: nat)
    requires Refines(x, x') && x.Lists?
    ensures x'.Lists? && Reduces(x'.parts, x.parts, n)
  {
    if x == x' {
      n := 0;
    } else {
      n :| Reduces(x'.parts, x.parts, n);
    }
  }

  lemma RefinesTransitive(x: Content, y: Content, z: Content)
    requires Refines(x, y) && Refines(y, z)
    ensures Refines(x, z)
  {
    if x.Lists? {
      var n := Reduction(x, y);
      var m := Reduction(y, z);
      ReducesOn(z.parts, y.parts, x.parts, m, n);
    }
  }

  lemma OneMerge(b: multiset<seq<Value>>, a: multiset<seq<Value>>)
    requires MergesTwo(b, a)
    ensures Reduces(b, a, 1)
  {
    hide MergesTwo;
    var n: nat := 0;
    assert Reduces(a, a, n);
    assert MergesTwo(b, a) && Reduces(a, a, 1 - 1);
  }

  /** Two lists that are merged are stated by the merge of them. */
  lemma MergeRefines(k: seq<Value>, l: seq<Value>)
    requires AllHashable(k) && AllHashable(l)
    ensures Refines(Lists(multiset{Dedupe(k + l)}), Combine(Lists(multiset{k}), Lists(multiset{l})))
  {
    var b, a := multiset{k} + multiset{l}, multiset{Dedupe(k + l)};
    assert multiset{} + multiset{k, l} == b && multiset{} + a == a;
    assert MergesThese(b, a, multiset{}, k, l);
    OneMerge(b, a);
    assert Mergeable(Lists(multiset{k})) && Mergeable(Lists(multiset{l}));
  }

  /** Four statements in two pairs. */
  lemma CombineExchange(a: Content, b: Content, c: Content, d: Content)
    ensures Combine(Combine(a, b), Combine(c, d)) == Combine(Combine(a, c), Combine(b, d))
  {
    hide Combine;
    CombineLaws(a, b, Combine(c, d));
    CombineLaws(b, c, d);
    CombineLaws(c, b, d);
    CombineLaws(a, c, Combine(b, d));
  }

  // ----- Sums do not depend on the order of keys -----

  lemma {:induction false} SumTake(m: map<Key, Value>, ks: set<Key>, p: seq<string>, whole: Value, k: Key)
    requires ks <= m.Keys && k in ks && forall x :: x in m ==> m[x] < whole
    ensures Sum(m, ks, p, whole) == Combine(Term(m, k, p, whole), Sum(m, ks - {k}, p, whole))
    decreases |ks|
  {
    hide Combine, Term;
    var j :| j in ks && Sum(m, ks, p, whole) == Combine(Term(m, j, p, whole), Sum(m, ks - {j}, p, whole));
    if j != k {
      SumTake(m, ks - {j}, p, whole, k);
      SumTake(m, ks - {k}, p, whole, j);
      assert ks - {j} - {k} == ks - {k} - {j};
      var rest := Sum(m, ks - {j} - {k}, p, whole);
      CombineLaws(Term(m, j, p, whole), Term(m, k, p, whole), rest);
      CombineLaws(Term(m, k, p, whole), Term(m, j, p, whole), rest);
    }
  }

  // ----- Merging adds -----

  /** What k contributes to the sum, if it is there. */
  ghost function Part(m: map<Key, Value>, k: Key, p: seq<string>, whole: Value): Content
    requires forall x :: x in m ==> m[x] < whole
  {
    if k in m then Term(m, k, p, whole) else Nothing
  }

  /** Sum over the keys of ks that m has. */
  lemma {:induction false} SumPart(m: map<Key, Value>, ks: set<Key>, p: seq<string>, whole: Value, k: Key)
    requires k in ks && forall x :: x in m ==> m[x] < whole
    ensures Sum(m, ks * m.Keys, p, whole) == Combine(Part(m, k, p, whole), Sum(m, (ks - {k}) * m.Keys, p, whole))
  {
    hide Combine, Term, Sum;
    if k in m {
      SumTake(m, ks * m.Keys, p, whole, k);
      assert ks * m.Keys - {k} == (ks - {k}) * m.Keys;
    } else {
      assert ks * m.Keys == (ks - {k}) * m.Keys;
      CombineLaws(Sum(m, (ks - {k}) * m.Keys, p, whole), Nothing, Nothing);
    }
  }

  lemma {:induction false} SumMerged(a: map<Key, Value>, b: map<Key, Value>, c: map<Key, Value>, ks: set<Key>, p: seq<string>)
    requires c.Keys == a.Keys + b.Keys && ks <= c.Keys
    requires forall k :: k in c ==> Refines(Part(c, k, p, Dict(c)), Combine(Part(a, k, p, Dict(a)), Part(b, k, p, Dict(b))))
    ensures Refines(Sum(c, ks, p, Dict(c)), Combine(Sum(a, ks * a.Keys, p, Dict(a)), Sum(b, ks * b.Keys, p, Dict(b))))
    decreases |ks|
  {
    hide Combine, Term, Sum, Refines, Part;
    if ks == {} {
      EmptySums(a, b, c, p);
      assert ks * a.Keys == {} && ks * b.Keys == {};
    } else {
      var k :| k in ks;
      var ks' := ks - {k};
      assert ks * c.Keys == ks && ks' * c.Keys == ks';
      SumPart(c, ks, p, Dict(c), k);
      SumPart(a, ks, p, Dict(a), k);
      SumPart(b, ks, p, Dict(b), k);
      SumMerged(a, b, c, ks', p);
      var (pa, pb) := (Part(a, k, p, Dict(a)), Part(b, k, p, Dict(b)));
      var (sa, sb) := (Sum(a, ks' * a.Keys, p, Dict(a)), Sum(b, ks' * b.Keys, p, Dict(b)));
      CombineRefines(Part(c, k, p, Dict(c)), Combine(pa, pb), Sum(c, ks', p, Dict(c)), Combine(sa, sb));
      CombineExchange(pa, pb, sa, sb);
    }
  }

  lemma EmptySums(a: map<Key, Value>, b: map<Key, Value>, c: map<Key, Value>, p: seq<string>)
    ensures Refines(Sum(c, {}, p, Dict(c)), Combine(Sum(a, {}, p, Dict(a)), Sum(b, {}, p, Dict(b))))
  {
  }

  /** nixmerge adds: at each path the merged value says what the two values say together. */
  lemma {:induction false} MergeAdds(a: Value, b: Value, p: seq<string>)
    requires Merge(a, b).Some?
    ensures Refines(Mean(Merge(a, b).value, p), Combine(Mean(a, p), Mean(b, p)))
    decreases a
  {
    var c := Merge(a, b).value;
    if a.List? {
      HashableParts(a.items, b.items);
      MergeRefines(a.items, b.items);
    } else if p != [] {
      forall k | k in c.fields
        ensures Refines(Part(c.fields, k, p, c), Combine(Part(a.fields, k, p, a), Part(b.fields, k, p, b)))
      {
        if k in a.fields && k in b.fields && KeyPath(k) <= p && KeyPath(k) != [] {
          MergeAdds(a.fields[k], b.fields[k], p[|KeyPath(k)|..]);
        }
        PartAdds(a, b, c, k, p);
      }
      SumMerged(a.fields, b.fields, c.fields, c.fields.Keys, p);
      assert c.fields.Keys * a.fields.Keys == a.fields.Keys && c.fields.Keys * b.fields.Keys == b.fields.Keys;
    }
  }

  lemma PartAdds(a: Value, b: Value, c: Value, k: Key, p: seq<string>)
    requires a.Dict? && b.Dict? && Merge(a, b) == Some(c) && k in c.fields && p != []
    requires k in a.fields && k in b.fields && KeyPath(k) <= p && KeyPath(k) != [] ==>
      Refines(Mean(c.fields[k], p[|KeyPath(k)|..]),
              Combine(Mean(a.fields[k], p[|KeyPath(k)|..]), Mean(b.fields[k], p[|KeyPath(k)|..])))
    ensures Refines(Part(c.fields, k, p, c), Combine(Part(a.fields, k, p, a), Part(b.fields, k, p, b)))
  {
    hide Mean, Sum;
    var kp := KeyPath(k);
    if k in a.fields && k in b.fields {
    } else if k in a.fields {
      assert c.fields[k] == a.fields[k];
    } else {
      assert c.fields[k] == b.fields[k];
    }
  }

  /** nixmerge fails only if the two values contradict each other at some path. */
  lemma {:induction false} MergeFailureClashes(a: Value, b: Value) returns (p: seq<string>)
    requires Merge(a, b).None?
    ensures Combine(Mean(a, p), Mean(b, p)) == Clash
    decreases a
  {
    if a.Dict? && b.Dict? {
      var k :| k in a.fields && k in b.fields && Merge(a.fields[k], b.fields[k]).None?;
      if KeyPath(k) == [] {
        p := [];
        assert k == Path([]);
      } else {
        var q := MergeFailureClashes(a.fields[k], b.fields[k]);
        p := KeyPath(k) + q;
        TermClash(a, b, k, q);
      }
    } else {
      p := [];
      if a.List? && b.List? {
        HashableParts(a.items, b.items);
      }
    }
  }

  lemma TermClash(a: Value, b: Value, k: Key, q: seq<string>)
    requires a.Dict? && b.Dict? && k in a.fields && k in b.fields && KeyPath(k) != []
    requires Combine(Mean(a.fields[k], q), Mean(b.fields[k], q)) == Clash
    ensures Combine(Mean(a, KeyPath(k) + q), Mean(b, KeyPath(k) + q)) == Clash
  {
    hide Combine;
    var p := KeyPath(k) + q;
    assert p[|KeyPath(k)|..] == q;
    var (ta, tb) := (Term(a.fields, k, p, a), Term(b.fields, k, p, b));
    assert Combine(ta, tb) == Clash;
    SumTake(a.fields, a.fields.Keys, p, a, k);
    SumTake(b.fields, b.fields.Keys, p, b, k);
    var (ra, rb) := (Sum(a.fields, a.fields.Keys - {k}, p, a), Sum(b.fields, b.fields.Keys - {k}, p, b));
    CombineExchange(ta, ra, tb, rb);
    CombineLaws(Combine(ra, rb), Clash, Clash);
    CombineLaws(Clash, Combine(ra, rb), Clash);
  }

  // ----- Terms depend on one key's value only -----

  /** Merged parts are refined together, key by key. */
  lemma {:induction false} SumRefines(a: map<Key, Value>, b: map<Key, Value>, ks: set<Key>, p: seq<string>)
    requires a.Keys == b.Keys && ks <= a.Keys
    requires forall k :: k in ks ==> Refines(Term(a, k, p, Dict(a)), Term(b, k, p, Dict(b)))
    ensures Refines(Sum(a, ks, p, Dict(a)), Sum(b, ks, p, Dict(b)))
    decreases |ks|
  {
    hide Combine, Term, Refines;
    if ks == {} {
      CombineRefinesNothing();
    } else {
      var k :| k in ks && Sum(a, ks, p, Dict(a)) == Combine(Term(a, k, p, Dict(a)), Sum(a, ks - {k}, p, Dict(a)));
      SumTake(b, ks, p, Dict(b), k);
      SumRefines(a, b, ks - {k}, p);
      CombineRefines(Term(a, k, p, Dict(a)), Term(b, k, p, Dict(b)), Sum(a, ks - {k}, p, Dict(a)), Sum(b, ks - {k}, p, Dict(b)));
    }
  }

  lemma CombineRefinesNothing()
    ensures Refines(Nothing, Nothing)
  {
  }

  /** Sums over keys on which two dictionaries agree. */
  lemma {:induction false} SumAgrees(a: map<Key, Value>, b: map<Key, Value>, ks: set<Key>, p: seq<string>)
    requires ks <= a.Keys && ks <= b.Keys && forall k :: k in ks ==> a[k] == b[k]
    ensures Sum(a, ks, p, Dict(a)) == Sum(b, ks, p, Dict(b))
    decreases |ks|
  {
    hide Combine;
    if ks != {} {
      var k :| k in ks && Sum(a, ks, p, Dict(a)) == Combine(Term(a, k, p, Dict(a)), Sum(a, ks - {k}, p, Dict(a)));
      SumTake(b, ks, p, Dict(b), k);
      SumAgrees(a, b, ks - {k}, p);
      assert Term(a, k, p, Dict(a)) == Term(b, k, p, Dict(b));
    }
  }

  /** With string keys only, a dictionary says at a path what its one entry there says. */
  lemma {:induction false} SumOfNames(m: map<Key, Value>, ks: set<Key>, p: seq<string>)
    requires p != [] && ks <= m.Keys && forall k :: k in ks ==> k.Name?
    ensures Sum(m, ks, p, Dict(m)) == if Name(p[0]) in ks then Mean(m[Name(p[0])], p[1..]) else Nothing
    decreases |ks|
  {
    hide Combine, Mean;
    if ks != {} {
      var k :| k in ks && Sum(m, ks, p, Dict(m)) == Combine(Term(m, k, p, Dict(m)), Sum(m, ks - {k}, p, Dict(m)));
      SumOfNames(m, ks - {k}, p);
      CombineLaws(Term(m, k, p, Dict(m)), Nothing, Nothing);
      CombineLaws(Sum(m, ks - {k}, p, Dict(m)), Nothing, Nothing);
      assert KeyPath(k) <= p <==> k == Name(p[0]);
    }
  }

  // ----- Everything merged -----

  /** Something is said at most once. */
  ghost predicate Single(x: Content) {
    !x.Clash? && (x.Lists? ==> exists items :: x.parts == multiset{items})
  }

  /** x is what y says: the same, or one list that is the merge of all the lists y states. */
  ghost predicate Holds(x: Content, y: Content) {
    x == y || (x.Lists? && y.Lists? && exists items :: x.parts == multiset{items} && IsMergeOf(items, y.parts))
  }

  lemma DedupeMiddle(a: seq<Value>, x: seq<Value>, b: seq<Value>)
    ensures Dedupe(a + Dedupe(x) + b) == Dedupe(a + x + b)
  {
    hide Dedupe;
    DedupeRight(a, x);
    DedupeLeft(a + x, b);
    DedupeLeft(a + Dedupe(x), b);
  }

  lemma SplitMember(order: seq<seq<Value>>, m: seq<Value>) returns (a: seq<seq<Value>>, b: seq<seq<Value>>)
    requires m in multiset(order)
    ensures order == a + [m] + b && multiset(order) == multiset(a) + multiset{m} + multiset(b)
  {
    var j :| 0 <= j < |order| && order[j] == m;
    a, b := order[..j], order[j + 1..];
    assert order == a + [m] + b;
  }

  /** Merging two lists in a place of an order, or their merge there. */
  lemma UnmergeIn(a: seq<seq<Value>>, k: seq<Value>, l: seq<Value>, b: seq<seq<Value>>)
    ensures Dedupe(Flatten(a + [k, l] + b)) == Dedupe(Flatten(a + [Dedupe(k + l)] + b))
  {
    hide Dedupe, Flatten;
    var m := Dedupe(k + l);
    FlattenThree(a, [k, l], b);
    FlattenThree(a, [m], b);
    FlattenPair(k, l);
    FlattenPair(m, []);
    DedupeMiddle(Flatten(a), k + l, Flatten(b));
  }

  lemma FlattenThree(a: seq<seq<Value>>, b: seq<seq<Value>>, c: seq<seq<Value>>)
    ensures Flatten(a + b + c) == Flatten(a) + Flatten(b) + Flatten(c)
  {
    FlattenConcat(a + b, c);
    FlattenConcat(a, b);
  }

  lemma FlattenPair(k: seq<Value>, l: seq<Value>)
    ensures Flatten([k, l]) == k + l && Flatten([k]) == k
  {
    assert [k, l][1..] == [l] && [l][1..] == [] && [k][1..] == [];
    assert Flatten([l]) == l + [] == l;
    assert Flatten([k]) == k + [] == k;
  }

  /** A merge of lists two of which are already merged is a merge of them all. */
  lemma UnmergeTwo(items: seq<Value>, b: multiset<seq<Value>>, c: multiset<seq<Value>>)
    requires MergesTwo(b, c) && (c == multiset{items} || IsMergeOf(items, c))
    ensures IsMergeOf(items, b)
  {
    hide Dedupe, AllHashable, IsMergeOf;
    var rest, k, l :| MergesThese(b, c, rest, k, l);
    if c == multiset{items} {
      OnlyTwo(items, rest, k, l);
    } else {
      UnmergeOrder(items, rest, k, l);
    }
  }

  lemma OnlyTwo(items: seq<Value>, rest: multiset<seq<Value>>, k: seq<Value>, l: seq<Value>)
    requires AllHashable(k) && AllHashable(l) && rest + multiset{Dedupe(k + l)} == multiset{items}
    ensures IsMergeOf(items, rest + multiset{k, l})
  {
    hide Dedupe, AllHashable, IsMergeOf;
    assert |rest + multiset{Dedupe(k + l)}| == |rest| + 1;
    assert rest == multiset{};
    assert Dedupe(k + l) in multiset{items};
    MergeOfTwo(k, l);
    assert rest + multiset{k, l} == multiset{k, l};
  }

  lemma UnmergeOrder(items: seq<Value>, rest: multiset<seq<Value>>, k: seq<Value>, l: seq<Value>)
    requires AllHashable(k) && AllHashable(l) && IsMergeOf(items, rest + multiset{Dedupe(k + l)})
    ensures IsMergeOf(items, rest + multiset{k, l})
  {
    hide Dedupe, AllHashable, Flatten, IsMergeOf;
    var m := Dedupe(k + l);
    var order := OrderOf(items, rest + multiset{m});
    var a, d := SplitMember(order, m);
    UnmergeIn(a, k, l, d);
    UnmergedParts(rest, m, k, l, a, d);
    UnmergedHashable(rest, m, k, l);
    InOrder(a + [k, l] + d, rest + multiset{k, l});
  }

  lemma OrderOf(items: seq<Value>, parts: multiset<seq<Value>>) returns (order: seq<seq<Value>>)
    requires IsMergeOf(items, parts)
    ensures multiset(order) == parts && items == Dedupe(Flatten(order))
    ensures forall part :: part in parts ==> AllHashable(part)
  {
    hide Dedupe, AllHashable, Flatten;
    order :| multiset(order) == parts && items == Dedupe(Flatten(order));
  }

  lemma InOrder(order: seq<seq<Value>>, parts: multiset<seq<Value>>)
    requires multiset(order) == parts && |parts| > 1 && forall part :: part in parts ==> AllHashable(part)
    ensures IsMergeOf(Dedupe(Flatten(order)), parts)
  {
    hide Dedupe, AllHashable, Flatten;
  }

  lemma UnmergedHashable(rest: multiset<seq<Value>>, m: seq<Value>, k: seq<Value>, l: seq<Value>)
    requires AllHashable(k) && AllHashable(l) && forall part :: part in rest + multiset{m} ==> AllHashable(part)
    ensures |rest + multiset{k, l}| > 1 && forall part :: part in rest + multiset{k, l} ==> AllHashable(part)
  {
    hide AllHashable;
    assert |rest + multiset{k, l}| == |rest| + 2;
    forall part | part in rest + multiset{k, l}
      ensures AllHashable(part)
    {
      assert part in rest ==> part in rest + multiset{m};
    }
  }

  lemma UnmergedParts(rest: multiset<seq<Value>>, m: seq<Value>, k: seq<Value>, l: seq<Value>, a: seq<seq<Value>>, d: seq<seq<Value>>)
    requires multiset(a) + multiset{m} + multiset(d) == rest + multiset{m}
    ensures multiset(a + [k, l] + d) == rest + multiset{k, l}
  {
    assert multiset(a) + multiset(d) + multiset{m} == rest + multiset{m};
    Cancel(rest, multiset(a) + multiset(d), m);
    assert multiset([k, l]) == multiset{k, l};
    assert multiset(a + [k, l] + d) == multiset(a) + multiset{k, l} + multiset(d);
    assert multiset(a) + multiset{k, l} + multiset(d) == multiset(a) + multiset(d) + multiset{k, l};
  }

  lemma Cancel(a: multiset<seq<Value>>, b: multiset<seq<Value>>, m: seq<Value>)
    requires forall x :: (a + multiset{m})[x] == (b + multiset{m})[x]
    ensures a == b
  {
    forall x
      ensures a[x] == b[x]
    {
      assert (a + multiset{m})[x] == (b + multiset{m})[x];
    }
  }

  lemma {:induction false} ReducedIsMerge(b: multiset<seq<Value>>, items: seq<Value>, n: nat)
    requires Reduces(b, multiset{items}, n)
    ensures b == multiset{items} || IsMergeOf(items, b)
    decreases n
  {
    hide MergesTwo, IsMergeOf;
    if n > 0 {
      var c :| MergesTwo(b, c) && Reduces(c, multiset{items}, n - 1);
      ReducedIsMerge(c, items, n - 1);
      UnmergeTwo(items, b, c);
    }
  }

  lemma {:induction false} FoldReduces(order: seq<seq<Value>>) returns (n: nat)
    requires |order| > 1 && forall part :: part in order ==> AllHashable(part)
    ensures Reduces(multiset(order), multiset{Dedupe(Flatten(order))}, n)
    decreases |order|
  {
    hide AllHashable, Dedupe, Flatten, Reduces, MergesTwo;
    var (k, l, rest) := (order[0], order[1], order[2..]);
    var m := Dedupe(k + l);
    FirstTwo(order, k, l, rest);
    if rest == [] {
      assert [m] + rest == [m];
      FlattenPair(m, []);
      DedupeTwice(k + l);
      OneMerge(multiset(order), multiset{m});
      n := 1;
    } else {
      var more := FoldReduces([m] + rest);
      n := more + 1;
      FirstThenMore(multiset(order), multiset([m] + rest), multiset{Dedupe(Flatten(order))}, more);
    }
  }

  lemma FirstTwo(order: seq<seq<Value>>, k: seq<Value>, l: seq<Value>, rest: seq<seq<Value>>)
    requires order == [k, l] + rest && AllHashable(k) && AllHashable(l)
    ensures MergesTwo(multiset(order), multiset([Dedupe(k + l)] + rest))
    ensures AllHashable(Dedupe(k + l))
    ensures Dedupe(Flatten([Dedupe(k + l)] + rest)) == Dedupe(Flatten(order))
  {
    hide AllHashable, Dedupe, Flatten;
    var m := Dedupe(k + l);
    assert order == [] + [k, l] + rest && [m] + rest == [] + [m] + rest;
    UnmergeIn([], k, l, rest);
    HashableParts(k, l);
    DedupeHashable(k + l);
    assert multiset(order) == multiset(rest) + multiset{k, l};
    assert multiset([m] + rest) == multiset(rest) + multiset{m};
    assert MergesThese(multiset(order), multiset([m] + rest), multiset(rest), k, l);
  }

  lemma DedupeTwice(xs: seq<Value>)
    ensures Dedupe(Dedupe(xs)) == Dedupe(xs)
  {
    DedupeElements(xs);
    DistinctKept(Dedupe(xs));
  }

  lemma FirstThenMore(b: multiset<seq<Value>>, c: multiset<seq<Value>>, a: multiset<seq<Value>>, n: nat)
    requires MergesTwo(b, c) && Reduces(c, a, n)
    ensures Reduces(b, a, n + 1)
  {
    hide MergesTwo;
    assert MergesTwo(b, c) && Reduces(c, a, n + 1 - 1);
  }

  /** Merging lists two at a time until one is left is merging all of them in some order. */
  lemma RefinesIffHolds(x: Content, y: Content)
    requires Single(x)
    ensures Refines(x, y) <==> Holds(x, y)
  {
    hide IsMergeOf, Reduces;
    if x.Lists? && y.Lists? {
      var items :| x.parts == multiset{items};
      if Refines(x, y) {
        var n := Reduction(x, y);
        ReducedIsMerge(y.parts, items, n);
      }
      if x != y && Holds(x, y) {
        var items' :| x.parts == multiset{items'} && IsMergeOf(items', y.parts);
        MergeReduces(items', y.parts);
      }
    }
  }

  lemma MergeReduces(items: seq<Value>, parts: multiset<seq<Value>>)
    requires IsMergeOf(items, parts)
    ensures ReducesTo(parts, multiset{items})
  {
    var order :| multiset(order) == parts && items == Dedupe(Flatten(order));
    forall part | part in order
      ensures AllHashable(part)
    {
      assert part in multiset(order);
    }
    assert |order| == |multiset(order)|;
    var n := FoldReduces(order);
  }

  // ----- Where values stand -----

  /** x stands at path p in v. */
  ghost predicate Stands(v: Value, p: seq<string>, x: Value)
    decreases v
  {
    || (p == [] && x == v)
    || (v.Dict? && exists k :: k in v.fields && KeyPath(k) != [] && KeyPath(k) <= p && Stands(v.fields[k], p[|KeyPath(k)|..], x))
  }

  /** A tuple key leads through path p without a value there. */
  ghost predicate LeadsThrough(v: Value, p: seq<string>)
    decreases v
  {
    v.Dict? && p != [] &&
    exists k :: k in v.fields && KeyPath(k) != [] &&
      (if |p| < |KeyPath(k)| then p <= KeyPath(k) else KeyPath(k) <= p && LeadsThrough(v.fields[k], p[|KeyPath(k)|..]))
  }

  /** Where only lists of atoms stand there is no contradiction, and the path says those lists. */
  lemma {:induction false} OnlyListsAgree(v: Value, p: seq<string>)
    requires forall x :: Stands(v, p, x) ==> x.List? && forall y :: y in x.items ==> IsAtom(y)
    requires !LeadsThrough(v, p)
    ensures Mean(v, p).Nothing? || ListsOfAtoms(Mean(v, p))
    decreases v
  {
    if p == [] {
      assert Stands(v, p, v);
      assert Mean(v, p) == Lists(multiset{v.items});
    } else if v.Dict? {
      hide Mean;
      forall k | k in v.fields
        ensures Term(v.fields, k, p, v).Nothing? || ListsOfAtoms(Term(v.fields, k, p, v))
      {
        var kp := KeyPath(k);
        if kp != [] && kp <= p {
          assert forall x :: Stands(v.fields[k], p[|kp|..], x) ==> Stands(v, p, x);
          OnlyListsAgree(v.fields[k], p[|kp|..]);
        }
      }
      SumOfLists(v.fields, v.fields.Keys, p, v);
      SumIsMean(v, p);
    } else {
      assert Mean(v, p) == Nothing;
    }
  }

  lemma SumIsMean(v: Value, p: seq<string>)
    requires v.Dict? && p != []
    ensures Mean(v, p) == Sum(v.fields, v.fields.Keys, p, v)
  {
  }

  lemma {:induction false} SumOfLists(m: map<Key, Value>, ks: set<Key>, p: seq<string>, whole: Value)
    requires ks <= m.Keys && forall k :: k in m ==> m[k] < whole
    requires forall k :: k in ks ==> Term(m, k, p, whole).Nothing? || ListsOfAtoms(Term(m, k, p, whole))
    ensures Sum(m, ks, p, whole).Nothing? || ListsOfAtoms(Sum(m, ks, p, whole))
    decreases |ks|
  {
    hide Term, ListsOfAtoms;
    if ks != {} {
      var k :| k in ks;
      SumTake(m, ks, p, whole, k);
      SumOfLists(m, ks - {k}, p, whole);
      CombineOfLists(Term(m, k, p, whole), Sum(m, ks - {k}, p, whole));
    }
  }

  lemma CombineOfLists(x: Content, y: Content)
    requires (x.Nothing? || ListsOfAtoms(x)) && (y.Nothing? || ListsOfAtoms(y))
    ensures Combine(x, y).Nothing? || ListsOfAtoms(Combine(x, y))
  {
    AtomLists(x);
    AtomLists(y);
  }

  /** What x says of the place where it stands. */
  ghost predicate Includes(c: Content, x: Value) {
    match x
    case Dict(_) => c == ADict
    case List(items) => c.Lists? && items in c.parts
    case _ => c == Atom(x)
  }

  lemma CombineIncludes(c: Content, d: Content, x: Value)
    requires Includes(c, x) && Combine(c, d) != Clash
    ensures Includes(Combine(c, d), x)
  {
  }

  /** Unless a path is contradictory, it says whatever stands there: so two values of different
      kinds, or two atoms, cannot stand there together. */
  lemma {:induction false} StandsSaid(v: Value, p: seq<string>, x: Value)
    requires Stands(v, p, x) && Mean(v, p) != Clash
    ensures Includes(Mean(v, p), x)
    decreases v
  {
    if p == [] && x == v {
      ItselfSaid(v);
    } else {
      var k :| k in v.fields && KeyPath(k) != [] && KeyPath(k) <= p && Stands(v.fields[k], p[|KeyPath(k)|..], x);
      assert p != [];
      SumIsMean(v, p);
      SumTake(v.fields, v.fields.Keys, p, v, k);
      var rest := Sum(v.fields, v.fields.Keys - {k}, p, v);
      assert Term(v.fields, k, p, v) == Mean(v.fields[k], p[|KeyPath(k)|..]);
      hide Mean, Sum, Term;
      CombineLaws(rest, Clash, Clash);
      CombineLaws(Clash, rest, Clash);
      StandsSaid(v.fields[k], p[|KeyPath(k)|..], x);
      CombineIncludes(Term(v.fields, k, p, v), rest, x);
    }
  }

  lemma ItselfSaid(v: Value)
    requires Mean(v, []) != Clash
    ensures Includes(Mean(v, []), v)
  {
    if v.List? {
      assert v.items in multiset{v.items};
    }
  }
}
