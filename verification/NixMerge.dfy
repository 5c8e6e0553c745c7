/** `nixmerge` on the Python values `py2nix` takes: a partial, associative merge of dictionary
    trees, with {} as its identity and order-insensitive up to the order of merged lists. */
module NixMerge {
  import opened PyStrings
  import opened Seqs

  /** A dictionary key: a string, or a tuple of strings standing for a path. */
  datatype Key = Name(name: string) | Path(path: seq<string>)

  datatype Value =
    | Null
    | Bool(b: bool)
    | Int(n: int)
    | Str(s: string)
    | List(items: seq<Value>)
    | Dict(fields: map<Key, Value>)

  /** Lists and dictionaries cannot be put in the `seen` set. */
  predicate Hashable(v: Value) { !v.List? && !v.Dict? }

  predicate AllHashable(xs: seq<Value>) {
    forall i :: 0 <= i < |xs| ==> Hashable(xs[i])
  }

  /** The representative of v up to Python equality, for which True is 1 and False is 0. */
  function Canon(v: Value): Value {
    if v.Bool? then Int(if v.b then 1 else 0) else v
  }

  predicate Seen(xs: seq<Value>, v: Value) {
    exists i :: 0 <= i < |xs| && Canon(xs[i]) == Canon(v)
  }

  /** Keeps the first of each class of equal elements. */
  function Dedupe(xs: seq<Value>): seq<Value> {
    if xs == [] then []
    else
      var n := |xs| - 1;
      var before := Dedupe(xs[..n]);
      if Seen(before, xs[n]) then before else before + [xs[n]]
  }

  /** nixmerge; None stands for the ValueError and TypeError of the original. */
  function Merge(e1: Value, e2: Value): Option<Value>
    decreases e1
  {
    if e1.Dict? && e2.Dict? then
      if forall k :: k in e1.fields && k in e2.fields ==> Merge(e1.fields[k], e2.fields[k]).Some?
      then Some(Dict(map k | k in e1.fields.Keys + e2.fields.Keys ::
             if k in e1.fields && k in e2.fields then Merge(e1.fields[k], e2.fields[k]).value
             else if k in e1.fields then e1.fields[k]
             else e2.fields[k]))
      else None
    else if e1.List? && e2.List? then
      if AllHashable(e1.items + e2.items) then Some(List(Dedupe(e1.items + e2.items))) else None
    else None
  }

  // ----- The loops of the original -----

  /** The list branch of `_merge`, with its accumulators.  It fails exactly on a list or dictionary
      among the elements; otherwise no two elements of the result are equal in Python's sense, each
      is one of those merged, and each of those merged is equal to one. */
  method MergeLists(xs: seq<Value>, ys: seq<Value>) returns (r: Option<Value>)
    ensures r == Merge(List(xs), List(ys))
    ensures r.None? <==> exists x :: x in xs + ys && (x.List? || x.Dict?)
    ensures r.Some? ==> r.value.List?
    ensures r.Some? ==> forall x :: x in r.value.items ==> x in xs + ys
    ensures r.Some? ==> forall x :: x in xs + ys ==> exists y :: y in r.value.items && PythonEqual(x, y)
    ensures r.Some? ==> forall i, j :: 0 <= i < j < |r.value.items| ==> !PythonEqual(r.value.items[i], r.value.items[j])
  {
    hide Dedupe, Elements, Seen;
    ListsMerged(xs + ys);
    var merged: seq<Value> := [];
    var seen: set<Value> := {};
    var all := xs + ys;
    EmptyLists();
    for i := 0 to |all|
      invariant AllHashable(all[..i])
      invariant merged == Dedupe(all[..i])
      invariant seen == Elements(merged)
    {
      var x := all[i];
      if !Hashable(x) {
        return None;
      }
      DedupeNext(all, i);
      SeenElements(merged, x);
      if Canon(x) !in seen {
        seen := seen + {Canon(x)};
        ElementsConcat(merged, [x]);
        ElementsOne(x);
        merged := merged + [x];
      }
    }
    assert all[..|all|] == all;
    return Some(List(merged));
  }

  lemma EmptyLists()
    ensures Dedupe([]) == [] && Elements([]) == {}
  {
  }

  lemma ElementsOne(x: Value)
    ensures Elements([x]) == {Canon(x)}
  {
    assert [x][0] == x;
  }

  lemma DedupeNext(xs: seq<Value>, i: nat)
    requires i < |xs|
    ensures Dedupe(xs[..i + 1]) ==
            if Seen(Dedupe(xs[..i]), xs[i]) then Dedupe(xs[..i]) else Dedupe(xs[..i]) + [xs[i]]
  {
    assert xs[..i + 1][..i] == xs[..i];
  }

  /** nixmerge, with the loop of `_merge_dicts` over the united keys in any order. */
  method MergeValues(e1: Value, e2: Value) returns (r: Option<Value>)
    ensures r == Merge(e1, e2)
    ensures r.None? <==> Conflict(e1, e2)
    decreases e1
  {
    MergeFailsIff(e1, e2);
    if e1.Dict? && e2.Dict? {
      var d1, d2 := e1.fields, e2.fields;
      var todo := d1.Keys + d2.Keys;
      var out: map<Key, Value> := map[];
      while todo != {}
        invariant todo <= d1.Keys + d2.Keys
        invariant out.Keys == d1.Keys + d2.Keys - todo
        invariant forall k :: k in out ==>
                    if k in d1 && k in d2 then Merge(d1[k], d2[k]) == Some(out[k])
                    else if k in d1 then out[k] == d1[k] else out[k] == d2[k]
        decreases todo
      {
        var key :| key in todo;
        todo := todo - {key};
        if key in d1 && key in d2 {
          var merged := MergeValues(d1[key], d2[key]);
          if merged.None? {
            return None;
          }
          out := out[key := merged.value];
        } else if key in d1 {
          out := out[key := d1[key]];
        } else {
          out := out[key := d2[key]];
        }
      }
      assert Merge(e1, e2).Some? && Merge(e1, e2).value.fields == out;
      return Some(Dict(out));
    } else if e1.List? && e2.List? {
      r := MergeLists(e1.items, e2.items);
    } else {
      return None;
    }
  }

  // ----- When merging fails -----

  /** What Python takes for the same list element: True for 1, and False for 0. */
  predicate PythonEqual(x: Value, y: Value) {
    || x == y
    || (x == Bool(true) && y == Int(1)) || (x == Int(1) && y == Bool(true))
    || (x == Bool(false) && y == Int(0)) || (x == Int(0) && y == Bool(false))
  }

  lemma SameCanon(x: Value, y: Value)
    ensures Canon(x) == Canon(y) <==> PythonEqual(x, y)
  {
  }

  lemma ListsMerged(all: seq<Value>)
    ensures AllHashable(all) <==> forall x :: x in all ==> !x.List? && !x.Dict?
    ensures forall x :: x in Dedupe(all) ==> x in all
    ensures forall x :: x in all ==> exists y :: y in Dedupe(all) && PythonEqual(x, y)
    ensures forall i, j :: 0 <= i < j < |Dedupe(all)| ==> !PythonEqual(Dedupe(all)[i], Dedupe(all)[j])
  {
    hide Dedupe, Canon, PythonEqual;
    var r := Dedupe(all);
    DedupeKeeps(all);
    DedupeElements(all);
    forall x | x in all
      ensures exists y :: y in r && PythonEqual(x, y)
    {
      ElementsOfMember(all, x);
      var i :| 0 <= i < |r| && Canon(r[i]) == Canon(x);
      SameCanon(x, r[i]);
      assert r[i] in r;
    }
    forall i, j | 0 <= i < j < |r|
      ensures !PythonEqual(r[i], r[j])
    {
      SameCanon(r[i], r[j]);
    }
  }

  /** The values of a key both dictionaries have are in conflict; an element of a list is itself a
      list or a dictionary; or the two are neither both dictionaries nor both lists. */
  ghost predicate Conflict(a: Value, b: Value)
    decreases a
  {
    if a.Dict? && b.Dict? then exists k :: k in a.fields && k in b.fields && Conflict(a.fields[k], b.fields[k])
    else if a.List? && b.List? then exists x :: (x in a.items || x in b.items) && (x.List? || x.Dict?)
    else true
  }

  /** nixmerge fails exactly on a conflict. */
  lemma {:induction false} MergeFailsIff(a: Value, b: Value)
    ensures Merge(a, b).None? <==> Conflict(a, b)
    decreases a
  {
    if a.Dict? && b.Dict? {
      forall k | k in a.fields && k in b.fields
        ensures Merge(a.fields[k], b.fields[k]).None? <==> Conflict(a.fields[k], b.fields[k])
      {
        MergeFailsIff(a.fields[k], b.fields[k]);
      }
    } else if a.List? && b.List? {
      ListsMerged(a.items + b.items);
    }
  }

  // ----- Merged lists -----

  ghost predicate Distinct(xs: seq<Value>) {
    forall i, j :: 0 <= i < j < |xs| ==> Canon(xs[i]) != Canon(xs[j])
  }

  ghost function Elements(xs: seq<Value>): set<Value> {
    set i | 0 <= i < |xs| :: Canon(xs[i])
  }

  /** No equal element precedes the one at i. */
  ghost predicate IsFirst(xs: seq<Value>, i: nat) {
    i < |xs| && forall j :: 0 <= j < i ==> Canon(xs[j]) != Canon(xs[i])
  }

  /** Dedupe keeps exactly the first occurrences, in order. */
  lemma {:induction false} DedupeKeepsFirsts(xs: seq<Value>) returns (kept: seq<nat>)
    ensures |kept| == |Dedupe(xs)|
    ensures forall k :: 0 <= k < |kept| ==> kept[k] < |xs| && xs[kept[k]] == Dedupe(xs)[k]
    ensures forall k, l :: 0 <= k < l < |kept| ==> kept[k] < kept[l]
    ensures forall i: nat :: i in kept <==> IsFirst(xs, i)
  {
    if xs == [] {
      kept := [];
    } else {
      hide Dedupe, Elements, Seen;
      var n := |xs| - 1;
      assert xs[..n + 1] == xs;
      DedupeNext(xs, n);
      kept := DedupeKeepsFirsts(xs[..n]);
      FirstsOfPrefix(xs, n);
      DedupeElements(xs[..n]);
      SeenElements(Dedupe(xs[..n]), xs[n]);
      if !Seen(Dedupe(xs[..n]), xs[n]) {
        kept := kept + [n];
      }
    }
  }

  lemma FirstsOfPrefix(xs: seq<Value>, n: nat)
    requires n < |xs|
    ensures forall i: nat | i < n :: IsFirst(xs, i) <==> IsFirst(xs[..n], i)
    ensures IsFirst(xs, n) <==> Canon(xs[n]) !in Elements(xs[..n])
  {
    assert forall j :: 0 <= j < n ==> xs[..n][j] == xs[j];
  }

  lemma SeenElements(xs: seq<Value>, v: Value)
    ensures Seen(xs, v) <==> Canon(v) in Elements(xs)
  {
  }

  lemma ElementsConcat(a: seq<Value>, b: seq<Value>)
    ensures Elements(a + b) == Elements(a) + Elements(b)
  {
    forall v
      ensures v in Elements(a + b) <==> v in Elements(a) || v in Elements(b)
    {
      if v in Elements(a) {
        var i :| 0 <= i < |a| && Canon(a[i]) == v;
        assert (a + b)[i] == a[i];
      }
      if v in Elements(b) {
        var i :| 0 <= i < |b| && Canon(b[i]) == v;
        assert (a + b)[|a| + i] == b[i];
      }
    }
  }

  lemma {:induction false} DedupeElements(xs: seq<Value>)
    ensures Distinct(Dedupe(xs)) && Elements(Dedupe(xs)) == Elements(xs)
    ensures AllHashable(xs) ==> AllHashable(Dedupe(xs))
  {
    hide Elements, Canon, Hashable;
    if xs == [] {
      EmptyLists();
    } else {
      var n := |xs| - 1;
      var before := Dedupe(xs[..n]);
      DedupeElements(xs[..n]);
      assert xs == xs[..n] + [xs[n]];
      ElementsConcat(xs[..n], [xs[n]]);
      ElementsConcat(before, [xs[n]]);
      SeenElements(before, xs[n]);
      ElementsOne(xs[n]);
    }
  }

  /** Only a repetition of a hashable element is ever dropped from a list of hashables. */
  lemma DedupeHashable(xs: seq<Value>)
    ensures AllHashable(xs) ==> AllHashable(Dedupe(xs))
  {
    DedupeElements(xs);
  }

  /** Deduplicating a part first changes nothing. */
  lemma {:induction false} DedupeLeft(a: seq<Value>, b: seq<Value>)
    ensures Dedupe(Dedupe(a) + b) == Dedupe(a + b)
    decreases |b|
  {
    if b == [] {
      assert Dedupe(a) + b == Dedupe(a) && a + b == a;
      DedupeElements(a);
      DistinctKept(Dedupe(a));
    } else {
      var n := |b| - 1;
      DedupeLeft(a, b[..n]);
      assert (Dedupe(a) + b)[..|Dedupe(a) + b| - 1] == Dedupe(a) + b[..n];
      assert (a + b)[..|a + b| - 1] == a + b[..n];
    }
  }

  lemma {:induction false} DistinctKept(xs: seq<Value>)
    requires Distinct(xs)
    ensures Dedupe(xs) == xs
  {
    if xs != [] {
      var n := |xs| - 1;
      DistinctKept(xs[..n]);
      assert xs == xs[..n] + [xs[n]];
    }
  }

  lemma {:induction false} DedupeRight(a: seq<Value>, b: seq<Value>)
    ensures Dedupe(a + Dedupe(b)) == Dedupe(a + b)
    decreases |b|
  {
    if b != [] {
      var n := |b| - 1;
      var before := Dedupe(b[..n]);
      DedupeRight(a, b[..n]);
      assert (a + b)[..|a + b| - 1] == a + b[..n];
      var kept := Dedupe(a + b[..n]);
      if Seen(before, b[n]) {
        DedupeElements(a + before);
        ElementsConcat(a, before);
        SeenElements(before, b[n]);
        SeenElements(kept, b[n]);
      } else {
        assert (a + Dedupe(b))[..|a + Dedupe(b)| - 1] == a + before;
      }
    }
  }

  // ----- The algebra -----

  function Bind(r: Option<Value>, e: Value): Option<Value> {
    if r.Some? then Merge(r.value, e) else None
  }

  function BindRight(e: Value, r: Option<Value>): Option<Value> {
    if r.Some? then Merge(e, r.value) else None
  }

  /** {} is the identity of merging dictionaries, on both sides. */
  lemma MergeIdentity(m: map<Key, Value>)
    ensures Merge(Dict(map[]), Dict(m)) == Some(Dict(m)) == Merge(Dict(m), Dict(map[]))
  {
    assert Merge(Dict(map[]), Dict(m)).value.fields == m;
    assert Merge(Dict(m), Dict(map[])).value.fields == m;
  }

  /** The value at a key of a merged dictionary, as an option. */
  function At(m: map<Key, Value>, k: Key): Option<Value> {
    if k in m then Some(m[k]) else None
  }

  /** Merging where either side may be absent; the outer None is an error. */
  function MergeAt(x: Option<Value>, y: Option<Value>): Option<Option<Value>> {
    if x.None? then Some(y)
    else if y.None? then Some(x)
    else if Merge(x.value, y.value).Some? then Some(Merge(x.value, y.value)) else None
  }

  lemma MergeDicts(d1: map<Key, Value>, d2: map<Key, Value>)
    ensures Merge(Dict(d1), Dict(d2)).Some? <==> forall k :: MergeAt(At(d1, k), At(d2, k)).Some?
    ensures Merge(Dict(d1), Dict(d2)).Some? ==>
              Merge(Dict(d1), Dict(d2)).value.Dict? &&
              forall k :: MergeAt(At(d1, k), At(d2, k)) == Some(At(Merge(Dict(d1), Dict(d2)).value.fields, k))
  {
    if forall k :: MergeAt(At(d1, k), At(d2, k)).Some? {
      forall k | k in d1 && k in d2
        ensures Merge(d1[k], d2[k]).Some?
      {
        assert MergeAt(At(d1, k), At(d2, k)).Some?;
      }
    }
  }

  lemma {:induction false} MergeAssocAt(x: Option<Value>, y: Option<Value>, z: Option<Value>)
    requires x.Some? && y.Some? && z.Some? ==> Bind(Merge(x.value, y.value), z.value) == BindRight(x.value, Merge(y.value, z.value))
    ensures MergeAt(x, y).Some? && MergeAt(MergeAt(x, y).value, z).Some? <==>
            MergeAt(y, z).Some? && MergeAt(x, MergeAt(y, z).value).Some?
    ensures MergeAt(x, y).Some? && MergeAt(y, z).Some? ==>
              MergeAt(MergeAt(x, y).value, z) == MergeAt(x, MergeAt(y, z).value)
  {
  }

  /** nixmerge is associative, and defined one way exactly when it is the other way. */
  lemma {:induction false} MergeAssociative(a: Value, b: Value, c: Value)
    ensures Bind(Merge(a, b), c) == BindRight(a, Merge(b, c))
    decreases a
  {
    if a.Dict? && b.Dict? && c.Dict? {
      forall k
        ensures MergeAt(At(a.fields, k), At(b.fields, k)).Some? &&
                MergeAt(MergeAt(At(a.fields, k), At(b.fields, k)).value, At(c.fields, k)).Some? <==>
                MergeAt(At(b.fields, k), At(c.fields, k)).Some? && MergeAt(At(a.fields, k), MergeAt(At(b.fields, k), At(c.fields, k)).value).Some?
        ensures MergeAt(At(a.fields, k), At(b.fields, k)).Some? && MergeAt(At(b.fields, k), At(c.fields, k)).Some? ==>
                MergeAt(MergeAt(At(a.fields, k), At(b.fields, k)).value, At(c.fields, k)) ==
                MergeAt(At(a.fields, k), MergeAt(At(b.fields, k), At(c.fields, k)).value)
      {
        if k in a.fields && k in b.fields && k in c.fields {
          MergeAssociative(a.fields[k], b.fields[k], c.fields[k]);
        }
        MergeAssocAt(At(a.fields, k), At(b.fields, k), At(c.fields, k));
      }
      DictsAssociate(a.fields, b.fields, c.fields);
    } else if a.List? && b.List? && c.List? {
      ListsAssociate(a.items, b.items, c.items);
    }
  }

  lemma ListsAssociate(a: seq<Value>, b: seq<Value>, c: seq<Value>)
    ensures Bind(Merge(List(a), List(b)), List(c)) == BindRight(List(a), Merge(List(b), List(c)))
  {
    hide Dedupe, AllHashable, Distinct, Elements;
    DedupeElements(a + b);
    DedupeElements(b + c);
    DedupeHashable(a + b);
    DedupeHashable(b + c);
    HashableParts(a, b);
    HashableParts(b, c);
    HashableParts(Dedupe(a + b), c);
    HashableParts(a, Dedupe(b + c));
    DedupeLeft(a + b, c);
    DedupeRight(a, b + c);
    assert a + b + c == a + (b + c);
  }

  lemma HashableParts(a: seq<Value>, b: seq<Value>)
    ensures AllHashable(a + b) <==> AllHashable(a) && AllHashable(b)
  {
    if AllHashable(a + b) {
      forall i | 0 <= i < |a|
        ensures Hashable(a[i])
      {
        assert (a + b)[i] == a[i];
      }
      forall i | 0 <= i < |b|
        ensures Hashable(b[i])
      {
        assert (a + b)[|a| + i] == b[i];
      }
    }
  }

  lemma DictsAssociate(a: map<Key, Value>, b: map<Key, Value>, c: map<Key, Value>)
    requires forall k ::
      && (MergeAt(At(a, k), At(b, k)).Some? && MergeAt(MergeAt(At(a, k), At(b, k)).value, At(c, k)).Some? <==>
          MergeAt(At(b, k), At(c, k)).Some? && MergeAt(At(a, k), MergeAt(At(b, k), At(c, k)).value).Some?)
      && (MergeAt(At(a, k), At(b, k)).Some? && MergeAt(At(b, k), At(c, k)).Some? ==>
          MergeAt(MergeAt(At(a, k), At(b, k)).value, At(c, k)) == MergeAt(At(a, k), MergeAt(At(b, k), At(c, k)).value))
    ensures Bind(Merge(Dict(a), Dict(b)), Dict(c)) == BindRight(Dict(a), Merge(Dict(b), Dict(c)))
  {
    hide Merge;
    MergeDicts(a, b);
    MergeDicts(b, c);
    var left := Bind(Merge(Dict(a), Dict(b)), Dict(c));
    var right := BindRight(Dict(a), Merge(Dict(b), Dict(c)));
    if Merge(Dict(a), Dict(b)).Some? {
      MergeDicts(Merge(Dict(a), Dict(b)).value.fields, c);
    }
    if Merge(Dict(b), Dict(c)).Some? {
      MergeDicts(a, Merge(Dict(b), Dict(c)).value.fields);
    }
    if left.Some? && right.Some? {
      forall k
        ensures At(left.value.fields, k) == At(right.value.fields, k)
      {
      }
      assert forall k :: k in left.value.fields <==> At(left.value.fields, k).Some?;
      assert forall k :: k in right.value.fields <==> At(right.value.fields, k).Some?;
      assert left.value.fields == right.value.fields;
    }
  }

  // ----- Merging several lists -----

  ghost function Flatten(lists: seq<seq<Value>>): seq<Value> {
    if lists == [] then [] else lists[0] + Flatten(lists[1..])
  }

  /** items is what merging all these lists, each of them whole, in some order gives. */
  ghost predicate IsMergeOf(items: seq<Value>, parts: multiset<seq<Value>>) {
    && |parts| > 1 && (forall part :: part in parts ==> AllHashable(part))
    && exists order :: multiset(order) == parts && items == Dedupe(Flatten(order))
  }

  lemma {:induction false} FlattenElements(lists: seq<seq<Value>>)
    ensures forall x :: x in Flatten(lists) <==> exists l :: l in lists && x in l
  {
    if lists != [] {
      assert lists == [lists[0]] + lists[1..];
      FlattenElements(lists[1..]);
    }
  }

  lemma {:induction false} FlattenConcat(a: seq<seq<Value>>, b: seq<seq<Value>>)
    ensures Flatten(a + b) == Flatten(a) + Flatten(b)
  {
    if a == [] {
      assert a + b == b;
    } else {
      assert (a + b)[1..] == a[1..] + b;
      FlattenConcat(a[1..], b);
    }
  }

  lemma {:induction false} DedupeKeeps(xs: seq<Value>)
    ensures forall x :: x in Dedupe(xs) ==> x in xs
  {
    if xs != [] {
      DedupeKeeps(xs[..|xs| - 1]);
    }
  }

  /** A merged list is made of the elements of the lists merged, and nothing equal is lost. */
  lemma MergedElements(items: seq<Value>, parts: multiset<seq<Value>>)
    requires IsMergeOf(items, parts)
    ensures AllHashable(items) && Distinct(items)
    ensures forall x :: x in items ==> exists part :: part in parts && x in part
    ensures forall part, x :: part in parts && x in part ==> Canon(x) in Elements(items)
  {
    var order :| multiset(order) == parts && items == Dedupe(Flatten(order));
    var all := Flatten(order);
    FlattenElements(order);
    DedupeKeeps(all);
    DedupeElements(all);
    forall part | part in order
      ensures part in parts
    {
      assert part in multiset(order);
    }
    forall x | x in items
      ensures exists part :: part in parts && x in part
    {
      var l :| l in order && x in l;
    }
    forall part, x | part in parts && x in part
      ensures Canon(x) in Elements(items)
    {
      assert part in order && x in all;
      ElementsOfMember(all, x);
    }
    forall i | 0 <= i < |items|
      ensures Hashable(items[i])
    {
      assert items[i] in items;
      var l :| l in order && items[i] in l;
      assert AllHashable(l);
    }
  }

  /** Merges of the same lists. */
  ghost predicate SameMerge(a: seq<Value>, b: seq<Value>) {
    exists parts :: IsMergeOf(a, parts) && IsMergeOf(b, parts)
  }

  /** Equal but for the order in which lists were merged. */
  ghost predicate SameUpToOrder(a: Value, b: Value)
    decreases a
  {
    if a.Dict? && b.Dict? then
      a.fields.Keys == b.fields.Keys && forall k :: k in a.fields ==> SameUpToOrder(a.fields[k], b.fields[k])
    else if a.List? && b.List? then
      a == b || SameMerge(a.items, b.items)
    else a == b
  }

  lemma {:induction false} SameReflexive(a: Value)
    ensures SameUpToOrder(a, a)
    decreases a
  {
    if a.Dict? {
      forall k | k in a.fields
        ensures SameUpToOrder(a.fields[k], a.fields[k])
      {
        SameReflexive(a.fields[k]);
      }
    }
  }

  /** nixmerge commutes up to the order of merged lists. */
  lemma {:induction false} MergeCommutes(a: Value, b: Value)
    ensures Merge(a, b).Some? <==> Merge(b, a).Some?
    ensures Merge(a, b).Some? ==> SameUpToOrder(Merge(a, b).value, Merge(b, a).value)
    decreases a
  {
    if a.Dict? && b.Dict? {
      forall k | k in a.fields && k in b.fields
        ensures Merge(a.fields[k], b.fields[k]).Some? <==> Merge(b.fields[k], a.fields[k]).Some?
        ensures Merge(a.fields[k], b.fields[k]).Some? ==>
                  SameUpToOrder(Merge(a.fields[k], b.fields[k]).value, Merge(b.fields[k], a.fields[k]).value)
      {
        MergeCommutes(a.fields[k], b.fields[k]);
      }
      if Merge(a, b).Some? {
        forall k | k in Merge(a, b).value.fields
          ensures SameUpToOrder(Merge(a, b).value.fields[k], Merge(b, a).value.fields[k])
        {
          SameReflexive(Merge(a, b).value.fields[k]);
        }
      }
    } else if a.List? && b.List? {
      ListsCommute(a.items, b.items);
    }
  }

  lemma ListsCommute(a: seq<Value>, b: seq<Value>)
    ensures AllHashable(a + b) <==> AllHashable(b + a)
    ensures AllHashable(a + b) ==> SameMerge(Dedupe(a + b), Dedupe(b + a))
  {
    HashableParts(a, b);
    HashableParts(b, a);
    if AllHashable(a + b) {
      MergeOfTwo(a, b);
      MergeOfTwo(b, a);
      assert multiset{a, b} == multiset{b, a};
    }
  }

  lemma MergeOfTwo(a: seq<Value>, b: seq<Value>)
    requires AllHashable(a) && AllHashable(b)
    ensures IsMergeOf(Dedupe(a + b), multiset{a, b})
  {
    var order := [a, b];
    assert order[1..] == [b] && [b][1..] == [];
    assert Flatten([b]) == b + [] == b;
    assert Flatten(order) == a + b;
    assert multiset(order) == multiset{a, b};
  }

  // ----- When merging commutes -----

  /** Equal but for the order of lists. */
  ghost predicate SameUpToReordering(a: Value, b: Value)
    decreases a
  {
    if a.Dict? && b.Dict? then
      a.fields.Keys == b.fields.Keys && forall k :: k in a.fields ==> SameUpToReordering(a.fields[k], b.fields[k])
    else if a.List? && b.List? then multiset(a.items) == multiset(b.items)
    else a == b
  }

  /** Where one list has True, or False, for the first time the other does not have 1, or 0. */
  ghost predicate UnmixedLists(a: seq<Value>, b: seq<Value>) {
    forall x, y :: x in Dedupe(a) && y in Dedupe(b) && Canon(x) == Canon(y) ==> x == y
  }

  /** That at every list two dictionary trees share. */
  ghost predicate Unmixed(a: Value, b: Value)
    decreases a
  {
    if a.Dict? && b.Dict? then forall k :: k in a.fields && k in b.fields ==> Unmixed(a.fields[k], b.fields[k])
    else a.List? && b.List? ==> UnmixedLists(a.items, b.items)
  }

  lemma {:induction false} DedupeMembers(a: seq<Value>, b: seq<Value>)
    ensures forall x :: x in Dedupe(a + b) <==> x in Dedupe(a) || (x in Dedupe(b) && Canon(x) !in Elements(a))
    decreases |b|
  {
    hide Dedupe, Elements, Seen, Canon;
    if b == [] {
      assert a + b == a;
      EmptyLists();
    } else {
      var n := |b| - 1;
      DedupeMembers(a, b[..n]);
      assert b[..n] + [b[n]] == b && a + b[..n] + [b[n]] == a + b;
      DedupeLast(b[..n], b[n]);
      DedupeLast(a + b[..n], b[n]);
      ElementsConcat(a, b[..n]);
    }
  }

  lemma DedupeLast(xs: seq<Value>, y: Value)
    ensures forall x :: x in Dedupe(xs + [y]) <==> x in Dedupe(xs) || (x == y && Canon(y) !in Elements(xs))
  {
    hide Dedupe, Elements, Seen, Canon;
    DedupeNext(xs + [y], |xs|);
    assert (xs + [y])[..|xs| + 1] == xs + [y] && (xs + [y])[..|xs|] == xs;
    SeenElements(Dedupe(xs), y);
    DedupeElements(xs);
  }

  /** Two merges of the same two lists hold the same elements exactly if the lists are unmixed. */
  lemma ListsCommuteIff(a: seq<Value>, b: seq<Value>)
    ensures multiset(Dedupe(a + b)) == multiset(Dedupe(b + a)) <==> UnmixedLists(a, b)
  {
    hide Dedupe;
    var (ab, ba) := (Dedupe(a + b), Dedupe(b + a));
    DedupeMembers(a, b);
    DedupeMembers(b, a);
    DedupeElements(a);
    DedupeElements(b);
    DedupeElements(a + b);
    DedupeElements(b + a);
    DistinctNoDup(ab);
    DistinctNoDup(ba);
    if UnmixedLists(a, b) {
      UnmixedMembers(a, b);
      UnmixedMembers(b, a);
      NoDupPermute(ab, ba);
    } else {
      var x, y :| x in Dedupe(a) && y in Dedupe(b) && Canon(x) == Canon(y) && x != y;
      ElementsOfMember(Dedupe(b), y);
      DistinctMembers(Dedupe(b), x, y);
      assert x in ab && x !in ba;
      assert x in multiset(ab) && x !in multiset(ba);
    }
  }

  lemma UnmixedMembers(a: seq<Value>, b: seq<Value>)
    requires forall x, y :: x in Dedupe(a) && y in Dedupe(b) && Canon(x) == Canon(y) ==> x == y
    ensures forall x :: x in Dedupe(a + b) ==> x in Dedupe(b + a)
  {
    hide Dedupe;
    DedupeMembers(a, b);
    DedupeMembers(b, a);
    DedupeElements(b);
    forall x | x in Dedupe(a) && Canon(x) in Elements(b)
      ensures x in Dedupe(b)
    {
      var i :| 0 <= i < |Dedupe(b)| && Canon(Dedupe(b)[i]) == Canon(x);
      assert Dedupe(b)[i] in Dedupe(b);
    }
  }

  lemma ElementsOfMember(xs: seq<Value>, x: Value)
    requires x in xs
    ensures Canon(x) in Elements(xs)
  {
  }

  lemma DistinctMembers(xs: seq<Value>, x: Value, y: Value)
    requires Distinct(xs) && y in xs && Canon(x) == Canon(y) && x != y
    ensures x !in xs
  {
  }

  lemma DistinctNoDup(xs: seq<Value>)
    requires Distinct(xs)
    ensures NoDup(xs)
  {
  }

  lemma {:induction false} ReorderingReflexive(a: Value)
    ensures SameUpToReordering(a, a)
    decreases a
  {
    if a.Dict? {
      forall k | k in a.fields
        ensures SameUpToReordering(a.fields[k], a.fields[k])
      {
        ReorderingReflexive(a.fields[k]);
      }
    }
  }

  /** nixmerge commutes up to the order of lists, if and only if no shared lists are mixed. */
  lemma {:induction false} MergeCommutesIff(a: Value, b: Value)
    requires Merge(a, b).Some?
    ensures Merge(b, a).Some?
    ensures SameUpToReordering(Merge(a, b).value, Merge(b, a).value) <==> Unmixed(a, b)
    decreases a
  {
    MergeCommutes(a, b);
    if a.Dict? {
      var (ab, ba) := (Merge(a, b).value, Merge(b, a).value);
      forall k | k in ab.fields
        ensures SameUpToReordering(ab.fields[k], ba.fields[k]) <==>
                (k in a.fields && k in b.fields ==> Unmixed(a.fields[k], b.fields[k]))
      {
        if k in a.fields && k in b.fields {
          MergeCommutesIff(a.fields[k], b.fields[k]);
        } else {
          ReorderingReflexive(ab.fields[k]);
        }
      }
    } else {
      ListsCommuteIff(a.items, b.items);
    }
  }

  /** Mixed lists: the two orders keep different elements. */
  lemma MergeOrderShows()
    ensures Merge(List([Int(1)]), List([Bool(true)])) == Some(List([Int(1)]))
    ensures Merge(List([Bool(true)]), List([Int(1)])) == Some(List([Bool(true)]))
  {
    hide Merge;
    MergePair(Int(1), Bool(true));
    MergePair(Bool(true), Int(1));
  }

  lemma MergePair(x: Value, y: Value)
    requires Hashable(x) && Hashable(y) && Canon(x) == Canon(y)
    ensures Merge(List([x]), List([y])) == Some(List([x]))
  {
    DedupePair(x, y);
    hide Dedupe;
    assert AllHashable([x] + [y]);
  }

  lemma DedupePair(x: Value, y: Value)
    requires Canon(x) == Canon(y)
    ensures Dedupe([x] + [y]) == [x]
  {
    hide Dedupe, Canon;
    var (one, two) := ([x], [x] + [y]);
    EmptyLists();
    DedupeNext(one, 0);
    assert one[..0] == [] && one[..1] == one && one[0] == x;
    assert !Seen([], x);
    assert Dedupe(one) == [x];
    DedupeNext(two, 1);
    assert two[..1] == one && two[..2] == two && two[1] == y;
    assert Seen(one, y) by {
      assert Canon(one[0]) == Canon(y);
    }
  }
}
