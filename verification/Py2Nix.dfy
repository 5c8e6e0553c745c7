/** `py2nix` from a Python value to a text: expansion of tuple keys wherever a dictionary is met,
    then encoding and layout; and what reading that text gives. */
module Py2Nix {
  import opened PyStrings
  import opened NixMerge
  import opened PathMeaning
  import opened ExpandDict
  import opened NixLayout
  import opened NixParse
  import opened NixRoundTrip
  import opened NixEncoding
  import NixEncoders
  import P = NixPrint

  /** w is v with the tuple keys of every dictionary in it expanded. */
  ghost predicate Shows(v: Value, w: P.Expr)
    decreases w
  {
    match w
    case Null => v.Null?
    case Bool(b) => v == Bool(b)
    case Int(n) => v == Int(n)
    case Str(s) => v == Str(s)
    case List(items) => v.List? && |v.items| == |items| && forall i :: 0 <= i < |items| ==> Shows(v.items[i], items[i])
    case Attrs(attrs) =>
      v.Dict? && exists e :: ExpandsTo(v.fields, e) && HasNames(e, attrs.Keys) && forall k :: k in attrs ==> Shows(e[Name(k)], attrs[k])
  }

  ghost predicate HasNames(e: map<Key, Value>, names: set<string>) {
    (forall k :: k in e ==> k.Name? && k.name in names) && (forall name :: name in names ==> Name(name) in e)
  }

  /** Expands v everywhere, or finds that it cannot be expanded. */
  method Elaborate(v: Value, ghost n: nat) returns (r: Option<P.Expr>)
    requires DepthAtMost(v, n)
    ensures r.Some? ==> Shows(v, r.value)
    ensures r.None? ==> forall w :: !Shows(v, w)
    decreases n
  {
    hide ExpandsTo, Contradictory;
    match v
    case Null => return Some(P.Null);
    case Bool(b) => return Some(P.Bool(b));
    case Int(i) => return Some(P.Int(i));
    case Str(s) => return Some(P.Str(s));
    case List(items) =>
      var out: seq<P.Expr> := [];
      for i := 0 to |items|
        invariant |out| == i && forall j :: 0 <= j < i ==> Shows(items[j], out[j])
      {
        var item := Elaborate(items[i], n - 1);
        if item.None? {
          return None;
        }
        out := out + [item.value];
      }
      return Some(P.List(out));
    case Dict(fields) =>
      var expanded := Expand(fields, n);
      if expanded.None? {
        NoExpansion(fields);
        return None;
      }
      var e := expanded.value;
      ExpandedNames(fields, e);
      var out: map<string, P.Expr> := map[];
      var todo := e.Keys;
      while todo != {}
        invariant todo <= e.Keys
        invariant forall k :: k in e ==> (k in todo <==> k.name !in out)
        invariant forall name :: name in out ==> Name(name) in e && Shows(e[Name(name)], out[name])
        decreases todo
      {
        var key :| key in todo;
        var w := Elaborate(e[key], n - 1);
        if w.None? {
          NoExpansionShows(fields, e, key);
          return None;
        }
        out := out[key.name := w.value];
        todo := todo - {key};
      }
      assert HasNames(e, out.Keys);
      return Some(P.Attrs(out));
  }

  lemma NoExpansion(m: map<Key, Value>)
    requires Contradictory(m)
    ensures forall e :: !ExpandsTo(m, e)
    ensures forall w :: !Shows(Dict(m), w)
  {
    hide Mean;
    var p :| Mean(Dict(m), p) == Clash;
    forall e | ExpandsTo(m, e)
      ensures Mean(Dict(m), p) != Clash
    {
      Consistent(m, e, p);
    }
  }

  lemma Consistent(m: map<Key, Value>, e: map<Key, Value>, p: seq<string>)
    requires ExpandsTo(m, e)
    ensures Mean(Dict(m), p) != Clash
  {
    hide Mean;
    TupleFreeMean(Dict(e), p);
    assert Holds(Mean(Dict(e), p), Mean(Dict(m), p));
  }

  lemma ExpandedNames(m: map<Key, Value>, e: map<Key, Value>)
    requires ExpandsTo(m, e)
    ensures forall k :: k in e ==> k.Name?
  {
  }

  /** A child that cannot be shown cannot be shown in any other expansion. */
  lemma NoExpansionShows(m: map<Key, Value>, e: map<Key, Value>, key: Key)
    requires ExpandsTo(m, e) && key in e && forall w :: !Shows(e[key], w)
    ensures forall w :: !Shows(Dict(m), w)
  {
    hide Mean, Holds;
    forall w
      ensures !Shows(Dict(m), w)
    {
      if Shows(Dict(m), w) {
        var e2 :| ExpandsTo(m, e2) && HasNames(e2, w.attrs.Keys) && forall k :: k in w.attrs ==> Shows(e2[Name(k)], w.attrs[k]);
        ExpansionsAgree(m, e, e2);
        ExpansionsAgree(m, e2, e);
        var w' := ShowsTransfers(e2[key], e[key], w.attrs[key.name]);
      }
    }
  }

  function Plain(v: Value): P.Expr
    requires Hashable(v)
  {
    match v
    case Null => P.Null
    case Bool(b) => P.Bool(b)
    case Int(n) => P.Int(n)
    case Str(s) => P.Str(s)
  }

  /** What is expanded already is shown key by key. */
  lemma ShowsExpanded(m: map<Key, Value>, w: P.Expr)
    requires TupleFree(Dict(m))
    ensures Shows(Dict(m), w) <==>
            w.Attrs? && HasNames(m, w.attrs.Keys) && forall k :: k in w.attrs ==> Shows(m[Name(k)], w.attrs[k])
  {
    hide ExpandsTo, TupleFree, HasNames;
    ExpandingTwice(m, m);
    if w.Attrs? {
      forall e | ExpandsTo(m, e)
        ensures e == m
      {
        ExpandingTwice(m, e);
      }
    }
  }

  /** Expanded values that differ in merge order only can be shown alike. */
  lemma {:induction false} ShowsTransfers(a: Value, b: Value, w: P.Expr) returns (w': P.Expr)
    requires TupleFree(a) && TupleFree(b) && SameUpToOrder(a, b) && Shows(a, w)
    ensures Shows(b, w') && (Encodable(w') <==> Encodable(w))
    decreases w
  {
    hide Mean, Holds, ExpandsTo, Transferred;
    if a == b {
      w' := w;
    } else if a.Dict? {
      ShowsExpanded(a.fields, w);
      forall k | k in w.attrs
        ensures exists x :: Transferred(b.fields[Name(k)], w.attrs[k], x)
      {
        var x := ShowsTransfers(a.fields[Name(k)], b.fields[Name(k)], w.attrs[k]);
        IsTransferred(b.fields[Name(k)], w.attrs[k], x);
      }
      w' := AttrsTransfer(b.fields, w.attrs);
    } else {
      SameMergeHashable(a.items, b.items);
      HashablesShown(a.items, w);
      w' := PlainItems(b.items);
    }
  }

  lemma SameMergeHashable(a: seq<Value>, b: seq<Value>)
    requires SameMerge(a, b)
    ensures AllHashable(a) && AllHashable(b)
  {
    hide IsMergeOf;
    var parts :| IsMergeOf(a, parts) && IsMergeOf(b, parts);
    MergedElements(a, parts);
    MergedElements(b, parts);
  }

  lemma PlainItems(items: seq<Value>) returns (w: P.Expr)
    requires AllHashable(items)
    ensures Shows(List(items), w) && Encodable(w)
  {
    w := P.List(seq(|items|, i requires 0 <= i < |items| => Plain(items[i])));
  }

  lemma AttrsTransfer(m: map<Key, Value>, attrs: map<string, P.Expr>) returns (w: P.Expr)
    requires TupleFree(Dict(m)) && HasNames(m, attrs.Keys)
    requires forall k :: k in attrs ==> exists x :: Transferred(m[Name(k)], attrs[k], x)
    ensures Shows(Dict(m), w) && (Encodable(w) <==> Encodable(P.Attrs(attrs)))
  {
    hide Shows, Encodable, TupleFree, Transferred;
    var attrs' := map k | k in attrs :: var x :| Transferred(m[Name(k)], attrs[k], x); x;
    w := P.Attrs(attrs');
    EncodableTransfers(attrs, attrs', m);
  }

  ghost predicate Transferred(b: Value, w: P.Expr, x: P.Expr) {
    Shows(b, x) && (Encodable(x) <==> Encodable(w))
  }

  lemma IsTransferred(b: Value, w: P.Expr, x: P.Expr)
    requires Shows(b, x) && (Encodable(x) <==> Encodable(w))
    ensures Transferred(b, w, x)
  {
  }

  lemma EncodableTransfers(attrs: map<string, P.Expr>, attrs': map<string, P.Expr>, b: map<Key, Value>)
    requires attrs.Keys == attrs'.Keys && HasNames(b, attrs.Keys)
    requires forall k :: k in attrs ==> Transferred(b[Name(k)], attrs[k], attrs'[k])
    ensures Encodable(P.Attrs(attrs)) <==> Encodable(P.Attrs(attrs'))
    ensures TupleFree(Dict(b)) ==> Shows(Dict(b), P.Attrs(attrs'))
  {
    hide Shows;
    if TupleFree(Dict(b)) {
      ShowsExpanded(b, P.Attrs(attrs'));
    }
    assert forall k :: k in attrs ==> (Encodable(attrs[k]) <==> Encodable(attrs'[k]));
  }

  /** Whether a key is empty does not depend on how a value was expanded. */
  lemma {:induction false} EncodableAgrees(a: Value, b: Value, w: P.Expr, x: P.Expr)
    requires a == b || (TupleFree(a) && TupleFree(b) && SameUpToOrder(a, b))
    requires Shows(a, w) && Shows(b, x)
    ensures Encodable(w) <==> Encodable(x)
    decreases w, 1
  {
    hide ExpandsTo, TupleFree;
    match w
    case Attrs(attrs) =>
      AttrsAgree(a, b, attrs, x.attrs);
    case List(items) =>
      if a == b {
        forall i | 0 <= i < |items|
          ensures Encodable(items[i]) <==> Encodable(x.items[i])
        {
          EncodableAgrees(a.items[i], b.items[i], items[i], x.items[i]);
        }
      } else {
        SameMergeHashable(a.items, b.items);
        HashablesShown(a.items, w);
        HashablesShown(b.items, x);
      }
    case _ =>
  }

  lemma {:induction false} AttrsAgree(a: Value, b: Value, attrs: map<string, P.Expr>, attrs': map<string, P.Expr>)
    requires a.Dict? && b.Dict?
    requires a == b || (TupleFree(a) && TupleFree(b) && SameUpToOrder(a, b))
    requires Shows(a, P.Attrs(attrs)) && Shows(b, P.Attrs(attrs'))
    ensures Encodable(P.Attrs(attrs)) <==> Encodable(P.Attrs(attrs'))
    decreases P.Attrs(attrs), 0
  {
    var e := ExpansionOf(a.fields, attrs);
    var f := ExpansionOf(b.fields, attrs');
    hide Shows, ExpandsTo;
    SameExpansions(a, b, e, f);
    assert HasNames(e, attrs'.Keys);
    SameNames(e, attrs.Keys, attrs'.Keys);
    forall k | k in attrs
      ensures Encodable(attrs[k]) <==> Encodable(attrs'[k])
    {
      EncodableAgrees(e[Name(k)], f[Name(k)], attrs[k], attrs'[k]);
    }
  }

  lemma ExpansionOf(m: map<Key, Value>, attrs: map<string, P.Expr>) returns (e: map<Key, Value>)
    requires Shows(Dict(m), P.Attrs(attrs))
    ensures ExpandsTo(m, e) && HasNames(e, attrs.Keys) && forall k :: k in attrs ==> Shows(e[Name(k)], attrs[k])
  {
    hide ExpandsTo;
    e :| ExpandsTo(m, e) && HasNames(e, attrs.Keys) && forall k :: k in attrs ==> Shows(e[Name(k)], attrs[k]);
  }

  lemma HashablesShown(items: seq<Value>, w: P.Expr)
    requires AllHashable(items) && Shows(List(items), w)
    ensures Encodable(w)
  {
    assert forall i :: 0 <= i < |items| ==> Hashable(items[i]) && Encodable(w.items[i]);
  }

  lemma SameExpansions(a: Value, b: Value, e: map<Key, Value>, f: map<Key, Value>)
    requires a.Dict? && b.Dict? && ExpandsTo(a.fields, e) && ExpandsTo(b.fields, f)
    requires a == b || (TupleFree(a) && TupleFree(b) && SameUpToOrder(a, b))
    ensures SameUpToOrder(Dict(e), Dict(f)) && TupleFree(Dict(e)) && TupleFree(Dict(f))
  {
    hide Mean, Holds;
    if a == b {
      ExpansionsAgree(a.fields, e, f);
    } else {
      ExpandingTwice(a.fields, e);
      ExpandingTwice(b.fields, f);
    }
  }

  // ----- Values with string keys -----

  ghost function NamesOf(names: set<string>): (r: set<Key>)
    ensures forall k :: k in r <==> k.Name? && k.name in names
  {
    set name | name in names :: Name(name)
  }

  /** The Python value that is w. */
  ghost function Embed(w: P.Expr): Value {
    match w
    case Null => Null
    case Bool(b) => Bool(b)
    case Int(n) => Int(n)
    case Str(s) => Str(s)
    case List(items) => List(seq(|items|, i requires 0 <= i < |items| => Embed(items[i])))
    case Attrs(attrs) => Dict(map k | k in NamesOf(attrs.Keys) :: Embed(attrs[k.name]))
  }

  lemma EmbedFields(attrs: map<string, P.Expr>)
    ensures var m := Embed(P.Attrs(attrs)).fields;
            && (forall k :: k in m <==> k.Name? && k.name in attrs)
            && (forall name :: name in attrs ==> m[Name(name)] == Embed(attrs[name]))
  {
  }

  lemma {:induction false} EmbedTupleFree(w: P.Expr)
    ensures TupleFree(Embed(w))
  {
    if w.Attrs? {
      hide Embed;
      EmbedFields(w.attrs);
      var fields := Embed(w).fields;
      forall k | k in fields
        ensures k.Name? && TupleFree(fields[k])
      {
        EmbedTupleFree(w.attrs[k.name]);
      }
    }
  }

  /** A value without tuple keys is shown as itself and in no other way. */
  lemma {:induction false} ShowsItself(w: P.Expr, x: P.Expr)
    ensures Shows(Embed(w), x) <==> x == w
    decreases w
  {
    match w
    case Attrs(attrs) =>
      forall k, c | k in attrs
        ensures Shows(Embed(attrs[k]), c) <==> c == attrs[k]
      {
        ShowsItself(attrs[k], c);
      }
      AttrsShowThemselves(attrs, x);
    case List(items) =>
      if x.List? {
        forall i | 0 <= i < |items| && i < |x.items|
          ensures Shows(Embed(items[i]), x.items[i]) <==> x.items[i] == items[i]
        {
          ShowsItself(items[i], x.items[i]);
        }
      }
    case _ =>
  }

  lemma AttrsShowThemselves(attrs: map<string, P.Expr>, x: P.Expr)
    requires forall k, c :: k in attrs ==> (Shows(Embed(attrs[k]), c) <==> c == attrs[k])
    ensures Shows(Embed(P.Attrs(attrs)), x) <==> x == P.Attrs(attrs)
  {
    hide Shows, TupleFree;
    EmbedTupleFree(P.Attrs(attrs));
    EmbedFields(attrs);
    var m := Embed(P.Attrs(attrs)).fields;
    ShowsExpanded(m, x);
    if x.Attrs? && HasNames(m, x.attrs.Keys) {
      SameNames(m, attrs.Keys, x.attrs.Keys);
      assert x.attrs == attrs <==> forall k :: k in attrs ==> x.attrs[k] == attrs[k];
    }
  }

  lemma SameNames(m: map<Key, Value>, names: set<string>, names': set<string>)
    requires HasNames(m, names) && HasNames(m, names')
    ensures names == names'
  {
    forall k
      ensures k in names <==> k in names'
    {
      assert k in names ==> Name(k) in m;
    }
  }

  /** py2nix.  None stands for the errors of expand_dict and the KeyError of an empty key.  The text
      is a layout of the expanded value, and reads back as it exactly when that is readable. */
  method Py2nix(value: Value, level: nat, maxwidth: int, inlined: bool) returns (r: Option<string>, ghost w: P.Expr)
    ensures r.Some? ==> Shows(value, w) && Encodable(w) && r.value == Indent(P.Enc(w), level, inlined, maxwidth)
    ensures r.Some? && !FallsBack(P.Enc(w), level, inlined, maxwidth) ==> (Parse(r.value) == Some(w) <==> Readable(w, false))
    ensures r.Some? && (inlined || PlainStrings(w)) ==> !FallsBack(P.Enc(w), level, inlined, maxwidth)
    ensures r.None? ==> forall x :: Shows(value, x) ==> exists a :: Within(a, x) && a.Attrs? && "" in a.attrs
    ensures r.Some? ==> forall a :: Within(a, w) && a.Attrs? ==> "" !in a.attrs
  {
    hide Shows, DepthAtMost, Encodable, PlainStrings, FallsBack, Within, Parse, Readable, P.Enc, Indent;
    ghost var n := HasDepth(value);
    var expanded := Elaborate(value, n);
    if expanded.None? {
      return None, P.Null;
    }
    w := expanded.value;
    if !Encodable(expanded.value) {
      forall x | Shows(value, x)
        ensures !Encodable(x)
      {
        EncodableAgrees(value, value, w, x);
      }
      forall x | Shows(value, x)
        ensures exists a :: Within(a, x) && a.Attrs? && "" in a.attrs
      {
        EncodableIff(x);
      }
      return None, w;
    }
    EncodableIff(w);
    if inlined || PlainStrings(w) {
      NoFallBack(w, level, maxwidth, inlined);
    }
    if !FallsBack(P.Enc(w), level, inlined, maxwidth) {
      RoundTrip(w, level, maxwidth, inlined);
    }
    var doc := NixEncoders.Encode(expanded.value);
    return Some(Indent(doc, level, inlined, maxwidth)), w;
  }
}
