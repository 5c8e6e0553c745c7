/** The width test of the printer, on values: when a value is printed on one line, and by how much
    the length it is judged by falls short. */
module NixWidths {
  import opened PyStrings
  import opened NixStrings
  import opened NixLayout
  import opened NixPrint
  import opened NixEncoding

  // ----- No encoder writes a line break -----

  predicate Flat(s: string) { '\n' !in s }

  lemma {:induction false} EscapeFlat(s: string)
    ensures Flat(Escape(s))
    decreases |s|
  {
    if s != "" {
      EscapeFlat(s[1..]);
      if "${" <= s {
        EscapeFlat(s[2..]);
      }
    }
  }

  lemma QuotedFlat(s: string)
    ensures Flat(Quoted(s))
  {
    hide Escape;
    FivePassesAreOne(s);
    EscapeFlat(s);
  }

  lemma KeyFlat(k: string)
    ensures Flat(EncKey(k))
  {
    QuotedFlat(k);
  }

  lemma {:induction false} CompressFlat(path: string, v: Expr)
    requires Flat(path)
    ensures Flat(Compress(path, v).0)
    decreases v
  {
    hide EncKey, OnlyKey;
    if Single(v) {
      var k := OnlyKey(v.attrs);
      KeyFlat(k);
      CompressFlat(path + "." + EncKey(k), v.attrs[k]);
    }
  }

  lemma {:induction false} CollapseFlat(pre: string, nodes: seq<Expr>, post: string)
    requires Flat(pre) && Flat(post)
    ensures Flat(Collapse(pre, nodes, post).0) && Flat(Collapse(pre, nodes, post).2)
    decreases nodes
  {
    if |nodes| == 1 && nodes[0].List? {
      CollapseFlat(pre + " [", nodes[0].items, post + " ]");
    }
  }

  lemma StrFlat(s: string)
    ensures FlatPieces(EncStr(s))
  {
    hide FoldString, Quoted, SplitLines;
    QuotedFlat(s);
    if s != "" && s[|s| - 1] == '\n' {
      var lines := SplitLines(FoldString(s[..|s| - 1], INDENTED_RULES));
      LinesHaveNoBreaks(FoldString(s[..|s| - 1], INDENTED_RULES));
      forall i | 0 <= i < |lines|
        ensures FlatPieces(Raw(lines[i]))
      {
        assert NoBreak(lines[i]);
      }
    }
  }

  lemma EnclosedFlat(d: Doc, prefix: string, suffix: string)
    requires FlatPieces(d) && Flat(prefix) && Flat(suffix)
    ensures FlatPieces(EncloseNode(d, prefix, suffix))
  {
  }

  lemma AtomFlat(v: Expr)
    requires !v.List? && !v.Attrs?
    ensures FlatPieces(Enc(v))
  {
    hide EncStr, EncInt, Decimal;
    if v.Str? {
      StrFlat(v.s);
    } else if v.Int? {
      IntFlat(v.n);
    }
  }

  lemma IntFlat(n: int)
    ensures Flat(EncInt(n))
  {
    hide Decimal;
    var digits := Decimal(if n < 0 then -n else n);
    forall i | 0 <= i < |digits|
      ensures digits[i] != '\n'
    {
    }
    assert Flat("builtins.sub 0 ") && Flat(digits);
  }

  /** No piece of an encoded value contains a line break: lines are the layout's only. */
  lemma {:induction false} EncFlat(v: Expr)
    ensures FlatPieces(Enc(v))
    decreases v
  {
    hide Enc, FlatPieces;
    match v
    case List(items) =>
      if items == [] {
        EmptyFlat(v);
      } else {
        var (pre, nodes, post) := Collapse("[", items, "]");
        forall i | 0 <= i < |nodes|
          ensures FlatPieces(Enc(nodes[i]))
        {
          EncFlat(nodes[i]);
        }
        ListFlat(items);
      }
    case Attrs(attrs) =>
      if attrs == map[] {
        EmptyFlat(v);
      } else {
        forall k | k in attrs
          ensures FlatPieces(EncBinding(k, attrs[k], v))
        {
          EncFlat(Compress(EncKey(k), attrs[k]).1);
          BindingFlat(k, attrs[k], v);
        }
        AttrsFlat(attrs);
      }
    case _ =>
      AtomFlat(v);
  }

  lemma EmptyFlat(v: Expr)
    requires v == List([]) || v == Attrs(map[])
    ensures FlatPieces(Enc(v))
  {
  }

  lemma ListFlat(items: seq<Expr>)
    requires items != []
    requires var nodes := Collapse("[", items, "]").1; forall i :: 0 <= i < |nodes| ==> FlatPieces(Enc(nodes[i]))
    ensures FlatPieces(Enc(List(items)))
  {
    CollapseFlat("[", items, "]");
    var docs := ListShape(items);
    hide Enc, Collapse;
    assert forall i :: 0 <= i < |docs| ==> FlatPieces(docs[i]);
  }

  lemma ListShape(items: seq<Expr>) returns (docs: seq<Doc>)
    requires items != []
    ensures var (pre, nodes, post) := Collapse("[", items, "]");
            && Enc(List(items)) == Container(pre, docs, post, None)
            && |docs| == |nodes| && forall i :: 0 <= i < |nodes| ==> docs[i] == Enc(nodes[i])
  {
    hide Collapse, EncBinding, EncStr, EncInt, SortedKeys;
    docs := Enc(List(items)).children;
  }

  lemma AttrsFlat(attrs: map<string, Expr>)
    requires attrs != map[]
    requires forall k :: k in attrs ==> FlatPieces(EncBinding(k, attrs[k], Attrs(attrs)))
    ensures FlatPieces(Enc(Attrs(attrs)))
  {
    var docs := AttrsShape(attrs);
    var keys := SortedKeys(attrs.Keys);
    hide Enc, EncBinding, SortedKeys;
    forall i | 0 <= i < |keys|
      ensures FlatPieces(docs[i])
    {
      assert keys[i] in attrs;
    }
  }

  lemma BindingFlat(k: string, v: Expr, whole: Expr)
    requires v < whole && FlatPieces(Enc(Compress(EncKey(k), v).1))
    ensures FlatPieces(EncBinding(k, v, whole))
  {
    hide Enc, EncKey, EncloseNode, FlatPieces;
    var (path, leaf) := Compress(EncKey(k), v);
    KeyFlat(k);
    CompressFlat(EncKey(k), v);
    EnclosedFlat(Enc(leaf), path + " = ", ";");
  }

  // ----- Empty lists in single lists -----

  /** How many lists of v hold nothing but one empty list. */
  ghost function EmptyNests(v: Expr): nat
    decreases v, 1
  {
    match v
    case List(items) =>
      if items == [List([])] then 1 else NestsSum(items)
    case Attrs(attrs) => AttrNests(SortedKeys(attrs.Keys), attrs, v)
    case _ => 0
  }

  ghost function NestsSum(items: seq<Expr>): nat
    decreases items, 0
  {
    if items == [] then 0 else EmptyNests(items[0]) + NestsSum(items[1..])
  }

  ghost function AttrNests(keys: seq<string>, attrs: map<string, Expr>, whole: Expr): nat
    requires forall k :: k in keys ==> k in attrs
    requires forall k :: k in attrs ==> attrs[k] < whole
    decreases whole, 0, |keys|
  {
    if keys == [] then 0 else EmptyNests(attrs[keys[0]]) + AttrNests(keys[1..], attrs, whole)
  }

  lemma {:induction false} CollapseNests(pre: string, items: seq<Expr>, post: string)
    requires items != []
    ensures var nodes := Collapse(pre, items, post).1;
            EmptyNests(List(items)) == if nodes == [] then 1 else NestsSum(nodes)
    decreases items
  {
    if |items| == 1 && items[0].List? {
      var inner := items[0].items;
      assert items == [List(inner)] && items[1..] == [];
      if inner != [] {
        CollapseNests(pre + " [", inner, post + " ]");
        assert NestsSum(items) == EmptyNests(List(inner));
      }
    }
  }

  lemma {:induction false} LeafNests(v: Expr)
    ensures EmptyNests(v) == EmptyNests(Leaf(v))
    decreases v
  {
    hide SortedKeys;
    if Single(v) {
      var k := OnlyKey(v.attrs);
      LeafNests(v.attrs[k]);
      OneKey(v.attrs);
      assert [k][1..] == [];
      assert AttrNests([], v.attrs, v) == 0;
      assert AttrNests([k], v.attrs, v) == EmptyNests(v.attrs[k]);
    }
  }

  lemma OneKey(attrs: map<string, Expr>)
    requires |attrs| == 1
    ensures SortedKeys(attrs.Keys) == [OnlyKey(attrs)]
  {
  }

  lemma {:induction false} DocsNests(nodes: seq<Expr>, docs: seq<Doc>)
    requires |docs| == |nodes| && forall i :: 0 <= i < |nodes| ==> Childless(docs[i]) == EmptyNests(nodes[i])
    ensures ChildlessSum(docs) == NestsSum(nodes)
  {
    hide Childless, EmptyNests;
    if docs != [] {
      DocsNests(nodes[1..], docs[1..]);
    }
  }

  lemma {:induction false} AttrDocsNests(keys: seq<string>, attrs: map<string, Expr>, whole: Expr, docs: seq<Doc>)
    requires forall k :: k in keys ==> k in attrs
    requires forall k :: k in attrs ==> attrs[k] < whole
    requires |docs| == |keys| && forall i :: 0 <= i < |keys| ==> Childless(docs[i]) == EmptyNests(attrs[keys[i]])
    ensures ChildlessSum(docs) == AttrNests(keys, attrs, whole)
    decreases |keys|
  {
    hide Childless, EmptyNests;
    if docs != [] {
      AttrDocsNests(keys[1..], attrs, whole, docs[1..]);
    }
  }

  lemma EnclosedChildless(d: Doc, prefix: string, suffix: string)
    requires !d.MultiLine?
    ensures Childless(EncloseNode(d, prefix, suffix)) == Childless(d)
  {
  }

  /** The containers without children that are printed for v. */
  lemma {:induction false} EncChildless(v: Expr)
    requires Encodable(v) && PlainStrings(v)
    ensures Childless(Enc(v)) == EmptyNests(v)
    decreases v, 1
  {
    match v
    case List(items) =>
      if items != [] {
        CollapseParts("[", items, "]", true);
        CollapseNests("[", items, "]");
        var nodes := Collapse("[", items, "]").1;
        var docs := ListShape(items);
        forall i | 0 <= i < |nodes|
          ensures Childless(docs[i]) == EmptyNests(nodes[i])
        {
          EncChildless(nodes[i]);
        }
        DocsNests(nodes, docs);
      }
    case Attrs(attrs) =>
      AttrsChildless(attrs);
    case _ =>
  }

  lemma {:induction false} AttrsChildless(attrs: map<string, Expr>)
    requires Encodable(Attrs(attrs)) && PlainStrings(Attrs(attrs))
    ensures Childless(Enc(Attrs(attrs))) == EmptyNests(Attrs(attrs))
    decreases Attrs(attrs), 0
  {
    hide Enc, EncBinding, SortedKeys, Childless, EmptyNests;
    if attrs == map[] {
      NoAttrs();
    } else {
      var v := Attrs(attrs);
      forall k | k in attrs
        ensures Childless(EncBinding(k, attrs[k], v)) == EmptyNests(attrs[k])
      {
        LeafParts(attrs[k]);
        EncChildless(Leaf(attrs[k]));
        BindingNests(k, attrs[k], v);
      }
      AttrsNests(attrs);
    }
  }

  lemma NoAttrs()
    ensures Childless(Enc(Attrs(map[]))) == EmptyNests(Attrs(map[]))
  {
  }

  lemma AttrsNests(attrs: map<string, Expr>)
    requires attrs != map[]
    requires forall k :: k in attrs ==> Childless(EncBinding(k, attrs[k], Attrs(attrs))) == EmptyNests(attrs[k])
    ensures Childless(Enc(Attrs(attrs))) == EmptyNests(Attrs(attrs))
  {
    var v := Attrs(attrs);
    var docs := AttrsShape(attrs);
    var keys := SortedKeys(attrs.Keys);
    hide Enc, EncBinding, SortedKeys;
    forall i | 0 <= i < |keys|
      ensures Childless(docs[i]) == EmptyNests(attrs[keys[i]])
    {
      assert keys[i] in attrs;
    }
    AttrDocsNests(keys, attrs, v, docs);
    var some :| some in attrs;
    assert some in keys;
  }

  lemma BindingNests(k: string, v: Expr, whole: Expr)
    requires v < whole && Childless(Enc(Leaf(v))) == EmptyNests(Leaf(v))
    ensures Childless(EncBinding(k, v, whole)) == EmptyNests(v)
  {
    hide Enc, EncKey, EncloseNode, EmptyNests, Childless;
    CompressLeaf(EncKey(k), v);
    var (path, leaf) := Compress(EncKey(k), v);
    EnclosedChildless(Enc(leaf), path + " = ", ";");
    LeafNests(v);
  }

  lemma {:induction false} CompressLeaf(path: string, v: Expr)
    ensures Compress(path, v).1 == Leaf(v)
    decreases v
  {
    hide EncKey, OnlyKey;
    if Single(v) {
      var k := OnlyKey(v.attrs);
      CompressLeaf(path + "." + EncKey(k), v.attrs[k]);
    }
  }

  // ----- The width test on values -----

  /** The inline text of v. */
  ghost function Inline(v: Expr): string { Indent(Enc(v), 0, true, 80) }

  /** A list or attribute set that is not empty, or a string that ends in a newline: what can be
      broken into lines. */
  predicate Breakable(v: Expr) {
    match v
    case List(items) => items != []
    case Attrs(attrs) => attrs != map[]
    case Str(s) => s != "" && s[|s| - 1] == '\n'
    case _ => false
  }

  /** A value that can be broken is printed on one line exactly when its indentation and its
      minimum length are below the width. */
  lemma OneLineIff(v: Expr, level: nat, maxwidth: int)
    requires Breakable(v)
    ensures '\n' !in Indent(Enc(v), level, false, maxwidth) <==> 2 * level + MinLength(Enc(v)) < maxwidth
  {
    EncFlat(v);
    OneLineIffFits(Enc(v), level, maxwidth);
  }

  /** The minimum length is the length of the inline text, less one for every list that holds
      nothing but an empty list. */
  lemma MinLengthOf(v: Expr)
    requires Encodable(v) && PlainStrings(v)
    ensures MinLength(Enc(v)) + EmptyNests(v) == |Inline(v)|
  {
    EncFlat(v);
    EncTokens(v, true);
    EncChildless(v);
    InlineIsOneLine(Enc(v), 80);
    InlineLength(Enc(v), 80);
  }

  /** So the printer breaks exactly the values whose line would not fit, but for lists of one empty
      list, each of which is taken for one character shorter than it is. */
  lemma BrokenIffTooWide(v: Expr, level: nat, maxwidth: int)
    requires Encodable(v) && PlainStrings(v) && Breakable(v)
    ensures '\n' !in Indent(Enc(v), level, false, maxwidth) <==> 2 * level + |Inline(v)| < maxwidth + EmptyNests(v)
  {
    OneLineIff(v, level, maxwidth);
    MinLengthOf(v);
  }

  /** `[[]]`, which is eight characters wide, is printed on one line where seven would just fit. */
  lemma EmptyNestOffByOne()
    ensures var v := List([List([])]);
            |Inline(v)| == 8 && MinLength(Enc(v)) == 7 && '\n' !in Indent(Enc(v), 0, false, 8)
  {
    var v := List([List([])]);
    assert "[" + " [" == "[ [" && "]" + " ]" == "] ]";
    assert Collapse("[ [", [], "] ]") == ("[ [", [], "] ]");
    assert Collapse("[", v.items, "]") == ("[ [", [], "] ]");
    assert Enc(v) == Container("[ [", [], "] ]", None);
    OneLineIff(v, 0, 8);
  }
}
