/** The encoders of `py2nix` produce documents that lex to the tokens of the value: singleton
    lists may be collapsed and single attributes joined with dots. */
module NixEncoding {
  import opened PyStrings
  import opened NixStrings
  import opened NixLayout
  import opened NixTokens
  import opened NixPrint

  /** `_enc_key` raises on an empty key. */
  predicate Encodable(v: Expr) {
    match v
    case List(items) => forall i :: 0 <= i < |items| ==> Encodable(items[i])
    case Attrs(attrs) => forall k :: k in attrs ==> k != "" && Encodable(attrs[k])
    case _ => true
  }

  /** No string value ends with a newline, so that no indented string is printed. */
  predicate PlainStrings(v: Expr) {
    match v
    case Str(s) => s == "" || s[|s| - 1] != '\n'
    case List(items) => forall i :: 0 <= i < |items| ==> PlainStrings(items[i])
    case Attrs(attrs) => forall k :: k in attrs ==> PlainStrings(attrs[k])
    case _ => true
  }

  /** x is v, or an element or an attribute of it at some depth. */
  ghost predicate Within(x: Expr, v: Expr)
    decreases v
  {
    || x == v
    || (v.List? && exists i :: 0 <= i < |v.items| && Within(x, v.items[i]))
    || (v.Attrs? && exists k :: k in v.attrs && Within(x, v.attrs[k]))
  }

  /** A value can be encoded unless some attribute set in it has an empty key. */
  lemma {:induction false} EncodableIff(v: Expr)
    ensures Encodable(v) <==> forall x :: Within(x, v) && x.Attrs? ==> "" !in x.attrs
    decreases v
  {
    match v
    case List(items) =>
      forall i | 0 <= i < |items|
        ensures Encodable(items[i]) <==> forall x :: Within(x, items[i]) && x.Attrs? ==> "" !in x.attrs
      {
        EncodableIff(items[i]);
      }
    case Attrs(attrs) =>
      assert Within(v, v);
      forall k | k in attrs
        ensures Encodable(attrs[k]) <==> forall x :: Within(x, attrs[k]) && x.Attrs? ==> "" !in x.attrs
      {
        EncodableIff(attrs[k]);
      }
    case _ =>
  }

  /** No string in it ends in a newline. */
  lemma {:induction false} PlainStringsIff(v: Expr)
    ensures PlainStrings(v) <==> forall x :: Within(x, v) && x.Str? && x.s != "" ==> x.s[|x.s| - 1] != '\n'
    decreases v
  {
    match v
    case Str(s) =>
      assert Within(v, v);
    case List(items) =>
      forall i | 0 <= i < |items|
        ensures PlainStrings(items[i]) <==>
                forall x :: Within(x, items[i]) && x.Str? && x.s != "" ==> x.s[|x.s| - 1] != '\n'
      {
        PlainStringsIff(items[i]);
      }
    case Attrs(attrs) =>
      forall k | k in attrs
        ensures PlainStrings(attrs[k]) <==>
                forall x :: Within(x, attrs[k]) && x.Str? && x.s != "" ==> x.s[|x.s| - 1] != '\n'
      {
        PlainStringsIff(attrs[k]);
      }
    case _ =>
  }

  // ----- Single tokens -----

  lemma LexLast(s: string, token: Token)
    requires s != "" && !IsSpace(s[0]) && NextToken(s) == Some((token, ""))
    ensures Lex(s) == Some([token])
  {
    hide NextToken;
    LexToken(s, token, "", []);
    assert [token] + [] == [token];
  }

  lemma LexWord(w: string)
    requires w != "" && IsIdStart(w[0]) && forall i :: 0 <= i < |w| ==> IsWord(w[i])
    ensures Lex(w) == Some([Id(w)])
  {
    WordRunIs(w, |w|);
    assert w[..|w|] == w && w[|w|..] == "";
    LexLast(w, Id(w));
  }

  lemma LexPunct(p: string)
    requires |p| == 1 && IsPunct(p[0])
    ensures Lex(p) == Some([Punct(p[0])])
  {
    assert p[1..] == "";
    assert p[0] in ['[', ']', '{', '}', '=', ';', '.'];
    LexLast(p, Punct(p[0]));
  }

  lemma LexDecimal(n: nat)
    ensures Lex(Decimal(n)) == Some([IntLit(n)])
  {
    var w := Decimal(n);
    DigitRunIs(w, |w|);
    DecimalValue(n);
    assert w[..|w|] == w && w[|w|..] == "";
    LexLast(w, IntLit(n));
  }

  lemma LexQuoted(s: string)
    ensures Lex(Quoted(s)) == Some([StrLit(NormCR(s))])
  {
    FivePassesAreOne(s);
    ReadEscaped(s, "");
    assert Quoted(s)[1..] == Escape(s) + "\"" + "";
    LexLast(Quoted(s), StrLit(NormCR(s)));
  }

  lemma LexKey(k: string)
    requires k != ""
    ensures EncKey(k) != "" && Lex(EncKey(k)) == Some([KeyToken(k)])
  {
    if SimpleKey(k) {
      LexWord(k);
    } else {
      LexQuoted(k);
    }
  }

  lemma LexSubtraction()
    ensures Lex("builtins.sub 0") == Some([Id("builtins"), Punct('.'), Id("sub"), IntLit(0)])
  {
    hide Lex;
    LexWord("builtins");
    LexPunct(".");
    LexWord("sub");
    LexDecimal(0);
    var t1, t2 := [Id("builtins"), Punct('.')], [Id("builtins"), Punct('.'), Id("sub")];
    LexConcat("builtins", ".", [Id("builtins")], [Punct('.')]);
    assert "builtins" + "." == "builtins." && [Id("builtins")] + [Punct('.')] == t1;
    LexConcat("builtins.", "sub", t1, [Id("sub")]);
    assert "builtins." + "sub" == "builtins.sub" && t1 + [Id("sub")] == t2;
    LexSeparated("builtins.sub", " ", Decimal(0), t2, [IntLit(0)]);
    assert "builtins.sub" + (" " + Decimal(0)) == "builtins.sub 0";
    assert t2 + [IntLit(0)] == [Id("builtins"), Punct('.'), Id("sub"), IntLit(0)];
  }

  lemma LexInt(n: int)
    ensures Lex(EncInt(n)) == Some(Tokens(Int(n)))
  {
    hide Lex, Decimal;
    if n < 0 {
      LexSubtraction();
      LexDecimal(-n);
      var t3 := [Id("builtins"), Punct('.'), Id("sub"), IntLit(0)];
      LexSeparated("builtins.sub 0", " ", Decimal(-n), t3, [IntLit(-n)]);
      assert EncInt(n) == "builtins.sub 0" + (" " + Decimal(-n));
      assert t3 + [IntLit(-n)] == Tokens(Int(n));
    } else {
      LexDecimal(n);
    }
  }

  // ----- Paths and enclosing -----

  lemma DottedTokens(path: string, k: string, tp: seq<Token>)
    requires Lex(path) == Some(tp) && k != ""
    ensures Lex(path + "." + EncKey(k)) == Some(tp + [Punct('.'), KeyToken(k)])
  {
    hide Lex;
    LexKey(k);
    LexPunct(".");
    LexConcat(path, ".", tp, [Punct('.')]);
    LexConcat(path + ".", EncKey(k), tp + [Punct('.')], [KeyToken(k)]);
    assert tp + [Punct('.')] + [KeyToken(k)] == tp + [Punct('.'), KeyToken(k)];
  }

  lemma {:induction false} CompressTokens(path: string, v: Expr, tp: seq<Token>)
    requires Encodable(v) && Lex(path) == Some(tp)
    ensures Compress(path, v).1 == Leaf(v)
    ensures Lex(Compress(path, v).0) == Some(tp + PathRest(v))
    decreases v
  {
    hide Lex, EncKey, KeyToken, OnlyKey;
    if Single(v) {
      var k := OnlyKey(v.attrs);
      DottedTokens(path, k, tp);
      CompressTokens(path + "." + EncKey(k), v.attrs[k], tp + [Punct('.'), KeyToken(k)]);
      assert tp + [Punct('.'), KeyToken(k)] + PathRest(v.attrs[k]) == tp + PathRest(v);
    } else {
      assert tp + [] == tp;
    }
  }

  lemma EncloseText(text: string, prefix: string, suffix: string, t: seq<Token>, tp: seq<Token>, ts: seq<Token>)
    requires Lex(text) == Some(t) && Lex(prefix) == Some(tp) && Lex(suffix) == Some(ts)
    requires prefix != "" && !IsWord(prefix[|prefix| - 1]) && suffix != "" && !IsWord(suffix[0])
    ensures Lex(prefix + text) == Some(tp + t) && Lex(text + suffix) == Some(t + ts)
    ensures Lex(prefix + text + suffix) == Some(tp + t + ts)
  {
    hide Lex;
    LexConcat(prefix, text, tp, t);
    LexConcat(text, suffix, t, ts);
    LexConcat(prefix + text, suffix, tp + t, ts);
  }

  lemma EncloseTokens(d: Doc, prefix: string, suffix: string, tp: seq<Token>, ts: seq<Token>)
    requires Lexable(d) && Lex(prefix) == Some(tp) && Lex(suffix) == Some(ts)
    requires prefix != "" && !IsWord(prefix[|prefix| - 1]) && suffix != "" && !IsWord(suffix[0])
    ensures Lexable(EncloseNode(d, prefix, suffix))
    ensures DocTokens(EncloseNode(d, prefix, suffix)) == tp + DocTokens(d) + ts
    ensures NoVariants(d) ==> NoVariants(EncloseNode(d, prefix, suffix))
  {
    hide Lex;
    match d
    case Raw(value) =>
      EncloseText(value, prefix, suffix, Lex(value).value, tp, ts);
    case Container(p, children, s, variant) =>
      if variant.Some? {
        EncloseText(variant.value, prefix, suffix, Lex(variant.value).value, tp, ts);
      } else {
        EncloseText(p, prefix, suffix, Lex(p).value, tp, ts);
        EncloseText(s, prefix, suffix, Lex(s).value, tp, ts);
        assert tp + Lex(p).value + DocsTokens(children) + (Lex(s).value + ts)
            == tp + (Lex(p).value + DocsTokens(children) + Lex(s).value) + ts;
      }
  }

  // ----- Lists -----

  function Brackets(n: nat, c: char): seq<Token> { seq(n, _ => Punct(c)) }

  /** Opening n lists at once and closing them at once leaves the tokens as they were. */
  lemma {:induction false} CollapseTokens(pre: string, nodes: seq<Expr>, post: string, n: nat) returns (m: nat)
    requires Lex(pre) == Some(Brackets(n, '[')) && Lex(post) == Some(Brackets(n, ']'))
    ensures var (pre', nodes', post') := Collapse(pre, nodes, post);
            && Lex(pre') == Some(Brackets(m, '[')) && Lex(post') == Some(Brackets(m, ']'))
            && Brackets(m, '[') + ItemsTokens(nodes') + Brackets(m, ']')
            == Brackets(n, '[') + ItemsTokens(nodes) + Brackets(n, ']')
    decreases nodes
  {
    hide Lex;
    if |nodes| == 1 && nodes[0].List? {
      var items := nodes[0].items;
      LexPunct("[");
      LexPunct("]");
      LexSeparated(pre, " ", "[", Brackets(n, '['), [Punct('[')]);
      LexSeparated(post, " ", "]", Brackets(n, ']'), [Punct(']')]);
      assert pre + (" " + "[") == pre + " [" && post + (" " + "]") == post + " ]";
      BracketsNext(n, '[');
      BracketsNext(n, ']');
      m := CollapseTokens(pre + " [", items, post + " ]", n + 1);
      NestedTokens(nodes, n);
    } else {
      m := n;
    }
  }

  lemma BracketsNext(n: nat, c: char)
    ensures Brackets(n + 1, c) == Brackets(n, c) + [Punct(c)] == [Punct(c)] + Brackets(n, c)
  {
  }

  lemma NestedTokens(nodes: seq<Expr>, n: nat)
    requires |nodes| == 1 && nodes[0].List?
    ensures Brackets(n, '[') + ItemsTokens(nodes) + Brackets(n, ']')
         == Brackets(n + 1, '[') + ItemsTokens(nodes[0].items) + Brackets(n + 1, ']')
  {
    hide Brackets;
    var inner := ItemsTokens(nodes[0].items);
    assert nodes[1..] == [];
    assert ItemsTokens(nodes) == [Punct('[')] + inner + [Punct(']')] by {
      assert Tokens(nodes[0]) + [] == Tokens(nodes[0]);
    }
    BracketsNext(n, '[');
    BracketsNext(n, ']');
    Regroup(Brackets(n, '['), [Punct('[')], inner, [Punct(']')], Brackets(n, ']'));
  }

  lemma Regroup(a: seq<Token>, b: seq<Token>, c: seq<Token>, d: seq<Token>, e: seq<Token>)
    ensures a + (b + c + d) + e == (a + b) + c + (d + e)
  {
  }

  ghost predicate AllEncodable(nodes: seq<Expr>, plain: bool) {
    forall i :: 0 <= i < |nodes| ==> Encodable(nodes[i]) && (plain ==> PlainStrings(nodes[i]))
  }

  lemma {:induction false} CollapseParts(pre: string, nodes: seq<Expr>, post: string, plain: bool)
    requires AllEncodable(nodes, plain)
    ensures AllEncodable(Collapse(pre, nodes, post).1, plain)
    decreases nodes
  {
    if |nodes| == 1 && nodes[0].List? {
      assert Encodable(nodes[0]) && (plain ==> PlainStrings(nodes[0]));
      CollapseParts(pre + " [", nodes[0].items, post + " ]", plain);
    }
  }

  // ----- Whole values -----

  /** d is a document for the tokens ts, without inline variants if plain. */
  ghost predicate DocFor(d: Doc, ts: seq<Token>, plain: bool) {
    Lexable(d) && DocTokens(d) == ts && (plain ==> NoVariants(d))
  }

  lemma {:induction false} ItemsDocs(nodes: seq<Expr>, docs: seq<Doc>, plain: bool)
    requires |docs| == |nodes|
    requires forall i :: 0 <= i < |nodes| ==> DocFor(docs[i], Tokens(nodes[i]), plain)
    ensures (forall d :: d in docs ==> Lexable(d) && (plain ==> NoVariants(d)))
    ensures DocsTokens(docs) == ItemsTokens(nodes)
  {
    forall d | d in docs
      ensures Lexable(d) && (plain ==> NoVariants(d))
    {
      var i :| 0 <= i < |docs| && docs[i] == d;
      assert DocFor(docs[i], Tokens(nodes[i]), plain);
    }
    if docs != [] {
      assert DocFor(docs[0], Tokens(nodes[0]), plain);
      ItemsDocs(nodes[1..], docs[1..], plain);
    }
  }

  lemma {:induction false} BindingsDocs(keys: seq<string>, attrs: map<string, Expr>, whole: Expr, docs: seq<Doc>, plain: bool)
    requires forall k :: k in keys ==> k in attrs
    requires forall k :: k in attrs ==> attrs[k] < whole
    requires |docs| == |keys|
    requires forall i :: 0 <= i < |keys| ==> DocFor(docs[i], BindingTokens(keys[i], attrs[keys[i]], whole), plain)
    ensures (forall d :: d in docs ==> Lexable(d) && (plain ==> NoVariants(d)))
    ensures DocsTokens(docs) == BindingsTokens(keys, attrs, whole)
    decreases |keys|
  {
    forall d | d in docs
      ensures Lexable(d) && (plain ==> NoVariants(d))
    {
      var i :| 0 <= i < |docs| && docs[i] == d;
      assert DocFor(docs[i], BindingTokens(keys[i], attrs[keys[i]], whole), plain);
    }
    if docs != [] {
      assert DocFor(docs[0], BindingTokens(keys[0], attrs[keys[0]], whole), plain);
      BindingsDocs(keys[1..], attrs, whole, docs[1..], plain);
    }
  }

  lemma {:induction false} LeafParts(v: Expr)
    requires Encodable(v)
    ensures Encodable(Leaf(v)) && (PlainStrings(v) ==> PlainStrings(Leaf(v)))
    decreases v
  {
    if Single(v) {
      LeafParts(v.attrs[OnlyKey(v.attrs)]);
    }
  }

  lemma BindingDoc(k: string, v: Expr, whole: Expr, plain: bool)
    requires k != "" && Encodable(v) && v < whole
    requires DocFor(Enc(Leaf(v)), Tokens(Leaf(v)), plain)
    ensures DocFor(EncBinding(k, v, whole), BindingTokens(k, v, whole), plain)
  {
    hide Lex, Enc, Tokens, DocTokens, Lexable, NoVariants, IsWord;
    LexKey(k);
    CompressTokens(EncKey(k), v, [KeyToken(k)]);
    var (path, leaf) := Compress(EncKey(k), v);
    var tp := [KeyToken(k)] + PathRest(v);
    EqualsTokens(path, tp);
    LexPunct(";");
    EncloseTokens(Enc(leaf), path + " = ", ";", tp + [Punct('=')], [Punct(';')]);
  }

  lemma EqualsTokens(path: string, tp: seq<Token>)
    requires Lex(path) == Some(tp)
    ensures Lex(path + " = ") == Some(tp + [Punct('=')])
    ensures !IsWord((path + " = ")[|path + " = "| - 1]) && !IsWord(";"[0])
  {
    hide Lex;
    LexPunct("=");
    LexSeparated(path, " ", "=", tp, [Punct('=')]);
    LexEmpty();
    LexBlank(" ", "");
    LexConcat(path + (" " + "="), " ", tp + [Punct('=')], []);
    assert path + (" " + "=") + " " == path + " = ";
    assert tp + [Punct('=')] + [] == tp + [Punct('=')];
  }

  lemma LexEmpty()
    ensures Lex("") == Some([]) && Lex(" " + "") == Some([]) && Lex(" ") == Some([])
  {
    assert " " + "" == " ";
    assert " "[1..] == "";
  }

  lemma StrDoc(s: string, plain: bool)
    requires plain ==> PlainStrings(Str(s))
    ensures DocFor(EncStr(s), Tokens(Str(s)), plain)
  {
    hide Lex;
    LexQuoted(s);
    var d := EncStr(s);
    if d.Container? {
      assert forall c :: c in d.children ==> c.Raw?;
      assert IsInlineable(d);
    }
  }

  /** A container without inline variant. */
  lemma ContainerDoc(prefix: string, docs: seq<Doc>, suffix: string, tp: seq<Token>, td: seq<Token>, ts: seq<Token>, plain: bool)
    requires Lex(prefix) == Some(tp) && Lex(suffix) == Some(ts)
    requires (forall d :: d in docs ==> Lexable(d) && (plain ==> NoVariants(d))) && DocsTokens(docs) == td
    ensures DocFor(Container(prefix, docs, suffix, None), tp + td + ts, plain)
  {
    hide Lex;
  }

  lemma ListDoc(items: seq<Expr>, plain: bool)
    requires items != []
    requires var nodes := Collapse("[", items, "]").1;
             forall i :: 0 <= i < |nodes| ==> DocFor(Enc(nodes[i]), Tokens(nodes[i]), plain)
    ensures DocFor(Enc(List(items)), Tokens(List(items)), plain)
  {
    hide Lex, DocFor;
    LexPunct("[");
    LexPunct("]");
    assert [Punct('[')] == Brackets(1, '[') && [Punct(']')] == Brackets(1, ']');
    var m := CollapseTokens("[", items, "]", 1);
    var (pre, nodes, post) := Collapse("[", items, "]");
    var docs := seq(|nodes|, i requires 0 <= i < |nodes| => Enc(nodes[i]));
    ItemsDocs(nodes, docs, plain);
    ContainerDoc(pre, docs, post, Brackets(m, '['), ItemsTokens(nodes), Brackets(m, ']'), plain);
    assert Enc(List(items)) == Container(pre, docs, post, None);
  }

  lemma AttrsShape(attrs: map<string, Expr>) returns (docs: seq<Doc>)
    requires attrs != map[]
    ensures Enc(Attrs(attrs)) == Container("{", docs, "}", None)
    ensures var keys := SortedKeys(attrs.Keys);
            |docs| == |keys| && forall i :: 0 <= i < |keys| ==> docs[i] == EncBinding(keys[i], attrs[keys[i]], Attrs(attrs))
    ensures Tokens(Attrs(attrs)) ==
            [Punct('{')] + BindingsTokens(SortedKeys(attrs.Keys), attrs, Attrs(attrs)) + [Punct('}')]
  {
    hide EncBinding, BindingTokens, BindingsTokens;
    docs := Enc(Attrs(attrs)).children;
  }

  lemma AttrsDoc(attrs: map<string, Expr>, plain: bool)
    requires attrs != map[]
    requires forall k :: k in attrs ==> DocFor(EncBinding(k, attrs[k], Attrs(attrs)), BindingTokens(k, attrs[k], Attrs(attrs)), plain)
    ensures DocFor(Enc(Attrs(attrs)), Tokens(Attrs(attrs)), plain)
  {
    hide Lex, Enc, EncBinding, Tokens, BindingTokens, BindingsTokens, DocFor, SortedKeys;
    LexPunct("{");
    LexPunct("}");
    var whole := Attrs(attrs);
    var keys := SortedKeys(attrs.Keys);
    var docs := AttrsShape(attrs);
    forall i | 0 <= i < |keys|
      ensures DocFor(docs[i], BindingTokens(keys[i], attrs[keys[i]], whole), plain)
    {
      assert keys[i] in attrs;
    }
    BindingsDocs(keys, attrs, whole, docs, plain);
    ContainerDoc("{", docs, "}", [Punct('{')], BindingsTokens(keys, attrs, whole), [Punct('}')], plain);
  }

  /** The document of a value carries the tokens of the value. */
  lemma {:induction false} EncTokens(v: Expr, plain: bool)
    requires Encodable(v) && (plain ==> PlainStrings(v))
    ensures DocFor(Enc(v), Tokens(v), plain)
    decreases v
  {
    hide Lex, Enc, Tokens, DocFor, EncBinding, BindingTokens;
    match v
    case List(items) =>
      if items == [] {
        EmptyTokens(v, plain);
      } else {
        assert AllEncodable(items, plain);
        CollapseParts("[", items, "]", plain);
        var nodes := Collapse("[", items, "]").1;
        forall i | 0 <= i < |nodes|
          ensures DocFor(Enc(nodes[i]), Tokens(nodes[i]), plain)
        {
          EncTokens(nodes[i], plain);
        }
        ListDoc(items, plain);
      }
    case Attrs(attrs) =>
      if attrs == map[] {
        EmptyTokens(v, plain);
      } else {
        forall k | k in attrs
          ensures DocFor(EncBinding(k, attrs[k], v), BindingTokens(k, attrs[k], v), plain)
        {
          LeafParts(attrs[k]);
          EncTokens(Leaf(attrs[k]), plain);
          BindingDoc(k, attrs[k], v, plain);
        }
        AttrsDoc(attrs, plain);
      }
    case _ =>
      AtomTokens(v, plain);
  }

  lemma AtomTokens(v: Expr, plain: bool)
    requires !v.List? && !v.Attrs? && (plain ==> PlainStrings(v))
    ensures DocFor(Enc(v), Tokens(v), plain)
  {
    hide Lex;
    match v
    case Null =>
      LexWord("null");
    case Bool(b) =>
      LexWord(if b then "true" else "false");
    case Int(n) =>
      LexInt(n);
    case Str(s) =>
      StrDoc(s, plain);
  }

  lemma EmptyTokens(v: Expr, plain: bool)
    requires v == List([]) || v == Attrs(map[])
    ensures DocFor(Enc(v), Tokens(v), plain)
  {
    hide Lex;
    if v.List? {
      EmptyDoc("[]", '[', ']');
      assert Tokens(v) == [Punct('['), Punct(']')];
    } else {
      EmptyDoc("{}", '{', '}');
      assert SortedKeys(v.attrs.Keys) == [];
      assert Tokens(v) == [Punct('{'), Punct('}')];
    }
  }

  lemma EmptyDoc(text: string, open: char, close: char)
    requires text == [open, close] && IsPunct(open) && IsPunct(close)
    ensures DocFor(Raw(text), [Punct(open), Punct(close)], true)
  {
    hide Lex;
    LexPunct([open]);
    LexPunct([close]);
    LexConcat([open], [close], [Punct(open)], [Punct(close)]);
    assert [open] + [close] == text;
  }

  /** Only strings that end in a newline have two forms. */
  lemma NoFallBack(v: Expr, level: nat, maxwidth: int, inlined: bool)
    requires Encodable(v) && (inlined || PlainStrings(v))
    ensures !FallsBack(Enc(v), level, inlined, maxwidth)
  {
    EncTokens(v, !inlined);
    if inlined {
      LexableInlineable(Enc(v));
    } else {
      NoVariantsNoFallBack(Enc(v), level, inlined, maxwidth);
    }
  }

  /** Every printout of a value -- any indentation, any width, inline or not -- has the same
      tokens, provided that no string is printed in its indented form. */
  lemma PrintTokens(v: Expr, level: nat, maxwidth: int, inlined: bool)
    requires Encodable(v) && !FallsBack(Enc(v), level, inlined, maxwidth)
    ensures Lex(Indent(Enc(v), level, inlined, maxwidth)) == Some(Tokens(v))
  {
    EncTokens(v, false);
    LayoutKeepsTokens(Enc(v), level, inlined, maxwidth);
  }
}
