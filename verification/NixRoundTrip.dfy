/** Reading what `py2nix` prints: the token parser computes ReadBack, and ReadBack is the identity
    on exactly the readable values. */
module NixRoundTrip {
  import opened PyStrings
  import opened NixStrings
  import opened NixLayout
  import opened NixTokens
  import opened NixPrint
  import opened NixEncoding
  import opened NixParse

  // ----- Paths -----

  ghost predicate PathOk(k: string, v: Expr)
    decreases v
  {
    !IsKeyword(k) && (Single(v) ==> PathOk(OnlyKey(v.attrs), v.attrs[OnlyKey(v.attrs)]))
  }

  ghost function PathKeys(k: string, v: Expr): (path: seq<string>)
    ensures path != [] && path[0] == NormCR(k)
    decreases v
  {
    [NormCR(k)] + (if Single(v) then PathKeys(OnlyKey(v.attrs), v.attrs[OnlyKey(v.attrs)]) else [])
  }

  lemma KeywordsAreSimple(k: string)
    requires IsKeyword(k)
    ensures SimpleKey(k)
  {
    assert k in ["if", "then", "else", "assert", "with", "let", "in", "rec", "inherit"];
  }

  lemma KeyTokenReads(k: string)
    ensures KeyToken(k).Id? ==> KeyToken(k).name == NormCR(k) && (KeyToken(k).name in KEYWORDS <==> IsKeyword(k))
    ensures !KeyToken(k).Id? ==> KeyToken(k) == StrLit(NormCR(k)) && !IsKeyword(k)
  {
    if SimpleKey(k) {
      NormFixed(k);
      assert '\r' !in k;
    } else if IsKeyword(k) {
      KeywordsAreSimple(k);
    }
  }

  lemma {:induction false} ParsePathTokens(k: string, v: Expr, more: seq<Token>)
    requires more != [] && more[0] != Punct('.')
    ensures ParsePath([KeyToken(k)] + PathRest(v) + more) ==
            if PathOk(k, v) then Some((PathKeys(k, v), more)) else None
    decreases v
  {
    hide KeyToken, NormCR, OnlyKey;
    KeyTokenReads(k);
    var ts := [KeyToken(k)] + PathRest(v) + more;
    if Single(v) {
      var k2 := OnlyKey(v.attrs);
      assert ts[1] == Punct('.');
      assert ts[2..] == [KeyToken(k2)] + PathRest(v.attrs[k2]) + more;
      ParsePathTokens(k2, v.attrs[k2], more);
    } else {
      assert ts == [KeyToken(k)] + more;
      assert ts[0] == KeyToken(k) && ts[1] == more[0] && ts[1..] == more;
      assert PathKeys(k, v) == [NormCR(k)];
    }
  }

  /** A dotted path reads as the nested sets it abbreviates. */
  lemma {:induction false} ReadAttrIsNest(k: string, v: Expr)
    ensures ReadAttr(k, v) ==
            if !PathOk(k, v) || ReadBack(Leaf(v), false).None? then None
            else Some(Nest(PathKeys(k, v)[1..], ReadBack(Leaf(v), false).value))
    decreases v
  {
    hide ReadBack, NormCR, OnlyKey;
    if Single(v) {
      var k2 := OnlyKey(v.attrs);
      ReadAttrIsNest(k2, v.attrs[k2]);
      assert PathKeys(k, v)[1..] == PathKeys(k2, v.attrs[k2]);
    } else {
      assert PathKeys(k, v)[1..] == [];
    }
  }

  // ----- Parsing tokens -----

  lemma FirstToken(v: Expr)
    ensures Tokens(v) != [] && Tokens(v)[0] !in [Punct(']'), Punct('}'), Punct(';'), Punct('='), Punct('.')]
    ensures Tokens(v)[0] == Id("builtins") <==> v.Int? && v.n < 0
  {
  }

  lemma {:induction false} ParseSimpleTokens(v: Expr, rest: seq<Token>)
    ensures ParseSimple(Tokens(v) + rest) == Then(ReadBack(v, true), rest)
    decreases v, 2
  {
    hide NormCR, ParseItems, ParseBindings, ReadItems, ReadAttrs, ItemsTokens, BindingsTokens, SortedKeys;
    var ts := Tokens(v) + rest;
    match v
    case Null =>
      assert ts[1..] == rest;
    case Bool(b) =>
      assert ts[1..] == rest;
    case Int(n) =>
      if n >= 0 {
        assert ts[1..] == rest;
      }
    case Str(s) =>
      assert ts[1..] == rest;
    case List(items) =>
      ParseItemsTokens(items, rest);
      assert ts == [Punct('[')] + (ItemsTokens(items) + ([Punct(']')] + rest));
      assert ts[1..] == ItemsTokens(items) + ([Punct(']')] + rest);
    case Attrs(attrs) =>
      var keys := SortedKeys(attrs.Keys);
      ParseBindingsTokens(keys, attrs, v, map[], rest);
      assert ts == [Punct('{')] + (BindingsTokens(keys, attrs, v) + ([Punct('}')] + rest));
      assert ts[1..] == BindingsTokens(keys, attrs, v) + ([Punct('}')] + rest);
  }

  lemma {:induction false} ParseExprTokens(v: Expr, rest: seq<Token>)
    ensures ParseExpr(Tokens(v) + rest) == Then(ReadBack(v, false), rest)
    decreases v, 3
  {
    var ts := Tokens(v) + rest;
    FirstToken(v);
    assert ts[0] == Tokens(v)[0];
    if v.Int? && v.n < 0 {
      assert ts[1] == Punct('.') && ts[2] == Id("sub") && ts[3] == IntLit(0) && ts[4] == IntLit(-v.n);
      assert ts[5..] == rest;
    } else {
      ParseSimpleTokens(v, rest);
      assert ReadBack(v, true) == ReadBack(v, false);
    }
  }

  lemma {:induction false} ParseItemsTokens(items: seq<Expr>, rest: seq<Token>)
    ensures ParseItems(ItemsTokens(items) + ([Punct(']')] + rest)) == Then(ReadItems(items), rest)
    decreases items, 0
  {
    hide Tokens, ReadBack, ParseSimple;
    if items == [] {
      assert ItemsTokens(items) + ([Punct(']')] + rest) == [Punct(']')] + rest;
    } else {
      var more := ItemsTokens(items[1..]) + ([Punct(']')] + rest);
      var ts := Tokens(items[0]) + more;
      assert ItemsTokens(items) + ([Punct(']')] + rest) == ts;
      FirstToken(items[0]);
      assert ts[0] == Tokens(items[0])[0];
      ParseSimpleTokens(items[0], more);
      ParseItemsTokens(items[1..], rest);
    }
  }

  lemma {:induction false} ParseBindingsTokens(keys: seq<string>, attrs: map<string, Expr>, whole: Expr,
                                               acc: map<string, Expr>, rest: seq<Token>)
    requires forall k :: k in keys ==> k in attrs
    requires forall k :: k in attrs ==> attrs[k] < whole
    ensures ParseBindings(BindingsTokens(keys, attrs, whole) + ([Punct('}')] + rest), acc) ==
            Then(ReadAttrs(keys, attrs, whole, acc), rest)
    decreases whole, 1, |keys|
  {
    hide Tokens, ReadBack, ParseExpr, ParsePath, Nest, NormCR, KeyToken, BindingTokens;
    if keys == [] {
      assert BindingsTokens(keys, attrs, whole) + ([Punct('}')] + rest) == [Punct('}')] + rest;
    } else {
      var k := keys[0];
      var more := BindingsTokens(keys[1..], attrs, whole) + ([Punct('}')] + rest);
      var ts := BindingTokens(k, attrs[k], whole) + more;
      assert BindingsTokens(keys, attrs, whole) + ([Punct('}')] + rest) == ts;
      ParseExprTokens(Leaf(attrs[k]), [Punct(';')] + more);
      ParseOneBinding(k, attrs[k], whole, acc, more);
      if ReadAttr(k, attrs[k]).Some? && NormCR(k) !in acc {
        ParseBindingsTokens(keys[1..], attrs, whole, acc[NormCR(k) := ReadAttr(k, attrs[k]).value], rest);
      }
    }
  }

  lemma ParseOneBinding(k: string, v: Expr, whole: Expr, acc: map<string, Expr>, more: seq<Token>)
    requires v < whole
    requires ParseExpr(Tokens(Leaf(v)) + ([Punct(';')] + more)) == Then(ReadBack(Leaf(v), false), [Punct(';')] + more)
    ensures ParseBindings(BindingTokens(k, v, whole) + more, acc) ==
            if ReadAttr(k, v).None? || NormCR(k) in acc then None
            else ParseBindings(more, acc[NormCR(k) := ReadAttr(k, v).value])
  {
    hide Tokens, ReadBack, ParseExpr, ParsePath, Nest, NormCR, KeyToken, PathOk, PathKeys, ReadAttr;
    var after := [Punct('=')] + (Tokens(Leaf(v)) + ([Punct(';')] + more));
    var ts := BindingTokens(k, v, whole) + more;
    assert ts == [KeyToken(k)] + PathRest(v) + after;
    KeyTokenNoBrace(k);
    assert ts[0] == KeyToken(k);
    ParsePathTokens(k, v, after);
    ReadAttrIsNest(k, v);
    assert after[1..] == Tokens(Leaf(v)) + ([Punct(';')] + more);
    assert ([Punct(';')] + more)[1..] == more;
  }

  lemma KeyTokenNoBrace(k: string)
    ensures !KeyToken(k).Punct?
  {
  }

  // ----- Exactly the readable values survive -----

  /** No integer out of Nix's range or negative in a list, no carriage return, and no attribute
      named by a reserved word. */
  predicate Readable(v: Expr, inList: bool)
    decreases v
  {
    match v
    case Null => true
    case Bool(_) => true
    case Int(n) => -MAX_INT <= n <= MAX_INT && (inList ==> n >= 0)
    case Str(s) => '\r' !in s
    case List(items) => forall i :: 0 <= i < |items| ==> Readable(items[i], true)
    case Attrs(attrs) => forall k :: k in attrs ==> '\r' !in k && !IsKeyword(k) && Readable(attrs[k], false)
  }

  ghost predicate Survives(v: Expr, inList: bool) { ReadBack(v, inList) == Some(v) }

  lemma {:induction false} SurvivesIffReadable(v: Expr, inList: bool)
    ensures Survives(v, inList) <==> Readable(v, inList)
    decreases v, 2
  {
    match v
    case Null =>
    case Bool(_) =>
    case Int(n) =>
    case Str(s) =>
      NormFixed(s);
    case List(items) =>
      ItemsSurvive(items);
    case Attrs(attrs) =>
      var keys := SortedKeys(attrs.Keys);
      forall k | k in attrs
        ensures ReadAttr(k, attrs[k]) == Some(attrs[k]) <==> !IsKeyword(k) && Readable(attrs[k], false)
      {
        AttrSurvives(k, attrs[k]);
      }
      AttrsSurvive(keys, attrs, v);
  }

  lemma {:induction false} ItemsSurvive(items: seq<Expr>)
    ensures ReadItems(items) == Some(items) <==> forall i :: 0 <= i < |items| ==> Readable(items[i], true)
    decreases items, 0
  {
    hide ReadBack, Readable;
    if items != [] {
      assert items == [items[0]] + items[1..];
      SurvivesIffReadable(items[0], true);
      ItemsSurvive(items[1..]);
    }
  }

  lemma {:induction false} AttrSurvives(k: string, v: Expr)
    ensures ReadAttr(k, v) == Some(v) <==> !IsKeyword(k) && Readable(v, false)
    decreases v, 3
  {
    hide NormCR, ReadBack, OnlyKey, IsKeyword;
    if Single(v) {
      var k2 := OnlyKey(v.attrs);
      AttrSurvives(k2, v.attrs[k2]);
      NormFixed(k2);
      assert v.attrs == map[k2 := v.attrs[k2]];
      assert Readable(v, false) <==> '\r' !in k2 && !IsKeyword(k2) && Readable(v.attrs[k2], false);
      if ReadAttr(k2, v.attrs[k2]).Some? {
        SingleEqual(NormCR(k2), ReadAttr(k2, v.attrs[k2]).value, k2, v.attrs[k2]);
      }
    } else {
      SurvivesIffReadable(v, false);
    }
  }

  lemma SingleEqual(k: string, v: Expr, k2: string, v2: Expr)
    ensures map[k := v] == map[k2 := v2] <==> k == k2 && v == v2
  {
    if map[k := v] == map[k2 := v2] {
      assert k in map[k2 := v2];
      assert map[k := v][k] == v;
    }
  }

  ghost predicate NormOf(keys: seq<string>, x: string) {
    exists k :: k in keys && NormCR(k) == x
  }

  /** What ReadAttrs accumulates. */
  lemma {:induction false} ReadAttrsContents(keys: seq<string>, attrs: map<string, Expr>, whole: Expr, acc: map<string, Expr>)
    requires forall k :: k in keys ==> k in attrs
    requires forall k :: k in attrs ==> attrs[k] < whole
    ensures ReadAttrs(keys, attrs, whole, acc).Some? ==>
              var read := ReadAttrs(keys, attrs, whole, acc).value;
              && (forall x :: x in read ==> x in acc || NormOf(keys, x))
              && (forall x :: x in acc ==> x in read && read[x] == acc[x])
              && (forall k :: k in keys ==> NormCR(k) in read && ReadAttr(k, attrs[k]) == Some(read[NormCR(k)]))
    decreases |keys|
  {
    hide ReadAttr, NormCR;
    if keys != [] && ReadAttrs(keys, attrs, whole, acc).Some? {
      var k := keys[0];
      var acc' := acc[NormCR(k) := ReadAttr(k, attrs[k]).value];
      ReadAttrsContents(keys[1..], attrs, whole, acc');
      assert keys == [k] + keys[1..];
      var read := ReadAttrs(keys, attrs, whole, acc).value;
      forall x | x in read
        ensures x in acc || NormOf(keys, x)
      {
        assert x in acc' || NormOf(keys[1..], x);
        assert x == NormCR(k) ==> k in keys;
      }
    }
  }

  lemma {:induction false} ReadAttrsDefined(keys: seq<string>, attrs: map<string, Expr>, whole: Expr, acc: map<string, Expr>)
    requires forall k :: k in keys ==> k in attrs
    requires forall k :: k in attrs ==> attrs[k] < whole
    requires forall i, j :: 0 <= i < j < |keys| ==> keys[i] != keys[j]
    requires forall k :: k in keys ==> NormCR(k) == k && k !in acc && ReadAttr(k, attrs[k]).Some?
    ensures ReadAttrs(keys, attrs, whole, acc).Some?
    decreases |keys|
  {
    hide ReadAttr, NormCR;
    if keys != [] {
      var k := keys[0];
      ReadAttrsDefined(keys[1..], attrs, whole, acc[NormCR(k) := ReadAttr(k, attrs[k]).value]);
    }
  }

  lemma AttrsSurvive(keys: seq<string>, attrs: map<string, Expr>, whole: Expr)
    requires keys == SortedKeys(attrs.Keys)
    requires forall k :: k in attrs ==> attrs[k] < whole
    requires forall k :: k in attrs ==>
               (ReadAttr(k, attrs[k]) == Some(attrs[k]) <==> !IsKeyword(k) && Readable(attrs[k], false))
    ensures ReadAttrs(keys, attrs, whole, map[]) == Some(attrs) <==>
            forall k :: k in attrs ==> '\r' !in k && !IsKeyword(k) && Readable(attrs[k], false)
  {
    hide ReadAttr, NormCR, Readable, SortedKeys, ReadAttrs, IsKeyword;
    if forall k :: k in attrs ==> '\r' !in k && !IsKeyword(k) && Readable(attrs[k], false) {
      CleanAttrsRead(keys, attrs, whole);
    }
    if ReadAttrs(keys, attrs, whole, map[]) == Some(attrs) {
      ReadAttrsClean(keys, attrs, whole);
    }
  }

  lemma CleanAttrsRead(keys: seq<string>, attrs: map<string, Expr>, whole: Expr)
    requires keys == SortedKeys(attrs.Keys)
    requires forall k :: k in attrs ==> attrs[k] < whole
    requires forall k :: k in attrs ==> '\r' !in k && ReadAttr(k, attrs[k]) == Some(attrs[k])
    ensures ReadAttrs(keys, attrs, whole, map[]) == Some(attrs)
  {
    hide ReadAttr, NormCR, SortedKeys, ReadAttrs, NormOf;
    forall k | k in keys
      ensures NormCR(k) == k
    {
      NormFixed(k);
    }
    ReadAttrsDefined(keys, attrs, whole, map[]);
    ReadAttrsContents(keys, attrs, whole, map[]);
    var read := ReadAttrs(keys, attrs, whole, map[]).value;
    forall x | x in read
      ensures x in attrs
    {
      NormOfFixed(keys, x);
    }
    SameMap(read, attrs);
  }

  lemma NormOfFixed(keys: seq<string>, x: string)
    requires NormOf(keys, x) && forall k :: k in keys ==> NormCR(k) == k
    ensures x in keys
  {
    hide NormCR;
  }

  lemma SameMap(a: map<string, Expr>, b: map<string, Expr>)
    requires (forall x :: x in a ==> x in b) && forall x :: x in b ==> x in a && a[x] == b[x]
    ensures a == b
  {
  }

  /** The entries of ReadAttrs at one attribute. */
  lemma ReadAttrsAt(keys: seq<string>, attrs: map<string, Expr>, whole: Expr, read: map<string, Expr>, k: string)
    requires forall k :: k in keys ==> k in attrs
    requires forall k :: k in attrs ==> attrs[k] < whole
    requires ReadAttrs(keys, attrs, whole, map[]) == Some(read)
    ensures k in read ==> NormOf(keys, k)
    ensures k in keys ==> NormCR(k) in read && ReadAttr(k, attrs[k]) == Some(read[NormCR(k)])
  {
    hide ReadAttr, NormCR, ReadAttrs, NormOf;
    ReadAttrsContents(keys, attrs, whole, map[]);
  }

  lemma ReadAttrsClean(keys: seq<string>, attrs: map<string, Expr>, whole: Expr)
    requires keys == SortedKeys(attrs.Keys)
    requires forall k :: k in attrs ==> attrs[k] < whole
    requires ReadAttrs(keys, attrs, whole, map[]) == Some(attrs)
    ensures forall k :: k in attrs ==> '\r' !in k && ReadAttr(k, attrs[k]) == Some(attrs[k])
  {
    hide ReadAttr, NormCR, SortedKeys, ReadAttrs, NormOf;
    forall k | k in attrs
      ensures '\r' !in k && ReadAttr(k, attrs[k]) == Some(attrs[k])
    {
      ReadAttrsAt(keys, attrs, whole, attrs, k);
      NormedKey(keys, k);
    }
  }

  lemma NormedKey(keys: seq<string>, k: string)
    requires NormOf(keys, k)
    ensures '\r' !in k && NormCR(k) == k
  {
    var j :| j in keys && NormCR(j) == k;
    NormFixed(j);
    NormFixed(k);
  }

  // ----- The theorem on texts -----

  /** Reading any printout of v gives ReadBack(v): no indentation, width or inline flag matters. */
  lemma PrintThenParse(v: Expr, level: nat, maxwidth: int, inlined: bool)
    requires Encodable(v) && !FallsBack(Enc(v), level, inlined, maxwidth)
    ensures Parse(Indent(Enc(v), level, inlined, maxwidth)) == ReadBack(v, false)
  {
    hide Lex, Enc, Tokens, Indent, ReadBack, ParseExpr, FallsBack;
    PrintTokens(v, level, maxwidth, inlined);
    ParseExprTokens(v, []);
    assert Tokens(v) + [] == Tokens(v);
  }

  /** A printed value reads back as itself if and only if it is readable. */
  lemma RoundTrip(v: Expr, level: nat, maxwidth: int, inlined: bool)
    requires Encodable(v) && !FallsBack(Enc(v), level, inlined, maxwidth)
    ensures Parse(Indent(Enc(v), level, inlined, maxwidth)) == Some(v) <==> Readable(v, false)
  {
    PrintThenParse(v, level, maxwidth, inlined);
    SurvivesIffReadable(v, false);
  }
}
