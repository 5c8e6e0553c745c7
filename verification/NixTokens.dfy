/** Tokens of the part of the Nix language that `py2nix` prints, and the proof that layout --
    indentation, width, inlining -- never changes them. */
module NixTokens {
  import opened PyStrings
  import opened NixStrings
  import opened NixLayout

  datatype Token = Id(name: string) | IntLit(value: nat) | StrLit(content: string) | Punct(c: char)

  predicate IsSpace(c: char) { c in " \n\t\r" }

  predicate IsDigit(c: char) { '0' <= c <= '9' }

  predicate IsIdStart(c: char) { 'a' <= c <= 'z' || 'A' <= c <= 'Z' || c == '_' }

  predicate IsWord(c: char) { IsIdStart(c) || IsDigit(c) || c == '\'' || c == '-' }

  predicate IsPunct(c: char) { c in "[]{}=;." }

  /** The longest prefix of word characters. */
  function WordRun(s: string): (n: nat)
    ensures n <= |s|
    ensures forall i :: 0 <= i < n ==> IsWord(s[i])
    ensures n < |s| ==> !IsWord(s[n])
  {
    if s != "" && IsWord(s[0]) then 1 + WordRun(s[1..]) else 0
  }

  /** The longest prefix of digits. */
  function DigitRun(s: string): (n: nat)
    ensures n <= |s|
    ensures forall i :: 0 <= i < n ==> IsDigit(s[i])
    ensures n < |s| ==> !IsDigit(s[n])
  {
    if s != "" && IsDigit(s[0]) then 1 + DigitRun(s[1..]) else 0
  }

  function Digit(c: char): nat
    requires IsDigit(c)
  {
    c as int - '0' as int
  }

  function DigitsValue(s: string): nat
    requires forall i :: 0 <= i < |s| ==> IsDigit(s[i])
  {
    if s == "" then 0 else 10 * DigitsValue(s[..|s| - 1]) + Digit(s[|s| - 1])
  }

  /** The first token of a text that starts with no white space, and the text after it. */
  function NextToken(s: string): (r: Option<(Token, string)>)
    requires s != ""
    ensures r.Some? ==> |r.value.1| < |s|
  {
    if s[0] == '"' then
      match ReadString(s[1..])
      case None => None
      case Some((content, rest)) => Some((StrLit(content), rest))
    else if IsIdStart(s[0]) then
      Some((Id(s[..WordRun(s)]), s[WordRun(s)..]))
    else if IsDigit(s[0]) then
      Some((IntLit(DigitsValue(s[..DigitRun(s)])), s[DigitRun(s)..]))
    else if IsPunct(s[0]) then Some((Punct(s[0]), s[1..]))
    else None
  }

  function Lex(s: string): Option<seq<Token>>
    decreases |s|
  {
    if s == "" then Some([])
    else if IsSpace(s[0]) then Lex(s[1..])
    else
      var (token, rest) :- NextToken(s);
      var tokens :- Lex(rest);
      Some([token] + tokens)
  }

  // ----- Lexing pieces separately -----

  /** No word runs across the seam of a and b. */
  ghost predicate Seam(a: string, b: string) {
    a == "" || b == "" || !IsWord(a[|a| - 1]) || !IsWord(b[0])
  }

  lemma {:induction false} ReadStringMore(a: string, b: string)
    requires ReadString(a).Some? && b != ""
    ensures ReadString(a + b) == Some((ReadString(a).value.0, ReadString(a).value.1 + b))
  {
    if a[0] == '"' {
      assert (a + b)[1..] == a[1..] + b;
    } else if a[0] == '\\' || "$$" <= a || "\r\n" <= a {
      ReadStringMore(a[2..], b);
      assert (a + b)[2..] == a[2..] + b;
      assert "$$" <= a ==> !("${" <= a + b);
    } else {
      ReadStringMore(a[1..], b);
      assert (a + b)[1..] == a[1..] + b;
      assert |a| >= 2 ==> (a + b)[..2] == a[..2];
    }
  }

  lemma {:induction false} WordRunIs(s: string, n: nat)
    requires n <= |s| && (forall i :: 0 <= i < n ==> IsWord(s[i])) && (n < |s| ==> !IsWord(s[n]))
    ensures WordRun(s) == n
  {
    if n > 0 {
      WordRunIs(s[1..], n - 1);
    }
  }

  lemma {:induction false} DigitRunIs(s: string, n: nat)
    requires n <= |s| && (forall i :: 0 <= i < n ==> IsDigit(s[i])) && (n < |s| ==> !IsDigit(s[n]))
    ensures DigitRun(s) == n
  {
    if n > 0 {
      DigitRunIs(s[1..], n - 1);
    }
  }

  lemma WordRunMore(a: string, b: string)
    requires a != "" && Seam(a, b)
    ensures WordRun(a + b) == WordRun(a)
  {
    WordRunIs(a + b, WordRun(a));
  }

  lemma DigitRunMore(a: string, b: string)
    requires a != "" && Seam(a, b)
    ensures DigitRun(a + b) == DigitRun(a)
  {
    DigitRunIs(a + b, DigitRun(a));
  }

  lemma NextTokenSuffix(a: string)
    requires a != "" && NextToken(a).Some?
    ensures var rest := NextToken(a).value.1; rest == a[|a| - |rest|..]
  {
    if a[0] == '"' {
      ReadStringSuffix(a[1..]);
    }
  }

  lemma NextTokenMore(a: string, b: string)
    requires a != "" && b != "" && Seam(a, b) && NextToken(a).Some?
    ensures NextToken(a + b) == Some((NextToken(a).value.0, NextToken(a).value.1 + b))
  {
    if a[0] == '"' {
      ReadStringMore(a[1..], b);
      assert (a + b)[1..] == a[1..] + b;
    } else if IsIdStart(a[0]) {
      WordRunMore(a, b);
      var n := WordRun(a);
      assert (a + b)[..n] == a[..n] && (a + b)[n..] == a[n..] + b;
    } else if IsDigit(a[0]) {
      DigitRunMore(a, b);
      var n := DigitRun(a);
      assert (a + b)[..n] == a[..n] && (a + b)[n..] == a[n..] + b;
    } else {
      assert (a + b)[1..] == a[1..] + b;
    }
  }

  lemma {:induction false} ReadStringSuffix(s: string)
    requires ReadString(s).Some?
    ensures var rest := ReadString(s).value.1; rest == s[|s| - |rest|..]
  {
    if s[0] == '"' {
    } else if s[0] == '\\' || "$$" <= s || "\r\n" <= s {
      ReadStringSuffix(s[2..]);
    } else {
      ReadStringSuffix(s[1..]);
    }
  }

  lemma LexToken(s: string, token: Token, rest: string, ts: seq<Token>)
    requires s != "" && !IsSpace(s[0]) && NextToken(s) == Some((token, rest)) && Lex(rest) == Some(ts)
    ensures Lex(s) == Some([token] + ts)
  {
  }

  /** Texts that lex separately lex together, if no word runs across the seam. */
  lemma {:induction false} LexConcat(a: string, b: string, ta: seq<Token>, tb: seq<Token>)
    requires Seam(a, b) && Lex(a) == Some(ta) && Lex(b) == Some(tb)
    ensures Lex(a + b) == Some(ta + tb)
    decreases |a|
  {
    hide NextToken;
    if a == "" {
      assert a + b == b && ta + tb == tb;
    } else if b == "" {
      assert a + b == a && ta + tb == ta;
    } else if IsSpace(a[0]) {
      LexConcat(a[1..], b, ta, tb);
      assert (a + b)[1..] == a[1..] + b;
    } else {
      var (token, rest) := NextToken(a).value;
      var tr := Lex(rest).value;
      SeamRest(a, b);
      LexConcat(rest, b, tr, tb);
      LexConcatToken(a, b, token, rest, tr + tb);
      assert [token] + (tr + tb) == [token] + tr + tb;
    }
  }

  lemma SeamRest(a: string, b: string)
    requires a != "" && Seam(a, b) && NextToken(a).Some?
    ensures Seam(NextToken(a).value.1, b)
  {
    NextTokenSuffix(a);
  }

  lemma LexConcatToken(a: string, b: string, token: Token, rest: string, ts: seq<Token>)
    requires a != "" && b != "" && Seam(a, b) && !IsSpace(a[0]) && NextToken(a) == Some((token, rest))
    requires Lex(rest + b) == Some(ts)
    ensures Lex(a + b) == Some([token] + ts)
  {
    NextTokenMore(a, b);
    LexToken(a + b, token, rest + b, ts);
  }

  lemma {:induction false} LexBlank(w: string, b: string)
    requires forall i :: 0 <= i < |w| ==> IsSpace(w[i])
    ensures Lex(w + b) == Lex(b)
  {
    if w == "" {
      assert w + b == b;
    } else {
      assert (w + b)[1..] == w[1..] + b;
      LexBlank(w[1..], b);
    }
  }

  /** a, then one white-space character, then b. */
  lemma LexSeparated(a: string, sep: string, b: string, ta: seq<Token>, tb: seq<Token>)
    requires |sep| == 1 && IsSpace(sep[0]) && Lex(a) == Some(ta) && Lex(b) == Some(tb)
    ensures Lex(a + (sep + b)) == Some(ta + tb)
  {
    LexBlank(sep, b);
    LexConcat(a, sep + b, ta, tb);
  }

  // ----- Layout keeps tokens -----

  /** The text that carries a container's tokens when it is printed inline. */
  ghost predicate Lexable(d: Doc) {
    match d
    case Raw(value) => Lex(value).Some?
    case MultiLine(_) => false
    case Container(prefix, children, suffix, variant) =>
      if variant.Some? then Lex(variant.value).Some? && IsInlineable(d)
      else Lex(prefix).Some? && Lex(suffix).Some? && forall c :: c in children ==> Lexable(c)
  }

  /** The tokens of a document, with no regard to layout. */
  ghost function DocTokens(d: Doc): seq<Token>
    requires Lexable(d)
    decreases d, 1
  {
    match d
    case Raw(value) => Lex(value).value
    case Container(prefix, children, suffix, variant) =>
      if variant.Some? then Lex(variant.value).value
      else Lex(prefix).value + DocsTokens(children) + Lex(suffix).value
  }

  ghost function DocsTokens(ds: seq<Doc>): seq<Token>
    requires forall d :: d in ds ==> Lexable(d)
    decreases ds, 0
  {
    if ds == [] then [] else DocTokens(ds[0]) + DocsTokens(ds[1..])
  }

  lemma {:induction false} LexableInlineable(d: Doc)
    requires Lexable(d)
    ensures IsInlineable(d)
    decreases d
  {
    if d.Container? && d.variant.None? {
      forall c | c in d.children
        ensures IsInlineable(c)
      {
        LexableInlineable(c);
      }
    }
  }

  /** Whatever the level, width and inline flag, the printed text has the document's tokens,
      provided that no container falls back from its inline variant. */
  lemma {:induction false} LayoutKeepsTokens(d: Doc, level: nat, inlined: bool, maxwidth: int)
    requires Lexable(d) && !FallsBack(d, level, inlined, maxwidth)
    ensures Lex(Indent(d, level, inlined, maxwidth)) == Some(DocTokens(d))
    decreases d, 1
  {
    hide Lex;
    var ind := Spaces(2 * level);
    match d
    case Raw(value) =>
      LexBlank(ind, value);
    case Container(prefix, children, suffix, variant) =>
      LexableInlineable(d);
      var inl := inlined || 2 * level + MinLength(d) < maxwidth;
      if variant.Some? {
        LexBlank(ind, variant.value);
      } else if inl {
        LayoutsKeepTokens(children, 0, true, 80, " ");
        FrameLayout(d, ind, " ", Join(" ", Indents(children, 0, true, 80)), "");
        assert Indent(d, level, inlined, maxwidth) == ind + prefix + " " + Join(" ", Indents(children, 0, true, 80)) + " " + suffix;
      } else {
        LayoutsKeepTokens(children, level + 1, false, maxwidth, "\n");
        FrameLayout(d, ind, "\n", Join("\n", Indents(children, level + 1, false, maxwidth)), ind);
      }
  }

  /** A container around a laid-out body. */
  lemma FrameLayout(d: Doc, ind: string, sep: string, body: string, ind2: string)
    requires d.Container? && d.variant.None? && Lexable(d)
    requires |sep| == 1 && IsSpace(sep[0]) && (ind2 == "" || ind2 == ind)
    requires forall i :: 0 <= i < |ind| ==> IsSpace(ind[i])
    requires Lex(body) == Some(DocsTokens(d.children))
    ensures Lex(ind + d.prefix + sep + body + sep + ind2 + d.suffix) == Some(DocTokens(d))
    ensures ind2 == "" ==> Lex(ind + d.prefix + sep + body + sep + d.suffix) == Some(DocTokens(d))
  {
    hide Lex;
    LexBlank(ind2, d.suffix);
    FrameTokens(ind, d.prefix, sep, body, ind2 + d.suffix, Lex(d.prefix).value, DocsTokens(d.children), Lex(d.suffix).value);
    FrameText(ind, d.prefix, sep, body, ind2, d.suffix);
  }

  lemma FrameText(ind: string, prefix: string, sep: string, body: string, ind2: string, suffix: string)
    ensures ind + prefix + sep + body + sep + ind2 + suffix == ind + (prefix + (sep + (body + (sep + (ind2 + suffix)))))
    ensures ind2 == "" ==>
              ind + prefix + sep + body + sep + suffix == ind + prefix + sep + body + sep + ind2 + suffix
  {
  }

  lemma FrameTokens(ind: string, prefix: string, sep: string, body: string, suffix: string,
                    tp: seq<Token>, tb: seq<Token>, ts: seq<Token>)
    requires |sep| == 1 && IsSpace(sep[0])
    requires forall i :: 0 <= i < |ind| ==> IsSpace(ind[i])
    requires Lex(prefix) == Some(tp) && Lex(body) == Some(tb) && Lex(suffix) == Some(ts)
    ensures Lex(ind + (prefix + (sep + (body + (sep + suffix))))) == Some(tp + tb + ts)
  {
    assert tp + (tb + ts) == tp + tb + ts;
    LexSeparated(body, sep, suffix, tb, ts);
    LexSeparated(prefix, sep, body + (sep + suffix), tp, tb + ts);
    LexBlank(ind, prefix + (sep + (body + (sep + suffix))));
  }

  lemma {:induction false} LayoutsKeepTokens(ds: seq<Doc>, level: nat, inlined: bool, maxwidth: int, sep: string)
    requires |sep| == 1 && IsSpace(sep[0])
    requires forall d :: d in ds ==> Lexable(d) && !FallsBack(d, level, inlined, maxwidth)
    ensures Lex(Join(sep, Indents(ds, level, inlined, maxwidth))) == Some(DocsTokens(ds))
    decreases ds, 0
  {
    if ds != [] {
      assert ds[0] in ds && forall d :: d in ds[1..] ==> d in ds;
      LayoutKeepsTokens(ds[0], level, inlined, maxwidth);
      LayoutsKeepTokens(ds[1..], level, inlined, maxwidth, sep);
      JoinTokens(Indent(ds[0], level, inlined, maxwidth), Indents(ds[1..], level, inlined, maxwidth), sep,
                 DocTokens(ds[0]), DocsTokens(ds[1..]));
    } else {
      assert Lex("") == Some([]);
    }
  }

  lemma JoinTokens(text: string, texts: seq<string>, sep: string, ts: seq<Token>, rest: seq<Token>)
    requires |sep| == 1 && IsSpace(sep[0])
    requires Lex(text) == Some(ts) && Lex(Join(sep, texts)) == Some(rest) && (texts == [] ==> rest == [])
    ensures Lex(Join(sep, [text] + texts)) == Some(ts + rest)
  {
    hide Lex;
    if texts == [] {
      assert [text] + texts == [text] && ts + rest == ts;
    } else {
      LexSeparated(text, sep, Join(sep, texts), ts, rest);
      assert ([text] + texts)[1..] == texts;
      assert text + sep + Join(sep, texts) == text + (sep + Join(sep, texts));
    }
  }
}
