/** Escaping of strings by `py2nix`, and the reader of Nix double-quoted strings ("String
    literals" in the Nix Reference Manual). */
module NixStrings {
  import opened PyStrings
  import opened Seqs

  datatype Rule = Rule(pat: string, rep: string)

  /** `_fold_string`: the rules applied one after the other to the whole string. */
  function FoldString(s: string, rules: seq<Rule>): string
    requires forall r :: r in rules ==> |r.pat| > 0
    decreases |rules|
  {
    if rules == [] then s else FoldString(Replace(s, rules[0].pat, rules[0].rep), rules[1..])
  }

  const BACKSLASH: Rule := Rule("\\", "\\\\")
  const ANTIQUOTE: Rule := Rule("${", "\\${")
  const QUOTE: Rule := Rule("\"", "\\\"")
  const NEWLINE: Rule := Rule("\n", "\\n")
  const TAB: Rule := Rule("\t", "\\t")

  function EncodeString(s: string): string {
    FoldString(s, [BACKSLASH, ANTIQUOTE, QUOTE, NEWLINE, TAB])
  }

  /** One pass over the string; the flags switch on the last three rules. */
  function EscapeWith(s: string, quote: bool, newline: bool, tab: bool): string {
    if s == "" then ""
    else if s[0] == '\\' then "\\\\" + EscapeWith(s[1..], quote, newline, tab)
    else if "${" <= s then "\\${" + EscapeWith(s[2..], quote, newline, tab)
    else if s[0] == '"' && quote then "\\\"" + EscapeWith(s[1..], quote, newline, tab)
    else if s[0] == '\n' && newline then "\\n" + EscapeWith(s[1..], quote, newline, tab)
    else if s[0] == '\t' && tab then "\\t" + EscapeWith(s[1..], quote, newline, tab)
    else [s[0]] + EscapeWith(s[1..], quote, newline, tab)
  }

  function Escape(s: string): string {
    EscapeWith(s, true, true, true)
  }

  lemma {:induction false} ReplaceCharConcat(a: string, b: string, c: char, rep: string)
    ensures Replace(a + b, [c], rep) == Replace(a, [c], rep) + Replace(b, [c], rep)
  {
    if a == "" {
      assert a + b == b && Replace("", [c], rep) == "";
    } else {
      hide Replace;
      ReplaceCharConcat(a[1..], b, c, rep);
      ReplaceCharHead(a, c, rep);
      ReplaceCharHead(a + b, c, rep);
      assert (a + b)[1..] == a[1..] + b;
      AddAssoc(if a[0] == c then rep else [a[0]], Replace(a[1..], [c], rep), Replace(b, [c], rep));
    }
  }

  /** The first pass, character by character. */
  lemma {:induction false} ReplaceCharHead(s: string, c: char, rep: string)
    requires s != ""
    ensures Replace(s, [c], rep) == (if s[0] == c then rep else [s[0]]) + Replace(s[1..], [c], rep)
  {
    assert s[..1] == [s[0]];
  }

  lemma {:induction false} ReplaceCharFirst(s: string, c: char, rep: string)
    requires rep != "" && rep[0] == c
    ensures s == "" ==> Replace(s, [c], rep) == ""
    ensures s != "" ==> Replace(s, [c], rep) != "" && Replace(s, [c], rep)[0] == s[0]
  {
  }

  lemma {:induction false} TwoPasses(s: string)
    ensures Replace(Replace(s, "\\", "\\\\"), "${", "\\${") == EscapeWith(s, false, false, false)
  {
    if s != "" {
      hide Replace;
      var t := s[1..];
      var rest := Replace(t, "\\", "\\\\");
      ReplaceCharHead(s, '\\', "\\\\");
      TwoPasses(t);
      if s[0] == '\\' {
        BackslashesStay("\\\\" + rest, rest);
      } else if "${" <= s {
        var u := s[2..];
        TwoPasses(u);
        ReplaceCharHead(t, '\\', "\\\\");
        assert t[1..] == u && t[0] == '{';
        var rest2 := Replace(u, "\\", "\\\\");
        assert "$" + ("{" + rest2) == "${" + rest2;
        AntiquoteEscaped(rest2);
      } else {
        ReplaceCharFirst(t, '\\', "\\\\");
        OtherStays(s, t, rest);
      }
    }
  }

  lemma AntiquoteEscaped(rest: string)
    ensures Replace("${" + rest, "${", "\\${") == "\\${" + Replace(rest, "${", "\\${")
  {
    var text := "${" + rest;
    assert text[..2] == "${" && text[2..] == rest;
  }

  lemma OtherStays(s: string, t: string, rest: string)
    requires s != "" && t == s[1..] && !("${" <= s)
    requires (rest == "" <==> t == "") && (t != "" && t[0] != '\\' ==> rest[0] == t[0]) && (t != "" && t[0] == '\\' ==> rest[0] == '\\')
    ensures Replace([s[0]] + rest, "${", "\\${") == [s[0]] + Replace(rest, "${", "\\${")
  {
    var text := [s[0]] + rest;
    assert text[1..] == rest;
    if rest != "" {
      assert text[..2] == [s[0], rest[0]];
      assert s[..2] == [s[0], t[0]];
    }
  }

  lemma BackslashesStay(once: string, rest: string)
    requires once == "\\\\" + rest
    ensures Replace(once, "${", "\\${") == "\\\\" + Replace(rest, "${", "\\${")
  {
    assert once[1..] == "\\" + rest && once[1..][1..] == rest;
    assert once[..2] != "${";
    assert |once[1..]| >= 2 ==> once[1..][..2] != "${";
    assert Replace(once, "${", "\\${") == "\\" + Replace(once[1..], "${", "\\${");
  }

  lemma {:induction false} QuotePass(s: string)
    ensures Replace(EscapeWith(s, false, false, false), "\"", "\\\"") == EscapeWith(s, true, false, false)
  {
    if s != "" {
      QuotePass(s[1..]);
      if "${" <= s {
        QuotePass(s[2..]);
        ReplaceCharConcat("\\${", EscapeWith(s[2..], false, false, false), '"', "\\\"");
        NoMatch("\\${", '"', "\\\"");
      } else if s[0] == '\\' {
        ReplaceCharConcat("\\\\", EscapeWith(s[1..], false, false, false), '"', "\\\"");
        NoMatch("\\\\", '"', "\\\"");
      } else {
        ReplaceCharConcat([s[0]], EscapeWith(s[1..], false, false, false), '"', "\\\"");
      }
    }
  }

  lemma {:induction false} NewlinePass(s: string)
    ensures Replace(EscapeWith(s, true, false, false), "\n", "\\n") == EscapeWith(s, true, true, false)
  {
    if s != "" {
      NewlinePass(s[1..]);
      if "${" <= s {
        NewlinePass(s[2..]);
        ReplaceCharConcat("\\${", EscapeWith(s[2..], true, false, false), '\n', "\\n");
        NoMatch("\\${", '\n', "\\n");
      } else if s[0] == '\\' {
        ReplaceCharConcat("\\\\", EscapeWith(s[1..], true, false, false), '\n', "\\n");
        NoMatch("\\\\", '\n', "\\n");
      } else if s[0] == '"' {
        ReplaceCharConcat("\\\"", EscapeWith(s[1..], true, false, false), '\n', "\\n");
        NoMatch("\\\"", '\n', "\\n");
      } else {
        ReplaceCharConcat([s[0]], EscapeWith(s[1..], true, false, false), '\n', "\\n");
      }
    }
  }

  lemma {:induction false} TabPass(s: string)
    ensures Replace(EscapeWith(s, true, true, false), "\t", "\\t") == EscapeWith(s, true, true, true)
  {
    if s != "" {
      TabPass(s[1..]);
      if "${" <= s {
        TabPass(s[2..]);
        ReplaceCharConcat("\\${", EscapeWith(s[2..], true, true, false), '\t', "\\t");
        NoMatch("\\${", '\t', "\\t");
      } else if s[0] == '\\' || s[0] == '"' || s[0] == '\n' {
        var e := if s[0] == '\\' then "\\\\" else if s[0] == '"' then "\\\"" else "\\n";
        ReplaceCharConcat(e, EscapeWith(s[1..], true, true, false), '\t', "\\t");
        NoMatch(e, '\t', "\\t");
      } else {
        ReplaceCharConcat([s[0]], EscapeWith(s[1..], true, true, false), '\t', "\\t");
      }
    }
  }

  lemma {:induction false} NoMatch(s: string, c: char, rep: string)
    requires c !in s
    ensures Replace(s, [c], rep) == s
  {
    if s != "" {
      NoMatch(s[1..], c, rep);
      ReplaceCharHead(s, c, rep);
    }
  }

  /** The five passes of `_enc_str` are one left-to-right pass, although the escapes that one
      pass inserts are scanned again by the next. */
  lemma FivePassesAreOne(s: string)
    ensures EncodeString(s) == Escape(s)
  {
    TwoPasses(s);
    QuotePass(s);
    NewlinePass(s);
    TabPass(s);
    FoldFirst(s, BACKSLASH, [ANTIQUOTE, QUOTE, NEWLINE, TAB]);
    var s1 := Replace(s, "\\", "\\\\");
    FoldFirst(s1, ANTIQUOTE, [QUOTE, NEWLINE, TAB]);
    var s2 := Replace(s1, "${", "\\${");
    FoldFirst(s2, QUOTE, [NEWLINE, TAB]);
    var s3 := Replace(s2, "\"", "\\\"");
    FoldFirst(s3, NEWLINE, [TAB]);
    FoldFirst(Replace(s3, "\n", "\\n"), TAB, []);
  }

  lemma FoldFirst(s: string, r: Rule, rules: seq<Rule>)
    requires |r.pat| > 0 && forall q :: q in rules ==> |q.pat| > 0
    ensures forall q :: q in [r] + rules ==> |q.pat| > 0
    ensures FoldString(s, [r] + rules) == FoldString(Replace(s, r.pat, r.rep), rules)
  {
    assert ([r] + rules)[1..] == rules;
  }

  // ----- The reader -----

  function Unescape(c: char): char {
    if c == 'n' then '\n' else if c == 'r' then '\r' else if c == 't' then '\t' else c
  }

  /** Reads the rest of a double-quoted string, after the opening quote: its content and what
      follows the closing quote.  An antiquotation is outside the grammar read here; a dollar
      protects a following dollar; raw CR and CRLF become LF. */
  function ReadString(s: string): (r: Option<(string, string)>)
    ensures r.Some? ==> |r.value.1| < |s|
  {
    if s == "" then None
    else if s[0] == '"' then Some(("", s[1..]))
    else if s[0] == '\\' then
      if |s| < 2 then None else Prepend([Unescape(s[1])], ReadString(s[2..]))
    else if "${" <= s then None
    else if "$$" <= s then Prepend("$$", ReadString(s[2..]))
    else if "\r\n" <= s then Prepend("\n", ReadString(s[2..]))
    else if s[0] == '\r' then Prepend("\n", ReadString(s[1..]))
    else Prepend([s[0]], ReadString(s[1..]))
  }

  function Prepend(p: string, r: Option<(string, string)>): Option<(string, string)> {
    match r
    case None => None
    case Some((content, rest)) => Some((p + content, rest))
  }

  /** What reading makes of carriage returns, which the encoder leaves alone. */
  function NormCR(s: string): (r: string)
    ensures |r| == |s|
    ensures forall i :: 0 <= i < |s| ==> r[i] == if s[i] == '\r' then '\n' else s[i]
  {
    if s == "" then "" else [if s[0] == '\r' then '\n' else s[0]] + NormCR(s[1..])
  }

  lemma {:induction false} EscapeFirst(s: string)
    requires s != ""
    ensures Escape(s) != "" && (Escape(s)[0] == '\\' || (Escape(s)[0] == s[0] && s[0] !in "\\\"\n\t"))
    ensures Escape(s)[0] == s[0] ==> s[0] == '\\' || (!("${" <= s) && Escape(s)[1..] == Escape(s[1..]))
  {
  }

  lemma ReadBackslash(c: char, more: string)
    ensures ReadString("\\" + [c] + more) == Prepend([Unescape(c)], ReadString(more))
  {
    assert ("\\" + [c] + more)[2..] == more;
  }

  lemma ReadBrace(more: string)
    ensures ReadString("{" + more) == Prepend("{", ReadString(more))
  {
    assert ("{" + more)[1..] == more;
  }

  lemma ReadAntiquote(s: string, rest: string)
    requires "${" <= s
    requires ReadString(Escape(s[2..]) + "\"" + rest) == Some((NormCR(s[2..]), rest))
    ensures ReadString(Escape(s) + "\"" + rest) == Some((NormCR(s), rest))
  {
    var after := Escape(s[2..]) + "\"" + rest;
    assert Escape(s) + "\"" + rest == "\\" + ['$'] + ("{" + after);
    ReadBackslash('$', "{" + after);
    ReadBrace(after);
    assert NormCR(s) == "${" + NormCR(s[2..]);
  }

  /** The characters written as a backslash and a letter. */
  lemma ReadEscape(s: string, rest: string)
    requires s != "" && !("${" <= s) && s[0] in "\\\"\n\t"
    requires ReadString(Escape(s[1..]) + "\"" + rest) == Some((NormCR(s[1..]), rest))
    ensures ReadString(Escape(s) + "\"" + rest) == Some((NormCR(s), rest))
  {
    EscapeSpecial(s);
    hide Escape, NormCR, ReadString, Unescape;
    var c := Letter(s[0]);
    AddAssoc("\\" + [c], Escape(s[1..]), "\"");
    AddAssoc("\\" + [c], Escape(s[1..]) + "\"", rest);
    ReadBackslash(c, Escape(s[1..]) + "\"" + rest);
  }

  /** The letter a special character is escaped with. */
  function Letter(c: char): (r: char)
    requires c in "\\\"\n\t"
    ensures Unescape(r) == c
  {
    if c == '\n' then 'n' else if c == '\t' then 't' else c
  }

  lemma EscapeSpecial(s: string)
    requires s != "" && s[0] in "\\\"\n\t"
    ensures Escape(s) == "\\" + [Letter(s[0])] + Escape(s[1..])
    ensures NormCR(s) == [s[0]] + NormCR(s[1..])
  {
    EscapedSpecial(s);
    NormedSpecial(s);
  }

  lemma NormedSpecial(s: string)
    requires s != "" && s[0] != '\r'
    ensures NormCR(s) == [s[0]] + NormCR(s[1..])
  {
  }

  lemma EscapedSpecial(s: string)
    requires s != "" && s[0] in "\\\"\n\t"
    ensures Escape(s) == "\\" + [Letter(s[0])] + Escape(s[1..])
  {
    assert "\\\\" == "\\" + ['\\'] && "\\\"" == "\\" + ['"'] && "\\n" == "\\" + ['n'] && "\\t" == "\\" + ['t'];
    hide NormCR, Unescape;
    assert !("${" <= s);
  }

  lemma {:induction false} ReadPlain(s: string, rest: string)
    requires s != "" && !("${" <= s) && !("$$" <= s) && s[0] !in "\\\"\n\t"
    requires ReadString(Escape(s[1..]) + "\"" + rest) == Some((NormCR(s[1..]), rest))
    ensures ReadString(Escape(s) + "\"" + rest) == Some((NormCR(s), rest))
  {
    var t := s[1..];
    assert Escape(s) == [s[0]] + Escape(t);
    assert NormCR(s) == [if s[0] == '\r' then '\n' else s[0]] + NormCR(t);
    if t != "" {
      EscapeFirst(t);
      assert s == [s[0], t[0]] + s[2..];
    } else {
      assert Escape(t) == "";
    }
    hide Escape, NormCR, ReadString;
    var more := Escape(t) + "\"" + rest;
    assert more[0] == if t == "" then '"' else Escape(t)[0];
    AddAssoc([s[0]], Escape(t), "\"");
    AddAssoc([s[0]], Escape(t) + "\"", rest);
    ReadOther(s[0], more);
  }

  lemma ReadOther(c: char, more: string)
    requires more != "" && c !in "\\\"\n\t" && (c == '$' ==> more[0] !in "{$") && (c == '\r' ==> more[0] != '\n')
    ensures ReadString([c] + more) == Prepend([if c == '\r' then '\n' else c], ReadString(more))
  {
    var text := [c] + more;
    assert text[1..] == more && text[1] == more[0];
  }

  lemma ReadTwoDollars(more: string)
    ensures ReadString("$$" + more) == Prepend("$$", ReadString(more))
  {
    var text := "$$" + more;
    assert text[1] == '$' && text[2..] == more;
    assert !("${" <= text);
  }

  lemma ReadDollarBackslash(more: string)
    ensures ReadString("$\\" + more) == Prepend("$", ReadString("\\" + more))
  {
    var text := "$\\" + more;
    assert text[1] == '\\' && text[1..] == "\\" + more;
    assert !("${" <= text) && !("$$" <= text);
  }

  /** A dollar before a dollar that opens an antiquotation. */
  lemma ReadDollarAntiquote(s: string, rest: string)
    requires "$$" <= s && "${" <= s[1..]
    requires ReadString(Escape(s[1..]) + "\"" + rest) == Some((NormCR(s[1..]), rest))
    ensures ReadString(Escape(s) + "\"" + rest) == Some((NormCR(s), rest))
  {
    var t := s[1..];
    var more := "${" + Escape(t[2..]) + "\"" + rest;
    assert Escape(t) + "\"" + rest == "\\" + more;
    assert Escape(s) == "$" + Escape(t);
    assert Escape(s) + "\"" + rest == "$\\" + more;
    ReadDollarBackslash(more);
    assert NormCR(s) == "$" + NormCR(t);
  }

  lemma ReadDollars(s: string, rest: string)
    requires "$$" <= s && !("${" <= s[1..])
    requires ReadString(Escape(s[2..]) + "\"" + rest) == Some((NormCR(s[2..]), rest))
    ensures ReadString(Escape(s) + "\"" + rest) == Some((NormCR(s), rest))
  {
    var t, u := s[1..], s[2..];
    assert t[1..] == u;
    assert Escape(t) == "$" + Escape(u);
    assert Escape(s) == "$" + Escape(t);
    assert NormCR(t) == "$" + NormCR(u) && NormCR(s) == "$" + NormCR(t);
    hide Escape, NormCR, ReadString;
    TwoDollars(Escape(s), Escape(t), Escape(u));
    TwoDollars(NormCR(s), NormCR(t), NormCR(u));
    AddAssoc("$$", Escape(u), "\"");
    AddAssoc("$$", Escape(u) + "\"", rest);
    ReadTwoDollars(Escape(u) + "\"" + rest);
  }

  lemma TwoDollars(s: string, t: string, u: string)
    requires s == "$" + t && t == "$" + u
    ensures s == "$$" + u
  {
  }

  /** Reading an encoded string gives the string back, but for carriage returns; no `$${`,
      trailing `$` or run of backslashes is mistaken. */
  lemma {:induction false} ReadEscaped(s: string, rest: string)
    ensures ReadString(Escape(s) + "\"" + rest) == Some((NormCR(s), rest))
    decreases |s|
  {
    var text := Escape(s) + "\"" + rest;
    if s == "" {
      assert text[1..] == rest;
    } else if "$$" <= s {
      if "${" <= s[1..] {
        ReadEscaped(s[1..], rest);
        ReadDollarAntiquote(s, rest);
      } else {
        ReadEscaped(s[2..], rest);
        ReadDollars(s, rest);
      }
    } else if "${" <= s {
      ReadEscaped(s[2..], rest);
      ReadAntiquote(s, rest);
    } else {
      ReadEscaped(s[1..], rest);
      if s[0] in "\\\"\n\t" {
        ReadEscape(s, rest);
      } else {
        ReadPlain(s, rest);
      }
    }
  }

  /** A string survives encoding and reading if and only if it has no carriage return. */
  lemma StringRoundTrip(s: string, rest: string)
    ensures ReadString(EncodeString(s) + "\"" + rest) == Some((s, rest)) <==> '\r' !in s
  {
    FivePassesAreOne(s);
    ReadEscaped(s, rest);
    NormFixed(s);
  }

  lemma NormFixed(s: string)
    ensures NormCR(s) == s <==> '\r' !in s
    ensures '\r' !in NormCR(s)
  {
    if '\r' in s {
      var i :| 0 <= i < |s| && s[i] == '\r';
      assert NormCR(s)[i] == '\n';
    }
  }
}
