/** Indentation: a document printed one level deeper is the same text moved two columns to the right,
    with as much less room. */
module NixShift {
  import opened PyStrings
  import opened Seqs
  import opened NixLayout
  import opened NixPrint
  import opened NixEncoding
  import opened NixWidths

  /** Two spaces at the start of every line but the first. */
  function Deepened(s: string): string {
    if s == "" then ""
    else if s[0] == '\n' then "\n  " + Deepened(s[1..])
    else [s[0]] + Deepened(s[1..])
  }

  function Shifted(s: string): string { "  " + Deepened(s) }

  lemma {:induction false} DeepenedConcat(a: string, b: string)
    ensures Deepened(a + b) == Deepened(a) + Deepened(b)
  {
    if a == "" {
      assert a + b == b;
    } else {
      assert (a + b)[1..] == a[1..] + b && (a + b)[0] == a[0];
      DeepenedConcat(a[1..], b);
      AddAssoc(if a[0] == '\n' then "\n  " else [a[0]], Deepened(a[1..]), Deepened(b));
    }
  }

  lemma {:induction false} DeepenedFlat(s: string)
    requires Flat(s)
    ensures Deepened(s) == s
  {
    if s != "" {
      DeepenedFlat(s[1..]);
      assert s == [s[0]] + s[1..];
    }
  }

  lemma DeeperSpaces(level: nat)
    ensures Spaces(2 * (level + 1)) == "  " + Spaces(2 * level) && Flat(Spaces(2 * level))
  {
  }

  /** A line is shifted by indenting it one level deeper. */
  lemma ShiftedLine(level: nat, text: string)
    requires Flat(text)
    ensures Spaces(2 * (level + 1)) + text == Shifted(Spaces(2 * level) + text)
  {
    DeeperSpaces(level);
    DeepenedFlat(Spaces(2 * level) + text);
    AddAssoc("  ", Spaces(2 * level), text);
  }

  /** Lines are shifted one by one. */
  lemma ShiftedBreak(a: string, b: string)
    ensures Shifted(a + "\n" + b) == Shifted(a) + "\n" + Shifted(b)
  {
    DeepenedConcat(a + "\n", b);
    DeepenedConcat(a, "\n");
    assert "\n"[1..] == "" && Deepened("\n") == "\n  " + "" == "\n  ";
    hide Deepened;
    assert "  " + (Deepened(a) + "\n  " + Deepened(b)) == "  " + Deepened(a) + "\n" + ("  " + Deepened(b));
  }

  lemma {:induction false} ShiftedJoin(texts: seq<string>, shifted: seq<string>)
    requires texts != [] && |shifted| == |texts|
    requires forall i :: 0 <= i < |texts| ==> shifted[i] == Shifted(texts[i])
    ensures Join("\n", shifted) == Shifted(Join("\n", texts))
  {
    hide Shifted;
    if |texts| > 1 {
      ShiftedJoin(texts[1..], shifted[1..]);
      ShiftedBreak(texts[0], Join("\n", texts[1..]));
    }
  }

  /** Printing one level deeper in a page two columns wider moves the text. */
  lemma {:induction false} ShiftedLayout(d: Doc, level: nat, inlined: bool, maxwidth: int)
    requires FlatPieces(d) && Childless(d) == 0
    ensures Indent(d, level + 1, inlined, maxwidth + 2) == Shifted(Indent(d, level, inlined, maxwidth))
    decreases d, 1
  {
    match d
    case Raw(value) =>
      ShiftedLine(level, value);
    case Container(prefix, children, suffix, variant) =>
      InlineIsOneLine(d, maxwidth);
      if inlined || 2 * level + MinLength(d) < maxwidth {
        ShiftedInline(d, level, inlined, maxwidth);
      } else {
        ShiftedTexts(children, level + 1, maxwidth);
        var texts := Indents(children, level + 1, false, maxwidth);
        var shifted := Indents(children, level + 2, false, maxwidth + 2);
        ShiftedJoin(texts, shifted);
        ShiftedFrame(d, level, maxwidth, Join("\n", texts));
      }
  }

  lemma ShiftedInline(d: Doc, level: nat, inlined: bool, maxwidth: int)
    requires d.Container? && FlatPieces(d) && IsInlineable(d) && (inlined || 2 * level + MinLength(d) < maxwidth)
    ensures Indent(d, level + 1, inlined, maxwidth + 2) == Shifted(Indent(d, level, inlined, maxwidth))
  {
    if d.variant.Some? {
      ShiftedLine(level, d.variant.value);
    } else {
      InlinesAreOneLine(d.children);
      var body := Join(" ", Indents(d.children, 0, true, 80));
      hide Indents, Join, FlatPieces, IsInlineable;
      var text := d.prefix + " " + body + " " + d.suffix;
      ShiftedLine(level, text);
      assert Spaces(2 * level) + d.prefix + " " + body + " " + d.suffix == Spaces(2 * level) + text;
      assert Spaces(2 * (level + 1)) + d.prefix + " " + body + " " + d.suffix == Spaces(2 * (level + 1)) + text;
    }
  }

  lemma ShiftedFrame(d: Doc, level: nat, maxwidth: int, body: string)
    requires d.Container? && FlatPieces(d) && IsInlineable(d) && 2 * level + MinLength(d) >= maxwidth
    requires body == Join("\n", Indents(d.children, level + 1, false, maxwidth))
    requires Join("\n", Indents(d.children, level + 2, false, maxwidth + 2)) == Shifted(body)
    ensures Indent(d, level + 1, false, maxwidth + 2) == Shifted(Indent(d, level, false, maxwidth))
  {
    var (ind, deeper) := (Spaces(2 * level), Spaces(2 * (level + 1)));
    assert Indent(d, level, false, maxwidth) == ind + d.prefix + "\n" + body + "\n" + ind + d.suffix;
    assert Indent(d, level + 1, false, maxwidth + 2) ==
           deeper + d.prefix + "\n" + Shifted(body) + "\n" + deeper + d.suffix;
    ShiftedLine(level, d.prefix);
    ShiftedLine(level, d.suffix);
    hide Shifted, Indent, Spaces, FlatPieces, IsInlineable;
    ShiftedBreak(ind + d.prefix, body);
    ShiftedBreak(ind + d.prefix + "\n" + body, ind + d.suffix);
    AddAssoc(ind + d.prefix + "\n" + body + "\n", ind, d.suffix);
    AddAssoc(deeper + d.prefix + "\n" + Shifted(body) + "\n", deeper, d.suffix);
  }

  lemma {:induction false} ShiftedTexts(ds: seq<Doc>, level: nat, maxwidth: int)
    requires forall d :: d in ds ==> FlatPieces(d)
    requires ChildlessSum(ds) == 0
    ensures forall i :: 0 <= i < |ds| ==>
              Indents(ds, level + 1, false, maxwidth + 2)[i] == Shifted(Indents(ds, level, false, maxwidth)[i])
    decreases ds, 0
  {
    if ds != [] {
      ShiftedLayout(ds[0], level, false, maxwidth);
      ShiftedTexts(ds[1..], level, maxwidth);
      hide Indent, Shifted;
      var (a, b) := (Indents(ds, level + 1, false, maxwidth + 2), Indents(ds, level, false, maxwidth));
      assert a[1..] == Indents(ds[1..], level + 1, false, maxwidth + 2) && b[1..] == Indents(ds[1..], level, false, maxwidth);
      forall i | 0 <= i < |ds|
        ensures a[i] == Shifted(b[i])
      {
        if i > 0 {
          assert a[i] == a[1..][i - 1] && b[i] == b[1..][i - 1];
        }
      }
    }
  }

  /** A broken document is its prefix, its children moved two columns to the right, and its suffix,
      each on lines of their own. */
  lemma BrokenLayout(d: Doc, maxwidth: int)
    requires d.Container? && FlatPieces(d) && Childless(d) == 0 && MinLength(d) >= maxwidth
    ensures Indent(d, 0, false, maxwidth) ==
            d.prefix + "\n" + Shifted(Join("\n", Indents(d.children, 0, false, maxwidth - 2))) + "\n" + d.suffix
  {
    InlineIsOneLine(d, maxwidth);
    ShiftedTexts(d.children, 0, maxwidth - 2);
    ShiftedJoin(Indents(d.children, 0, false, maxwidth - 2), Indents(d.children, 1, false, maxwidth));
    assert Spaces(0) == "" && "" + d.prefix == d.prefix;
  }

  /** The text of a value one level deeper. */
  lemma ValueShifted(v: Expr, level: nat, inlined: bool, maxwidth: int)
    requires Encodable(v) && PlainStrings(v) && EmptyNests(v) == 0
    ensures Indent(Enc(v), level + 1, inlined, maxwidth + 2) == Shifted(Indent(Enc(v), level, inlined, maxwidth))
  {
    EncFlat(v);
    EncChildless(v);
    ShiftedLayout(Enc(v), level, inlined, maxwidth);
  }
}
