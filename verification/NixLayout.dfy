/** The width-driven pretty printer of nixops/nix_expr.py: `Container.indent`,
    `get_min_length`, `is_inlineable` and `enclose_node`. */
module NixLayout {
  import opened PyStrings

  /** RawValue, MultiLineRawValue and Container.  `variant` is the inline variant of a container,
      itself always a raw value. */
  datatype Doc =
    | Raw(value: string)
    | MultiLine(values: seq<string>)
    | Container(prefix: string, children: seq<Doc>, suffix: string, variant: Option<string>)

  function Spaces(n: nat): (s: string)
    ensures |s| == n && forall i :: 0 <= i < n ==> s[i] == ' '
  {
    seq(n, _ => ' ')
  }

  predicate IsInlineable(d: Doc) {
    match d
    case Raw(_) => true
    case MultiLine(_) => false
    case Container(_, children, _, _) => forall c :: c in children ==> IsInlineable(c)
  }

  /** `get_min_length() or 0`. */
  function MinLength(d: Doc): nat
    decreases d, 1
  {
    match d
    case Raw(value) => |value|
    case MultiLine(_) => 0
    case Container(prefix, children, suffix, _) =>
      |prefix| + |suffix| + 1 + |children| + MinLengths(children)
  }

  function MinLengths(ds: seq<Doc>): nat
    decreases ds, 0
  {
    if ds == [] then 0 else MinLength(ds[0]) + MinLengths(ds[1..])
  }

  function Indent(d: Doc, level: nat, inlined: bool, maxwidth: int): string
    decreases d, 1
  {
    match d
    case Raw(value) => Spaces(2 * level) + value
    case MultiLine(values) =>
      Join("\n", seq(|values|, i requires 0 <= i < |values| => Spaces(2 * level) + values[i]))
    case Container(prefix, children, suffix, variant) =>
      var inl := IsInlineable(d) && (inlined || 2 * level + MinLength(d) < maxwidth);
      var ind := Spaces(2 * level);
      if inl && variant.Some? then ind + variant.value
      else if inl then ind + prefix + " " + Join(" ", Indents(children, 0, true, 80)) + " " + suffix
      else ind + prefix + "\n" + Join("\n", Indents(children, level + 1, false, maxwidth)) + "\n" + ind + suffix
  }

  function Indents(ds: seq<Doc>, level: nat, inlined: bool, maxwidth: int): (r: seq<string>)
    ensures |r| == |ds|
    decreases ds, 0
  {
    if ds == [] then []
    else [Indent(ds[0], level, inlined, maxwidth)] + Indents(ds[1..], level, inlined, maxwidth)
  }

  /** Puts text before and after a node without adding a line. */
  function EncloseNode(d: Doc, prefix: string, suffix: string): Doc
    requires d.MultiLine? ==> |d.values| > 0
  {
    match d
    case MultiLine(values) =>
      var first := values[0 := prefix + values[0]];
      MultiLine(first[|values| - 1 := first[|values| - 1] + suffix])
    case Raw(value) => Raw(prefix + value + suffix)
    case Container(p, children, s, variant) =>
      Container(prefix + p, children, s + suffix,
                if variant.Some? then Some(prefix + variant.value + suffix) else None)
  }

  // ----- Inline variants -----

  /** Some container that has an inline variant is laid out over several lines. */
  ghost predicate FallsBack(d: Doc, level: nat, inlined: bool, maxwidth: int)
    decreases d
  {
    && d.Container?
    && !(IsInlineable(d) && (inlined || 2 * level + MinLength(d) < maxwidth))
    && (d.variant.Some? || exists c :: c in d.children && FallsBack(c, level + 1, false, maxwidth))
  }

  lemma {:induction false} NoVariantsNoFallBack(d: Doc, level: nat, inlined: bool, maxwidth: int)
    requires NoVariants(d)
    ensures !FallsBack(d, level, inlined, maxwidth)
    decreases d
  {
    if d.Container? {
      forall c | c in d.children
        ensures !FallsBack(c, level + 1, false, maxwidth)
      {
        NoVariantsNoFallBack(c, level + 1, false, maxwidth);
      }
    }
  }

  // ----- The width test is exact -----

  ghost predicate NoVariants(d: Doc) {
    d.Container? ==> d.variant.None? && forall c :: c in d.children ==> NoVariants(c)
  }

  /** The number of containers without children. */
  ghost function Childless(d: Doc): nat
    decreases d, 1
  {
    if d.Container? then (if d.children == [] then 1 else 0) + ChildlessSum(d.children) else 0
  }

  ghost function ChildlessSum(ds: seq<Doc>): nat
    decreases ds, 0
  {
    if ds == [] then 0 else Childless(ds[0]) + ChildlessSum(ds[1..])
  }

  /** `get_min_length` is the inline length, short by one for each container without children. */
  lemma {:induction false} InlineLength(d: Doc, maxwidth: int)
    requires IsInlineable(d) && NoVariants(d)
    ensures |Indent(d, 0, true, maxwidth)| == MinLength(d) + Childless(d)
    decreases d, 1
  {
    if d.Container? {
      InlineLengths(d.children);
    }
  }

  lemma {:induction false} InlineLengths(ds: seq<Doc>)
    requires forall c :: c in ds ==> IsInlineable(c) && NoVariants(c)
    ensures |Join(" ", Indents(ds, 0, true, 80))| ==
            MinLengths(ds) + ChildlessSum(ds) + (if ds == [] then 0 else |ds| - 1)
    decreases ds, 0
  {
    if ds != [] {
      InlineLength(ds[0], 80);
      InlineLengths(ds[1..]);
      assert Indents(ds, 0, true, 80)[1..] == Indents(ds[1..], 0, true, 80);
    }
  }

  /** No piece of text contains a newline. */
  ghost predicate FlatPieces(d: Doc) {
    match d
    case Raw(value) => '\n' !in value
    case MultiLine(values) => false
    case Container(prefix, children, suffix, variant) =>
      && '\n' !in prefix && '\n' !in suffix && (variant.Some? ==> '\n' !in variant.value)
      && forall c :: c in children ==> FlatPieces(c)
  }

  lemma {:induction false} InlineIsOneLine(d: Doc, maxwidth: int)
    requires FlatPieces(d)
    ensures IsInlineable(d) && '\n' !in Indent(d, 0, true, maxwidth)
    decreases d, 1
  {
    if d.Container? {
      InlinesAreOneLine(d.children);
    }
  }

  lemma {:induction false} InlinesAreOneLine(ds: seq<Doc>)
    requires forall c :: c in ds ==> FlatPieces(c)
    ensures forall c :: c in ds ==> IsInlineable(c)
    ensures '\n' !in Join(" ", Indents(ds, 0, true, 80))
    decreases ds, 0
  {
    if ds != [] {
      InlineIsOneLine(ds[0], 80);
      InlinesAreOneLine(ds[1..]);
      assert Indents(ds, 0, true, 80)[1..] == Indents(ds[1..], 0, true, 80);
      assert forall c :: c in ds ==> c == ds[0] || c in ds[1..];
    }
  }

  /** A container reached with inline=False prints on one line exactly when its indentation and
      minimum length fit; without inline variants and empty containers, the minimum length is the
      length of that line. */
  lemma OneLineIffFits(d: Doc, level: nat, maxwidth: int)
    requires d.Container? && FlatPieces(d)
    ensures '\n' !in Indent(d, level, false, maxwidth) <==> 2 * level + MinLength(d) < maxwidth
    ensures NoVariants(d) && Childless(d) == 0 ==>
              ('\n' !in Indent(d, level, false, maxwidth) <==>
                 2 * level + |Indent(d, 0, true, maxwidth)| < maxwidth)
  {
    InlineIsOneLine(d, maxwidth);
    if 2 * level + MinLength(d) < maxwidth {
      InlinesAreOneLine(d.children);
    } else {
      var ind := Spaces(2 * level);
      var text := Indent(d, level, false, maxwidth);
      assert text[|ind + d.prefix|] == '\n';
    }
    if NoVariants(d) && Childless(d) == 0 {
      InlineLength(d, maxwidth);
    }
  }
}
