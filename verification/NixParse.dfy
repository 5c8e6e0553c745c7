/** A reader for the part of the Nix language that `py2nix` prints, and what it should make of a
    printed value. */
module NixParse {
  import opened PyStrings
  import opened NixStrings
  import opened NixTokens
  import opened NixPrint

  /** The largest Nix integer. */
  const MAX_INT: int := 0x7FFF_FFFF_FFFF_FFFF

  /** Reserved words, which cannot be attribute names unless quoted. */
  const KEYWORDS: set<string> := {"if", "then", "else", "assert", "with", "let", "in", "rec", "inherit"}

  /** Nix integers are signed and have 64 bits; nine words are reserved. */
  lemma Limits(k: string)
    ensures MAX_INT + 1 == 0x8000_0000_0000_0000
    ensures k in KEYWORDS <==>
            || k == "if" || k == "then" || k == "else" || k == "assert" || k == "with"
            || k == "let" || k == "in" || k == "rec" || k == "inherit"
  {
  }

  // ----- The grammar -----

  /** expr := "builtins" "." "sub" int int | simple */
  function ParseExpr(ts: seq<Token>): (r: Option<(Expr, seq<Token>)>)
    ensures r.Some? ==> |r.value.1| < |ts|
    decreases |ts|, 3
  {
    if ts != [] && ts[0] == Id("builtins") then
      if |ts| >= 5 && ts[1] == Punct('.') && ts[2] == Id("sub") && ts[3].IntLit? && ts[4].IntLit? &&
         ts[3].value <= MAX_INT && ts[4].value <= MAX_INT
      then Some((Int(ts[3].value - ts[4].value), ts[5..]))
      else None
    else ParseSimple(ts)
  }

  /** simple := int | string | true | false | null | "[" simple* "]" | "{" binding* "}" */
  function ParseSimple(ts: seq<Token>): (r: Option<(Expr, seq<Token>)>)
    ensures r.Some? ==> |r.value.1| < |ts|
    decreases |ts|, 0
  {
    if ts == [] then None
    else
      match ts[0]
      case IntLit(n) => if n <= MAX_INT then Some((Int(n), ts[1..])) else None
      case StrLit(s) => Some((Str(s), ts[1..]))
      case Id(name) =>
        if name == "null" then Some((Null, ts[1..]))
        else if name == "true" then Some((Bool(true), ts[1..]))
        else if name == "false" then Some((Bool(false), ts[1..]))
        else None
      case Punct(c) =>
        if c == '[' then
          var (items, rest) :- ParseItems(ts[1..]);
          Some((List(items), rest))
        else if c == '{' then
          var (attrs, rest) :- ParseBindings(ts[1..], map[]);
          Some((Attrs(attrs), rest))
        else None
  }

  function ParseItems(ts: seq<Token>): (r: Option<(seq<Expr>, seq<Token>)>)
    ensures r.Some? ==> |r.value.1| < |ts|
    decreases |ts|, 1
  {
    if ts == [] then None
    else if ts[0] == Punct(']') then Some(([], ts[1..]))
    else
      var (item, rest) :- ParseSimple(ts);
      var (items, rest') :- ParseItems(rest);
      Some(([item] + items, rest'))
  }

  /** path := key ("." key)*, a key being a string or an identifier that is no keyword */
  function ParsePath(ts: seq<Token>): (r: Option<(seq<string>, seq<Token>)>)
    ensures r.Some? ==> |r.value.1| < |ts| && r.value.0 != []
  {
    if ts == [] || ts[0].IntLit? || ts[0].Punct? || (ts[0].Id? && ts[0].name in KEYWORDS) then None
    else
      var key := if ts[0].Id? then ts[0].name else ts[0].content;
      if |ts| > 1 && ts[1] == Punct('.') then
        var (path, rest) :- ParsePath(ts[2..]);
        Some(([key] + path, rest))
      else Some(([key], ts[1..]))
  }

  /** binding := path "=" expr ";" -- a first key may not be bound twice */
  function ParseBindings(ts: seq<Token>, attrs: map<string, Expr>): (r: Option<(map<string, Expr>, seq<Token>)>)
    ensures r.Some? ==> |r.value.1| < |ts|
    decreases |ts|, 4
  {
    if ts == [] then None
    else if ts[0] == Punct('}') then Some((attrs, ts[1..]))
    else
      var (path, rest) :- ParsePath(ts);
      if rest == [] || rest[0] != Punct('=') then None
      else
        var (v, rest') :- ParseExpr(rest[1..]);
        if rest' == [] || rest'[0] != Punct(';') || path[0] in attrs then None
        else ParseBindings(rest'[1..], attrs[path[0] := Nest(path[1..], v)])
  }

  /** A whole text is one expression. */
  function Parse(text: string): Option<Expr> {
    var ts :- Lex(text);
    var (v, rest) :- ParseExpr(ts);
    if rest == [] then Some(v) else None
  }

  // ----- What reading a printed value gives -----

  predicate IsKeyword(k: string) { k in KEYWORDS }

  /** The value read back; None when the printed text is not in the grammar. */
  function ReadBack(v: Expr, inList: bool): Option<Expr>
    decreases v, 2
  {
    match v
    case Null => Some(v)
    case Bool(_) => Some(v)
    case Int(n) => if -MAX_INT <= n <= MAX_INT && (inList ==> n >= 0) then Some(v) else None
    case Str(s) => Some(Str(NormCR(s)))
    case List(items) =>
      var read :- ReadItems(items);
      Some(List(read))
    case Attrs(attrs) =>
      var read :- ReadAttrs(SortedKeys(attrs.Keys), attrs, v, map[]);
      Some(Attrs(read))
  }

  function ReadItems(items: seq<Expr>): (r: Option<seq<Expr>>)
    ensures r.Some? ==> |r.value| == |items|
    decreases items, 0
  {
    if items == [] then Some([])
    else
      var first :- ReadBack(items[0], true);
      var rest :- ReadItems(items[1..]);
      Some([first] + rest)
  }

  /** The value of attribute k, written as a path when it is a single attribute. */
  function ReadAttr(k: string, v: Expr): Option<Expr>
    decreases v, 3
  {
    if IsKeyword(k) then None
    else if Single(v) then
      var k2 := OnlyKey(v.attrs);
      var w :- ReadAttr(k2, v.attrs[k2]);
      Some(Attrs(map[NormCR(k2) := w]))
    else ReadBack(v, false)
  }

  function ReadAttrs(keys: seq<string>, attrs: map<string, Expr>, ghost whole: Expr, acc: map<string, Expr>):
      Option<map<string, Expr>>
    requires forall k :: k in keys ==> k in attrs
    requires forall k :: k in attrs ==> attrs[k] < whole
    decreases whole, 1, |keys|
  {
    if keys == [] then Some(acc)
    else
      var k := keys[0];
      var v :- ReadAttr(k, attrs[k]);
      if NormCR(k) in acc then None
      else ReadAttrs(keys[1..], attrs, whole, acc[NormCR(k) := v])
  }

  function Then<T>(r: Option<T>, rest: seq<Token>): Option<(T, seq<Token>)> {
    match r
    case None => None
    case Some(v) => Some((v, rest))
  }
}
