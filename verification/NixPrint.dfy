/** `py2nix` on values whose tuple keys have been expanded: the encoders that turn a value into a
    document, and the tokens that document stands for. */
module NixPrint {
  import opened PyStrings
  import opened NixStrings
  import opened NixLayout
  import opened NixTokens

  datatype Expr =
    | Null
    | Bool(b: bool)
    | Int(n: int)
    | Str(s: string)
    | List(items: seq<Expr>)
    | Attrs(attrs: map<string, Expr>)

  // ----- Sorted keys -----

  /** Python's order on strings, by code point. */
  predicate LexLe(a: string, b: string) {
    a == "" || (b != "" && (a[0] < b[0] || (a[0] == b[0] && LexLe(a[1..], b[1..]))))
  }

  lemma {:induction false} LexOrder(a: string, b: string, c: string)
    ensures LexLe(a, b) || LexLe(b, a)
    ensures LexLe(a, b) && LexLe(b, a) ==> a == b
    ensures LexLe(a, b) && LexLe(b, c) ==> LexLe(a, c)
  {
    if a != "" && b != "" {
      LexOrder(a[1..], b[1..], if c == "" then "" else c[1..]);
      assert a == [a[0]] + a[1..] && b == [b[0]] + b[1..];
    }
  }

  /** The first place where a and b differ is i, and there a has the smaller character. */
  ghost predicate SmallerAt(a: string, b: string, i: nat) {
    i < |a| && i < |b| && a[..i] == b[..i] && a[i] < b[i]
  }

  lemma SmallerLater(a: string, b: string, i: nat)
    requires a != "" && b != "" && a[0] == b[0]
    ensures SmallerAt(a, b, i + 1) <==> SmallerAt(a[1..], b[1..], i)
    ensures !SmallerAt(a, b, 0)
  {
    if i < |a[1..]| && i < |b[1..]| {
      assert a[..i + 1] == [a[0]] + a[1..][..i] && b[..i + 1] == [b[0]] + b[1..][..i];
      assert a[..i + 1][1..] == a[1..][..i] && b[..i + 1][1..] == b[1..][..i];
    }
  }

  lemma SmallerFirst(a: string, b: string, i: nat)
    requires a != "" && b != "" && a[0] != b[0]
    ensures SmallerAt(a, b, i) <==> i == 0 && a[0] < b[0]
  {
    if i > 0 && i < |a| && i < |b| {
      assert a[..i][0] == a[0] && b[..i][0] == b[0];
    } else if i == 0 {
      assert a[..0] == b[..0];
    }
  }

  /** Of two strings the lesser is a prefix of the other, or has the smaller character at the first
      place where they differ. */
  lemma {:induction false} LexLeIff(a: string, b: string)
    ensures LexLe(a, b) <==> a <= b || exists i: nat :: SmallerAt(a, b, i)
  {
    hide SmallerAt;
    if a == "" {
    } else if b == "" {
      forall i: nat
        ensures !SmallerAt(a, b, i)
      {
        NothingSmaller(a, i);
      }
    } else if a[0] == b[0] {
      var (s, t) := (a[1..], b[1..]);
      LexLeIff(s, t);
      assert a == [a[0]] + s && b == [b[0]] + t;
      assert a <= b <==> s <= t;
      if i: nat :| SmallerAt(s, t, i) {
        SmallerLater(a, b, i);
        assert SmallerAt(a, b, i + 1);
      }
      if i: nat :| SmallerAt(a, b, i) {
        SmallerLater(a, b, 0);
        SmallerLater(a, b, i - 1);
        assert SmallerAt(s, t, i - 1);
      }
    } else {
      forall i: nat
        ensures SmallerAt(a, b, i) <==> i == 0 && a[0] < b[0]
      {
        SmallerFirst(a, b, i);
      }
      assert SmallerAt(a, b, 0) <==> a[0] < b[0];
    }
  }

  lemma NothingSmaller(a: string, i: nat)
    ensures !SmallerAt(a, "", i)
  {
  }

  predicate IsLeast(k: string, keys: set<string>) {
    k in keys && forall x :: x in keys ==> LexLe(k, x)
  }

  lemma {:induction false} LeastExists(keys: set<string>)
    requires keys != {}
    ensures exists k :: IsLeast(k, keys)
    ensures forall j, k :: IsLeast(j, keys) && IsLeast(k, keys) ==> j == k
  {
    var x :| x in keys;
    if keys == {x} {
      LexOrder(x, x, x);
      assert IsLeast(x, keys);
    } else {
      var rest := keys - {x};
      assert rest != {};
      LeastExists(rest);
      var y :| IsLeast(y, rest);
      LexOrder(x, y, y);
      LexOrder(x, x, x);
      forall z | z in rest
        ensures LexLe(x, y) ==> LexLe(x, z)
      {
        LexOrder(x, y, z);
      }
      assert IsLeast(if LexLe(x, y) then x else y, keys);
    }
    forall j, k | IsLeast(j, keys) && IsLeast(k, keys)
      ensures j == k
    {
      LexOrder(j, k, k);
    }
  }

  /** `sorted(node.items())`, keys only. */
  function SortedKeys(keys: set<string>): (r: seq<string>)
    ensures forall k :: k in r <==> k in keys
    ensures forall i, j :: 0 <= i < j < |r| ==> r[i] != r[j] && LexLe(r[i], r[j])
    ensures |r| == |keys|
  {
    if keys == {} then []
    else
      var k := LeastOf(keys);
      [k] + SortedKeys(keys - {k})
  }

  function LeastOf(keys: set<string>): (k: string)
    requires keys != {}
    ensures k in keys && forall x :: x in keys ==> LexLe(k, x)
  {
    LeastExists(keys);
    var k :| k in keys && IsLeast(k, keys);
    k
  }

  // ----- Numbers -----

  function DigitChar(n: nat): (c: char)
    requires n < 10
    ensures IsDigit(c) && Digit(c) == n
  {
    '0' + n as char
  }

  /** `str(n)`. */
  function Decimal(n: nat): (s: string)
    ensures s != "" && forall i :: 0 <= i < |s| ==> IsDigit(s[i])
  {
    if n < 10 then [DigitChar(n)] else Decimal(n / 10) + [DigitChar(n % 10)]
  }

  lemma {:induction false} DecimalValue(n: nat)
    ensures DigitsValue(Decimal(n)) == n
  {
    if n < 10 {
      assert Decimal(n)[..0] == "";
    } else {
      DecimalValue(n / 10);
      assert Decimal(n)[..|Decimal(n)| - 1] == Decimal(n / 10);
    }
  }

  // ----- Encoders -----

  predicate SimpleKey(k: string) {
    k != "" && IsIdStart(k[0]) && forall c :: c in k ==> IsIdStart(c) || IsDigit(c)
  }

  function Quoted(s: string): string { "\"" + EncodeString(s) + "\"" }

  /** `_enc_key` on a nonempty key. */
  function EncKey(k: string): string {
    if SimpleKey(k) then k else Quoted(k)
  }

  predicate IsKeyChar(c: char) {
    'a' <= c <= 'z' || 'A' <= c <= 'Z' || '0' <= c <= '9' || c == '_'
  }

  /** A key is unquoted if it is made of ASCII letters, digits and underscores and does not start with
      a digit, and a string otherwise. */
  lemma KeyForms(k: string)
    ensures EncKey(k) == if k != "" && !('0' <= k[0] <= '9') && forall c :: c in k ==> IsKeyChar(c) then k
                         else "\"" + EncodeString(k) + "\""
  {
    if k != "" {
      assert k[0] in k;
      assert IsKeyChar(k[0]) <==> IsIdStart(k[0]) || IsDigit(k[0]);
    }
  }

  function EncInt(n: int): string {
    if n < 0 then "builtins.sub 0 " + Decimal(-n) else Decimal(n)
  }

  const INDENTED_RULES: seq<Rule> := [Rule("''", "'''"), Rule("${", "''${"), Rule("\t", "'\\t")]

  function EncStr(s: string): Doc {
    if s != "" && s[|s| - 1] == '\n' then
      var lines := SplitLines(FoldString(s[..|s| - 1], INDENTED_RULES));
      Container("''", seq(|lines|, i requires 0 <= i < |lines| => Raw(lines[i])), "''", Some(Quoted(s)))
    else Raw(Quoted(s))
  }

  /** A dictionary with one attribute, which the printer joins to its parent with a dot. */
  predicate Single(v: Expr) { v.Attrs? && |v.attrs| == 1 }

  function OnlyKey(m: map<string, Expr>): (k: string)
    requires |m| == 1
    ensures m.Keys == {k}
  {
    var k := SortedKeys(m.Keys)[0];
    assert |m.Keys - {k}| == 0;
    k
  }

  /** The loop of `_enc_list` over lists that only hold another list. */
  function Collapse(pre: string, nodes: seq<Expr>, post: string): (r: (string, seq<Expr>, string))
    ensures r.1 == nodes || (nodes != [] && forall i :: 0 <= i < |r.1| ==> r.1[i] < nodes[0])
    decreases nodes
  {
    if |nodes| == 1 && nodes[0].List? then Collapse(pre + " [", nodes[0].items, post + " ]")
    else (pre, nodes, post)
  }

  /** The loop of `_enc_attrset` over attribute sets that only hold one attribute. */
  function Compress(path: string, v: Expr): (r: (string, Expr))
    ensures r.1 == v || r.1 < v
    decreases v
  {
    if Single(v) then
      var k := OnlyKey(v.attrs);
      Compress(path + "." + EncKey(k), v.attrs[k])
    else (path, v)
  }

  function Enc(v: Expr): (d: Doc)
    ensures !d.MultiLine?
    decreases v, 2
  {
    match v
    case Null => Raw("null")
    case Bool(b) => Raw(if b then "true" else "false")
    case Int(n) => Raw(EncInt(n))
    case Str(s) => EncStr(s)
    case List(items) =>
      if items == [] then Raw("[]")
      else
        var (pre, nodes, post) := Collapse("[", items, "]");
        assert forall i :: 0 <= i < |nodes| ==> nodes[i] < v;
        Container(pre, seq(|nodes|, i requires 0 <= i < |nodes| => Enc(nodes[i])), post, None)
    case Attrs(attrs) =>
      if attrs == map[] then Raw("{}")
      else
        var keys := SortedKeys(attrs.Keys);
        Container("{", seq(|keys|, i requires 0 <= i < |keys| => EncBinding(keys[i], attrs[keys[i]], v)), "}", None)
  }

  /** One attribute; `whole` is the attribute set it comes from. */
  function EncBinding(k: string, v: Expr, ghost whole: Expr): (d: Doc)
    requires v < whole
    ensures !d.MultiLine?
    decreases whole, 1
  {
    var (path, leaf) := Compress(EncKey(k), v);
    EncloseNode(Enc(leaf), path + " = ", ";")
  }

  /** `a.b.c = v` binds a to { b = { c = v; }; }. */
  function Nest(path: seq<string>, v: Expr): Expr {
    if path == [] then v else Attrs(map[path[0] := Nest(path[1..], v)])
  }

  // ----- The tokens of an encoded value -----

  function KeyToken(k: string): Token {
    if SimpleKey(k) then Id(k) else StrLit(NormCR(k))
  }

  function PathRest(v: Expr): seq<Token> {
    if Single(v) then
      var k := OnlyKey(v.attrs);
      [Punct('.'), KeyToken(k)] + PathRest(v.attrs[k])
    else []
  }

  function Leaf(v: Expr): (r: Expr)
    ensures r == v || r < v
  {
    if Single(v) then Leaf(v.attrs[OnlyKey(v.attrs)]) else v
  }

  function Tokens(v: Expr): seq<Token>
    decreases v, 2
  {
    match v
    case Null => [Id("null")]
    case Bool(b) => [Id(if b then "true" else "false")]
    case Int(n) =>
      if n < 0 then [Id("builtins"), Punct('.'), Id("sub"), IntLit(0), IntLit(-n)] else [IntLit(n)]
    case Str(s) => [StrLit(NormCR(s))]
    case List(items) => [Punct('[')] + ItemsTokens(items) + [Punct(']')]
    case Attrs(attrs) => [Punct('{')] + BindingsTokens(SortedKeys(attrs.Keys), attrs, v) + [Punct('}')]
  }

  function ItemsTokens(items: seq<Expr>): seq<Token>
    decreases items, 0
  {
    if items == [] then [] else Tokens(items[0]) + ItemsTokens(items[1..])
  }

  function BindingTokens(k: string, v: Expr, ghost whole: Expr): seq<Token>
    requires v < whole
    decreases whole, 0
  {
    [KeyToken(k)] + PathRest(v) + [Punct('=')] + Tokens(Leaf(v)) + [Punct(';')]
  }

  function BindingsTokens(keys: seq<string>, attrs: map<string, Expr>, ghost whole: Expr): seq<Token>
    requires forall k :: k in keys ==> k in attrs
    requires forall k :: k in attrs ==> attrs[k] < whole
    decreases whole, 1, |keys|
  {
    if keys == [] then []
    else BindingTokens(keys[0], attrs[keys[0]], whole) + BindingsTokens(keys[1..], attrs, whole)
  }
}
