/** The encoders of `py2nix` with their loops: `_enc_list` opens lists that only hold a list at one
    go, and `_enc_attrset` joins single attributes to a path. */
module NixEncoders {
  import opened PyStrings
  import opened Seqs
  import opened NixLayout
  import opened NixPrint

  // ----- Lists in lists -----

  /** `[[[...]]]`: the nodes inside n lists. */
  function Wrapped(n: nat, nodes: seq<Expr>): seq<Expr> {
    if n == 0 then nodes else [List(Wrapped(n - 1, nodes))]
  }

  function Repeat(s: string, n: nat): string {
    if n == 0 then "" else Repeat(s, n - 1) + s
  }

  lemma {:induction false} WrappedMore(n: nat, nodes: seq<Expr>)
    ensures Wrapped(n, [List(nodes)]) == Wrapped(n + 1, nodes)
  {
    if n > 0 {
      WrappedMore(n - 1, nodes);
    }
  }

  predicate SingleList(nodes: seq<Expr>) { |nodes| == 1 && nodes[0].List? }

  /** The loop of `_enc_list`: as many brackets are opened, and closed, as there are lists around
      the innermost nodes. */
  method CollapseNested(items: seq<Expr>) returns (pre: string, nodes: seq<Expr>, post: string, ghost n: nat)
    ensures items == Wrapped(n, nodes) && !SingleList(nodes)
    ensures pre == "[" + Repeat(" [", n) && post == "]" + Repeat(" ]", n)
  {
    pre, nodes, post, n := "[", items, "]", 0;
    while |nodes| == 1 && nodes[0].List?
      invariant items == Wrapped(n, nodes)
      invariant pre == "[" + Repeat(" [", n) && post == "]" + Repeat(" ]", n)
      decreases nodes
    {
      WrappedMore(n, nodes[0].items);
      assert nodes == [List(nodes[0].items)];
      AddAssoc("[", Repeat(" [", n), " [");
      AddAssoc("]", Repeat(" ]", n), " ]");
      pre, nodes, post := pre + " [", nodes[0].items, post + " ]";
      n := n + 1;
    }
  }

  /** Collapse finds the innermost nodes. */
  lemma {:induction false} CollapseWrapped(pre: string, n: nat, nodes: seq<Expr>, post: string)
    requires !SingleList(nodes)
    ensures Collapse(pre, Wrapped(n, nodes), post) == (pre + Repeat(" [", n), nodes, post + Repeat(" ]", n))
    decreases n
  {
    if n == 0 {
      assert pre + "" == pre && post + "" == post;
    } else {
      CollapseWrapped(pre + " [", n - 1, nodes, post + " ]");
      RepeatFirst(" [", n - 1);
      RepeatFirst(" ]", n - 1);
      AddAssoc(pre, " [", Repeat(" [", n - 1));
      AddAssoc(post, " ]", Repeat(" ]", n - 1));
    }
  }

  lemma {:induction false} RepeatFirst(s: string, n: nat)
    ensures Repeat(s, n + 1) == s + Repeat(s, n)
  {
    if n == 0 {
      assert Repeat(s, 0) == "" && Repeat(s, 1) == "" + s == s + "";
    } else {
      RepeatFirst(s, n - 1);
      AddAssoc(s, Repeat(s, n - 1), s);
    }
  }

  // ----- Single attributes -----

  /** Encoded keys, each after a dot. */
  function Dotted(keys: seq<string>): string {
    if keys == [] then "" else Dotted(keys[..|keys| - 1]) + "." + EncKey(keys[|keys| - 1])
  }

  lemma {:induction false} NestMore(keys: seq<string>, k: string, v: Expr)
    ensures Nest(keys, Attrs(map[k := v])) == Nest(keys + [k], v)
  {
    if keys == [] {
      assert [k][1..] == [] && Nest([], v) == v && keys + [k] == [k];
    } else {
      assert (keys + [k])[1..] == keys[1..] + [k];
      NestMore(keys[1..], k, v);
    }
  }

  lemma DottedMore(keys: seq<string>, k: string)
    ensures Dotted(keys + [k]) == Dotted(keys) + "." + EncKey(k)
  {
    assert (keys + [k])[..|keys|] == keys;
  }

  /** The loop of `_enc_attrset`: the path is made of the key and all the keys that lead to a child
      that is no single attribute. */
  method CompressSingles(key: string, value: Expr) returns (path: string, child: Expr, ghost keys: seq<string>)
    ensures value == Nest(keys, child) && !Single(child)
    ensures path == EncKey(key) + Dotted(keys)
  {
    hide EncKey, Dotted;
    path, child, keys := EncKey(key), value, [];
    NoDots(key);
    while child.Attrs? && |child.attrs| == 1
      invariant value == Nest(keys, child)
      invariant path == EncKey(key) + Dotted(keys)
      decreases child
    {
      var k :| k in child.attrs;
      OnlyOne(child.attrs, k);
      NestMore(keys, k, child.attrs[k]);
      DottedMore(keys, k);
      AddAssoc(EncKey(key), Dotted(keys), ".");
      AddAssoc(EncKey(key), Dotted(keys) + ".", EncKey(k));
      path, child, keys := path + "." + EncKey(k), child.attrs[k], keys + [k];
    }
  }

  lemma NoDots(key: string)
    ensures EncKey(key) == EncKey(key) + Dotted([])
  {
  }

  lemma OnlyOne(m: map<string, Expr>, k: string)
    requires |m| == 1 && k in m
    ensures OnlyKey(m) == k && m == map[k := m[k]]
  {
    assert m.Keys == {OnlyKey(m)};
    assert k in {OnlyKey(m)};
  }

  /** Compress finds that child. */
  lemma {:induction false} CompressNested(path: string, keys: seq<string>, child: Expr)
    requires !Single(child)
    ensures Compress(path, Nest(keys, child)) == (path + Dotted(keys), child)
    decreases |keys|
  {
    hide EncKey;
    if keys == [] {
      assert path + "" == path;
    } else {
      var (k, rest) := (keys[0], keys[1..]);
      OnlyOne(Nest(keys, child).attrs, k);
      CompressNested(path + "." + EncKey(k), rest, child);
      DottedFirst(k, rest);
      assert keys == [k] + rest;
      AddAssoc(path, ".", EncKey(k));
      AddAssoc(path, "." + EncKey(k), Dotted(rest));
    }
  }

  lemma {:induction false} DottedFirst(k: string, keys: seq<string>)
    ensures Dotted([k] + keys) == "." + EncKey(k) + Dotted(keys)
    decreases |keys|
  {
    hide EncKey;
    if keys == [] {
      assert [k] + keys == [] + [k];
      DottedMore([], k);
      assert "" + "." + EncKey(k) == "." + EncKey(k) + "";
    } else {
      var (before, last) := (keys[..|keys| - 1], keys[|keys| - 1]);
      DottedFirst(k, before);
      assert keys == before + [last] && [k] + keys == [k] + before + [last];
      DottedMore(before, last);
      DottedMore([k] + before, last);
      hide Dotted;
      AddAssoc("." + EncKey(k), Dotted(before), ".");
      AddAssoc("." + EncKey(k), Dotted(before) + ".", EncKey(last));
    }
  }

  // ----- The encoders -----

  /** `_enc` on an expanded value. */
  method Encode(v: Expr) returns (d: Doc)
    ensures d == Enc(v)
    decreases v, 2
  {
    if v.List? {
      d := EncodeList(v);
    } else if v.Attrs? {
      d := EncodeAttrset(v);
    } else {
      d := Enc(v);
    }
  }

  /** `_enc_list`. */
  method EncodeList(v: Expr) returns (d: Doc)
    requires v.List?
    ensures d == Enc(v)
    decreases v, 1
  {
    hide Repeat, Wrapped, Collapse;
    if v.items == [] {
      return Raw("[]");
    }
    var pre, nodes, post, n := CollapseNested(v.items);
    CollapseWrapped("[", n, nodes, "]");
    NodesSmaller(v.items);
    var docs: seq<Doc> := [];
    for i := 0 to |nodes|
      invariant |docs| == i && forall j :: 0 <= j < i ==> docs[j] == Enc(nodes[j])
    {
      var doc := Encode(nodes[i]);
      docs := docs + [doc];
    }
    assert docs == seq(|nodes|, i requires 0 <= i < |nodes| => Enc(nodes[i]));
    d := Container(pre, docs, post, None);
  }

  lemma NodesSmaller(items: seq<Expr>)
    ensures var nodes := Collapse("[", items, "]").1; forall i :: 0 <= i < |nodes| ==> nodes[i] < List(items)
  {
  }

  /** `_enc_attrset`. */
  method EncodeAttrset(v: Expr) returns (d: Doc)
    requires v.Attrs?
    ensures d == Enc(v)
    decreases v, 1
  {
    if v.attrs == map[] {
      return Raw("{}");
    }
    hide Enc, EncBinding;
    var keys := SortedKeys(v.attrs.Keys);
    var docs := EncodeAttributes(keys, v.attrs, v);
    AttrsetDoc(v, keys, docs);
    d := Container("{", docs, "}", None);
  }

  method EncodeAttributes(keys: seq<string>, attrs: map<string, Expr>, ghost whole: Expr) returns (docs: seq<Doc>)
    requires forall k :: k in keys ==> k in attrs
    requires forall k :: k in attrs ==> attrs[k] < whole
    ensures |docs| == |keys| && forall i :: 0 <= i < |keys| ==> docs[i] == EncBinding(keys[i], attrs[keys[i]], whole)
    decreases whole, 0
  {
    hide Enc, EncBinding;
    docs := [];
    for i := 0 to |keys|
      invariant |docs| == i && forall j :: 0 <= j < i ==> docs[j] == EncBinding(keys[j], attrs[keys[j]], whole)
    {
      var doc := EncodeAttribute(keys[i], attrs[keys[i]], whole);
      docs := docs + [doc];
    }
  }

  lemma AttrsetDoc(v: Expr, keys: seq<string>, docs: seq<Doc>)
    requires v.Attrs? && v.attrs != map[] && keys == SortedKeys(v.attrs.Keys) && |docs| == |keys|
    requires forall i :: 0 <= i < |keys| ==> docs[i] == EncBinding(keys[i], v.attrs[keys[i]], v)
    ensures Enc(v) == Container("{", docs, "}", None)
  {
    hide EncBinding, SortedKeys;
    assert docs == seq(|keys|, i requires 0 <= i < |keys| => EncBinding(keys[i], v.attrs[keys[i]], v));
  }

  /** One attribute of the set `whole`. */
  method EncodeAttribute(key: string, value: Expr, ghost whole: Expr) returns (d: Doc)
    requires value < whole
    ensures d == EncBinding(key, value, whole)
    decreases value, 3
  {
    hide Compress, Nest, Dotted, Enc, EncloseNode, EncKey;
    var path, child, inner := CompressSingles(key, value);
    CompressNested(EncKey(key), inner, child);
    ChildSmaller(key, value);
    var contents := Encode(child);
    d := EncloseNode(contents, path + " = ", ";");
  }

  lemma ChildSmaller(key: string, value: Expr)
    ensures var child := Compress(EncKey(key), value).1; child == value || child < value
  {
  }
}
