/** The Python string operations the modelled code uses. */
module PyStrings {
  datatype Option<+T> = None | Some(value: T) {
    predicate IsFailure() { None? }
    function PropagateFailure<U>(): Option<U> requires None? { None }
    function Extract(): T requires Some? { value }
  }

  /** Python's `s.replace(pat, rep)`: leftmost, non-overlapping. */
  function Replace(s: string, pat: string, rep: string): string
    requires |pat| > 0
  {
    if |s| < |pat| then s
    else if s[..|pat|] == pat then rep + Replace(s[|pat|..], pat, rep)
    else [s[0]] + Replace(s[1..], pat, rep)
  }

  function Join(sep: string, parts: seq<string>): string {
    if parts == [] then ""
    else if |parts| == 1 then parts[0]
    else parts[0] + sep + Join(sep, parts[1..])
  }

  /** The characters at which `str.splitlines` breaks. */
  predicate IsBreak(c: char) {
    c in "\n\r\U{b}\U{c}\U{1c}\U{1d}\U{1e}\U{85}\U{2028}\U{2029}"
  }

  lemma BreakCodes(c: char)
    ensures IsBreak(c) <==> c as int in {10, 11, 12, 13, 28, 29, 30, 133, 8232, 8233}
  {
  }

  function LineLength(s: string): (n: nat)
    ensures n <= |s|
    ensures forall i :: 0 <= i < n ==> !IsBreak(s[i])
    ensures n < |s| ==> IsBreak(s[n])
  {
    if s == "" || IsBreak(s[0]) then 0 else 1 + LineLength(s[1..])
  }

  /** `s.splitlines()`: a final break starts no further line, and CRLF is one break. */
  function SplitLines(s: string): seq<string>
    decreases |s|
  {
    if s == "" then []
    else
      var n := LineLength(s);
      if n == |s| then [s]
      else if "\r\n" <= s[n..] then [s[..n]] + SplitLines(s[n + 2..])
      else [s[..n]] + SplitLines(s[n + 1..])
  }

  predicate NoBreak(line: string) {
    forall i :: 0 <= i < |line| ==> !IsBreak(line[i])
  }

  predicate NoBreaks(lines: seq<string>) {
    forall i :: 0 <= i < |lines| ==> NoBreak(lines[i])
  }

  lemma {:induction false} LinesHaveNoBreaks(s: string)
    ensures NoBreaks(SplitLines(s))
    decreases |s|
  {
    if s == "" {
      assert SplitLines(s) == [];
    } else {
      var n := LineLength(s);
      if n < |s| {
        var rest := FirstOfLines(s);
        LinesHaveNoBreaks(rest);
        hide SplitLines, NoBreak;
        assert forall line :: line in SplitLines(s) ==> line == s[..n] || line in SplitLines(rest);
      } else {
        OnlyOneLine(s);
      }
    }
  }

  lemma OnlyOneLine(s: string)
    requires s != "" && LineLength(s) == |s|
    ensures NoBreak(s) && SplitLines(s) == [s]
  {
    hide IsBreak;
  }

  lemma FirstOfLines(s: string) returns (rest: string)
    requires LineLength(s) < |s|
    ensures |rest| < |s| && NoBreak(s[..LineLength(s)]) && SplitLines(s) == [s[..LineLength(s)]] + SplitLines(rest)
  {
    var n := LineLength(s);
    BeforeBreak(s, n);
    hide IsBreak, LineLength, NoBreak;
    assert s != "";
    rest := if "\r\n" <= s[n..] then s[n + 2..] else s[n + 1..];
  }

  lemma BeforeBreak(s: string, n: nat)
    requires n == LineLength(s)
    ensures NoBreak(s[..n])
  {
    hide IsBreak;
  }
}
