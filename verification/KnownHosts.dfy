/** Rewriting ~/.ssh/known_hosts: a line is a comma-separated list of names, a space and a key. */
module KnownHosts {
  import opened PyStrings
  import opened Seqs

  // ----- Lines -----

  /** Where c first occurs, or the length of s. */
  function IndexOf(s: string, c: char): (n: nat)
    ensures n <= |s| && (n < |s| ==> s[n] == c) && forall i :: 0 <= i < n ==> s[i] != c
  {
    if s == "" || s[0] == c then 0 else 1 + IndexOf(s[1..], c)
  }

  /** `s.split(c)`. */
  function Split(s: string, c: char): (r: seq<string>)
    ensures r != []
    decreases |s|
  {
    var n := IndexOf(s, c);
    if n == |s| then [s] else [s[..n]] + Split(s[n + 1..], c)
  }

  predicate HasKey(line: string) { ' ' in line }

  function Names(line: string): seq<string> { Split(line[..IndexOf(line, ' ')], ',') }

  function KeyOf(line: string): string
    requires HasKey(line)
  {
    line[IndexOf(line, ' ') + 1..]
  }

  function Without(names: seq<string>, address: string): seq<string> {
    if names == [] then []
    else (if names[0] == address then [] else [names[0]]) + Without(names[1..], address)
  }

  /** The inner rewrite: the line without the address, or None if no name is left. */
  function RewriteLine(line: string, address: string, add: bool, key: string): Option<string> {
    if !HasKey(line) then Some(line)
    else if address !in Names(line) then Some(line)
    else if !add && key != KeyOf(line) then Some(line)
    else
      var names := Without(Names(line), address);
      if names == [] then None else Some(Join(",", names) + " " + KeyOf(line))
  }

  function RewriteLines(lines: seq<string>, address: string, add: bool, key: string): seq<string> {
    if lines == [] then []
    else
      var rest := RewriteLines(lines[1..], address, add, key);
      match RewriteLine(lines[0], address, add, key)
      case None => rest
      case Some(line) => [line] + rest
  }

  function Added(address: string, key: string): string { address + " " + key }

  function Rewritten(lines: seq<string>, address: string, add: bool, key: string): seq<string> {
    RewriteLines(lines, address, add, key) + if add then [Added(address, key)] else []
  }

  function Text(lines: seq<string>): string { Join("\n", lines + [""]) }

  /** The file; None while it does not exist. */
  class KnownHosts {
    var file: Option<string>

    function Lines(): seq<string>
      reads this
    {
      if file.None? then [] else SplitLines(file.value)
    }

    constructor (file: Option<string>)
      ensures this.file == file
    {
      this.file := file;
    }

    method Rewrite(address: string, add: bool, key: string)
      modifies this
      ensures file == Some(Text(Rewritten(old(Lines()), address, add, key)))
    {
      hide RewriteLine;
      if file.None? {
        file := Some("");
      }
      var lines := SplitLines(file.value);
      assert lines == old(Lines());
      var kept: seq<string> := [];
      for i := 0 to |lines|
        invariant kept + RewriteLines(lines[i..], address, add, key) == RewriteLines(lines, address, add, key)
      {
        var line := RewriteLine(lines[i], address, add, key);
        assert lines[i..][1..] == lines[i + 1..];
        if line.Some? {
          assert kept + ([line.value] + RewriteLines(lines[i + 1..], address, add, key)) ==
                 kept + [line.value] + RewriteLines(lines[i + 1..], address, add, key);
          kept := kept + [line.value];
        }
      }
      assert kept == RewriteLines(lines, address, add, key);
      if add {
        kept := kept + [address + " " + key];
      }
      assert kept == Rewritten(lines, address, add, key);
      file := Some(Join("\n", kept + [""]));
    }

    /** Removes exactly the pair of this address and this key. */
    method Remove(address: string, key: string)
      modifies this
      ensures file == Some(Text(Rewritten(old(Lines()), address, false, key)))
      ensures Lines() == Rewritten(old(Lines()), address, false, key)
      ensures Pairs(Lines()) == Left(Pairs(old(Lines())), address, false, key)
      ensures forall p :: p in Pairs(Lines()) <==> p in Pairs(old(Lines())) && p != (address, key)
    {
      LeftMembers(Pairs(old(Lines())), address, false, key);
      hide RewriteLines, NoBreaks, Left, Pairs, Text, SplitLines;
      OldLines(file);
      Rewrite(address, false, key);
      assert Rewritten(old(Lines()), address, false, key) == RewriteLines(old(Lines()), address, false, key);
      NoBreaksKept(old(Lines()), address, false, key);
      Rereads(Rewritten(old(Lines()), address, false, key));
      RewrittenPairs(old(Lines()), address, false, key);
    }

    /** Replaces whatever keys this address had. */
    method Add(address: string, key: string)
      modifies this
      ensures file == Some(Text(Rewritten(old(Lines()), address, true, key)))
      ensures NoBreak(address) && NoBreak(key) ==> Lines() == Rewritten(old(Lines()), address, true, key)
      ensures NoBreak(address) && NoBreak(key) && IsAddress(address) ==>
                Pairs(Lines()) == Left(Pairs(old(Lines())), address, true, key) + [(address, key)]
      ensures NoBreak(address) && NoBreak(key) && IsAddress(address) ==>
                forall p :: p in Pairs(Lines()) <==> p == (address, key) || (p in Pairs(old(Lines())) && p.0 != address)
    {
      LeftMembers(Pairs(old(Lines())), address, true, key);
      hide IsBreak, IsAddress, Rewritten;
      OldLines(file);
      Rewrite(address, true, key);
      AddKeepsBreaks(old(Lines()), address, key);
      RereadsIff(Rewritten(old(Lines()), address, true, key));
      if IsAddress(address) {
        AddPairs(old(Lines()), address, key);
      }
    }

    /** Moves a key from one address to another. */
    method Update(prev: string, address: string, key: string)
      modifies this
      ensures file == Some(Text(Updated(old(Lines()), prev, address, key)))
      ensures NoBreak(address) && NoBreak(key) ==> Lines() == Updated(old(Lines()), prev, address, key)
      ensures NoBreak(address) && NoBreak(key) && IsAddress(address) ==>
                forall p :: p in Pairs(Lines()) <==>
                  p == (address, key) || (p in Pairs(old(Lines())) && p.0 != address && p != (prev, key))
    {
      if prev != address {
        Remove(prev, key);
      }
      Add(address, key);
    }
  }

  function Updated(lines: seq<string>, prev: string, address: string, key: string): seq<string> {
    Rewritten(if prev == address then lines else Rewritten(lines, prev, false, key), address, true, key)
  }

  // ----- Reading the file back -----

  lemma {:induction false} LineLengthOf(line: string, rest: string)
    requires NoBreak(line) && (rest != "" ==> IsBreak(rest[0]))
    ensures LineLength(line + rest) == |line|
  {
    if line == "" {
      assert line + rest == rest;
    } else {
      assert (line + rest)[1..] == line[1..] + rest;
      LineLengthOf(line[1..], rest);
    }
  }

  /** The written file reads back as the written lines, if and only if no line holds a break. */
  lemma {:induction false} RereadsIff(lines: seq<string>)
    ensures SplitLines(Text(lines)) == lines <==> NoBreaks(lines)
  {
    LinesHaveNoBreaks(Text(lines));
    if NoBreaks(lines) {
      Rereads(lines);
    }
  }

  lemma {:induction false} Rereads(lines: seq<string>)
    requires NoBreaks(lines)
    ensures SplitLines(Text(lines)) == lines
  {
    if lines == [] {
      assert Text(lines) == "";
    } else {
      Rereads(lines[1..]);
      TextFirst(lines);
      RereadFirst(lines[0], Text(lines[1..]));
    }
  }

  lemma TextFirst(lines: seq<string>)
    requires lines != []
    ensures Text(lines) == lines[0] + ("\n" + Text(lines[1..]))
  {
    assert (lines + [""])[1..] == lines[1..] + [""];
  }

  lemma RereadFirst(line: string, more: string)
    requires NoBreak(line)
    ensures SplitLines(line + ("\n" + more)) == [line] + SplitLines(more)
  {
    hide LineLength;
    var all := line + ("\n" + more);
    LineLengthOf(line, "\n" + more);
    assert all[|line|..] == "\n" + more && all[|line| + 1..] == more && all[..|line|] == line;
  }

  // ----- Splitting and joining names -----

  lemma {:induction false} IndexOfConcat(a: string, b: string, c: char)
    requires c !in a
    ensures IndexOf(a + b, c) == |a| + IndexOf(b, c)
  {
    if a == "" {
      assert a + b == b;
    } else {
      assert (a + b)[1..] == a[1..] + b;
      IndexOfConcat(a[1..], b, c);
    }
  }

  lemma {:induction false} SplitParts(s: string, c: char)
    ensures forall part :: part in Split(s, c) ==> c !in part
    ensures forall part, x :: part in Split(s, c) && x in part ==> x in s
    decreases |s|
  {
    var n := IndexOf(s, c);
    if n < |s| {
      SplitParts(s[n + 1..], c);
    }
  }

  lemma {:induction false} JoinChars(parts: seq<string>, x: char)
    requires forall part :: part in parts ==> x !in part
    requires x != ','
    ensures x !in Join(",", parts)
  {
    if |parts| > 1 {
      assert parts[0] in parts;
      JoinChars(parts[1..], x);
    }
  }

  /** Splitting inverts joining. */
  lemma {:induction false} SplitJoin(parts: seq<string>)
    requires parts != [] && forall part :: part in parts ==> ',' !in part
    ensures Split(Join(",", parts), ',') == parts
  {
    assert parts[0] in parts;
    if |parts| == 1 {
      SplitOne(parts[0]);
    } else {
      SplitJoin(parts[1..]);
      SplitFirst(parts[0], Join(",", parts[1..]), Join(",", parts));
    }
  }

  lemma SplitOne(part: string)
    requires ',' !in part
    ensures Split(part, ',') == [part]
  {
    IndexOfConcat(part, "", ',');
    assert part + "" == part;
  }

  lemma SplitFirst(part: string, rest: string, all: string)
    requires ',' !in part && all == part + "," + rest
    ensures Split(all, ',') == [part] + Split(rest, ',')
  {
    hide IndexOf;
    CommaRest(rest);
    IndexOfConcat(part, "," + rest, ',');
    assert all == part + ("," + rest);
    assert all[..|part|] == part && all[|part| + 1..] == rest;
  }

  lemma CommaRest(rest: string)
    ensures IndexOf("," + rest, ',') == 0
  {
  }

  lemma {:induction false} WithoutParts(names: seq<string>, address: string)
    ensures forall n :: n in Without(names, address) <==> n in names && n != address
    ensures address !in names ==> Without(names, address) == names
  {
    if names != [] {
      WithoutParts(names[1..], address);
      assert names == [names[0]] + names[1..];
    }
  }

  /** Reading a line made of names and a key. */
  lemma MadeLine(names: seq<string>, key: string)
    requires names != [] && forall n :: n in names ==> ',' !in n && ' ' !in n
    ensures var line := Join(",", names) + " " + key;
            HasKey(line) && Names(line) == names && KeyOf(line) == key
  {
    var first := Join(",", names);
    JoinChars(names, ' ');
    assert first + " " + key == first + (" " + key);
    IndexOfConcat(first, " " + key, ' ');
    SplitJoin(names);
    assert (first + " " + key)[|first|] == ' ';
  }

  lemma NamesParts(line: string)
    ensures forall n :: n in Names(line) ==> ',' !in n && ' ' !in n
  {
    var first := line[..IndexOf(line, ' ')];
    SplitParts(first, ',');
  }

  lemma {:induction false} JoinSplit(s: string)
    ensures Join(",", Split(s, ',')) == s
    decreases |s|
  {
    var n := IndexOf(s, ',');
    if n < |s| {
      JoinSplit(s[n + 1..]);
      assert Split(s, ',')[1..] == Split(s[n + 1..], ',');
      assert s == s[..n] + "," + s[n + 1..];
    }
  }

  /** A line with a key is its names, which hold no comma and no space, joined by commas, a space and
      its key. */
  lemma LineRemade(line: string)
    ensures HasKey(line) <==> exists i :: 0 <= i < |line| && line[i] == ' '
    ensures HasKey(line) ==> line == Join(",", Names(line)) + " " + KeyOf(line)
    ensures forall n :: n in Names(line) ==> ',' !in n && ' ' !in n
  {
    var n := IndexOf(line, ' ');
    NamesParts(line);
    JoinSplit(line[..n]);
    if HasKey(line) {
      assert line == line[..n] + " " + line[n + 1..];
    }
  }

  // ----- Pairs -----

  /** What a line says: each of its names has its key. */
  function PairsOf(names: seq<string>, key: string): seq<(string, string)> {
    seq(|names|, i requires 0 <= i < |names| => (names[i], key))
  }

  function LinePairs(line: string): seq<(string, string)> {
    if HasKey(line) then PairsOf(Names(line), KeyOf(line)) else []
  }

  function Pairs(lines: seq<string>): seq<(string, string)> {
    if lines == [] then [] else LinePairs(lines[0]) + Pairs(lines[1..])
  }

  /** The pairs a rewrite leaves: adding drops the address whatever its key, removing only with it. */
  predicate Stays(p: (string, string), address: string, add: bool, key: string) {
    p.0 != address || (!add && p.1 != key)
  }

  function Left(ps: seq<(string, string)>, address: string, add: bool, key: string): seq<(string, string)> {
    if ps == [] then []
    else (if Stays(ps[0], address, add, key) then [ps[0]] else []) + Left(ps[1..], address, add, key)
  }

  lemma {:induction false} LeftMembers(ps: seq<(string, string)>, address: string, add: bool, key: string)
    ensures forall p :: p in Left(ps, address, add, key) <==>
              p in ps && (p.0 != address || (!add && p.1 != key))
  {
    if ps != [] {
      LeftMembers(ps[1..], address, add, key);
      assert ps == [ps[0]] + ps[1..];
    }
  }

  lemma {:induction false} LeftConcat(a: seq<(string, string)>, b: seq<(string, string)>, address: string, add: bool, key: string)
    ensures Left(a + b, address, add, key) == Left(a, address, add, key) + Left(b, address, add, key)
  {
    if a == [] {
      NothingLeft(address, add, key);
      assert a + b == b && [] + Left(b, address, add, key) == Left(b, address, add, key);
    } else {
      LeftConcat(a[1..], b, address, add, key);
      LeftFirst(a, address, add, key);
      LeftFirst(a + b, address, add, key);
      hide Left, Stays;
      TailOfConcat(a, b);
      AddAssoc([a[0]], Left(a[1..], address, add, key), Left(b, address, add, key));
    }
  }

  lemma TailOfConcat<T>(a: seq<T>, b: seq<T>)
    requires a != []
    ensures (a + b)[0] == a[0] && (a + b)[1..] == a[1..] + b
  {
  }

  lemma LeftFirst(ps: seq<(string, string)>, address: string, add: bool, key: string)
    requires ps != []
    ensures Left(ps, address, add, key) ==
            if Stays(ps[0], address, add, key) then [ps[0]] + Left(ps[1..], address, add, key)
            else Left(ps[1..], address, add, key)
  {
  }

  lemma {:induction false} LeftNames(names: seq<string>, k: string, address: string, add: bool, key: string)
    ensures Left(PairsOf(names, k), address, add, key) == PairsOf(if add || k == key then Without(names, address) else names, k)
  {
    if names != [] {
      LeftNames(names[1..], k, address, add, key);
      var (ps, rest) := (PairsOf(names, k), PairsOf(names[1..], k));
      assert ps == [(names[0], k)] + rest && ps[1..] == rest;
      var names' := if add || k == key then Without(names[1..], address) else names[1..];
      if Stays(ps[0], address, add, key) {
        assert PairsOf([names[0]] + names', k) == [ps[0]] + PairsOf(names', k);
        assert [names[0]] + names[1..] == names;
      }
    }
  }

  /** A rewritten line says what the line said, without the pairs that go. */
  lemma RewrittenLine(line: string, address: string, add: bool, key: string)
    ensures var r := RewriteLine(line, address, add, key);
            (if r.Some? then LinePairs(r.value) else []) == Left(LinePairs(line), address, add, key)
    ensures var r := RewriteLine(line, address, add, key);
            NoBreak(line) && r.Some? ==> NoBreak(r.value)
  {
    hide Names, KeyOf, Split, Join, Left;
    if HasKey(line) {
      LeftNames(Names(line), KeyOf(line), address, add, key);
      WithoutParts(Names(line), address);
      NamesParts(line);
      var names := Without(Names(line), address);
      if names != [] {
        MadeLine(names, KeyOf(line));
        NoBreakLine(line, names);
      }
    } else {
      NothingLeft(address, add, key);
    }
  }

  lemma NothingLeft(address: string, add: bool, key: string)
    ensures Left([], address, add, key) == []
  {
  }

  lemma NoBreakLine(line: string, names: seq<string>)
    requires HasKey(line) && forall n :: n in names ==> n in Names(line)
    ensures NoBreak(line) ==> NoBreak(Join(",", names) + " " + KeyOf(line))
  {
    if NoBreak(line) {
      var n := IndexOf(line, ' ');
      SplitParts(line[..n], ',');
      forall i | 0 <= i < |Join(",", names)|
        ensures !IsBreak(Join(",", names)[i])
      {
        JoinFrom(names, i, line);
      }
    }
  }

  lemma {:induction false} JoinFrom(parts: seq<string>, i: nat, line: string)
    requires i < |Join(",", parts)| && NoBreak(line)
    requires forall part, x :: part in parts && x in part ==> x in line
    ensures !IsBreak(Join(",", parts)[i])
  {
    assert parts[0] in parts;
    if i < |parts[0]| {
      assert parts[0][i] in line;
    } else if |parts| > 1 && i > |parts[0]| {
      JoinFrom(parts[1..], i - |parts[0]| - 1, line);
    }
  }

  lemma {:induction false} NoBreaksKept(lines: seq<string>, address: string, add: bool, key: string)
    requires NoBreaks(lines)
    ensures NoBreaks(RewriteLines(lines, address, add, key))
  {
    if lines != [] {
      NoBreaksKept(lines[1..], address, add, key);
      RewrittenLine(lines[0], address, add, key);
    }
  }

  lemma {:induction false} PairsConcat(a: seq<string>, b: seq<string>)
    ensures Pairs(a + b) == Pairs(a) + Pairs(b)
  {
    if a == [] {
      assert a + b == b;
    } else {
      assert (a + b)[1..] == a[1..] + b;
      PairsConcat(a[1..], b);
    }
  }

  lemma {:induction false} RewrittenPairs(lines: seq<string>, address: string, add: bool, key: string)
    ensures Pairs(RewriteLines(lines, address, add, key)) == Left(Pairs(lines), address, add, key)
  {
    hide RewriteLine, LinePairs, Left;
    if lines == [] {
      NothingLeft(address, add, key);
    } else {
      RewrittenPairs(lines[1..], address, add, key);
      RewrittenLine(lines[0], address, add, key);
      LeftConcat(LinePairs(lines[0]), Pairs(lines[1..]), address, add, key);
      var rest := RewriteLines(lines[1..], address, add, key);
      if RewriteLine(lines[0], address, add, key).Some? {
        PairsConcat([RewriteLine(lines[0], address, add, key).value], rest);
      }
    }
  }

  // ----- What the three operations do -----

  /** An address as ssh knows it: it can stand in a list of names. */
  predicate IsAddress(address: string) { ' ' !in address && ',' !in address }

  lemma OldLines(file: Option<string>)
    ensures NoBreaks(if file.None? then [] else SplitLines(file.value))
  {
    if file.Some? {
      LinesHaveNoBreaks(file.value);
    }
  }

  lemma AddKeepsBreaks(lines: seq<string>, address: string, key: string)
    requires NoBreaks(lines)
    ensures NoBreaks(Rewritten(lines, address, true, key)) <==> NoBreak(address) && NoBreak(key)
  {
    NoBreaksKept(lines, address, true, key);
    var r := Rewritten(lines, address, true, key);
    var line := Added(address, key);
    assert r[|r| - 1] == line;
    assert forall i :: 0 <= i < |address| ==> line[i] == address[i];
    assert forall i :: 0 <= i < |key| ==> line[|address| + 1 + i] == key[i];
  }

  lemma AddedLine(address: string, key: string)
    requires IsAddress(address)
    ensures var line := Added(address, key);
            HasKey(line) && Names(line) == [address] && KeyOf(line) == key && LinePairs(line) == [(address, key)]
  {
    MadeLine([address], key);
  }

  /** After an add the address has the new key; every other pair is as it was, in its place. */
  lemma AddPairs(lines: seq<string>, address: string, key: string)
    requires IsAddress(address)
    ensures Pairs(Rewritten(lines, address, true, key)) == Left(Pairs(lines), address, true, key) + [(address, key)]
  {
    hide RewriteLines, Left, IsAddress, LinePairs;
    AddedLine(address, key);
    RewrittenPairs(lines, address, true, key);
    PairsConcat(RewriteLines(lines, address, true, key), [Added(address, key)]);
  }

  predicate Mentions(line: string, address: string) { HasKey(line) && address in Names(line) }

  lemma {:induction false} NotMentioned(lines: seq<string>, address: string, key: string)
    ensures forall line :: line in RewriteLines(lines, address, true, key) ==> !Mentions(line, address)
  {
    hide Names, Split, Join, KeyOf;
    if lines != [] {
      NotMentioned(lines[1..], address, key);
      var line := lines[0];
      NamesParts(line);
      WithoutParts(Names(line), address);
      var names := Without(Names(line), address);
      if HasKey(line) && address in Names(line) && names != [] {
        MadeLine(names, KeyOf(line));
      }
    }
  }

  /** After an add the address is in exactly one line, the last, and there with the given key. */
  lemma AddedOnce(lines: seq<string>, address: string, key: string)
    requires IsAddress(address)
    ensures var r := Rewritten(lines, address, true, key);
            && (forall i :: 0 <= i < |r| ==> (Mentions(r[i], address) <==> i == |r| - 1))
            && Names(r[|r| - 1]) == [address] && KeyOf(r[|r| - 1]) == key
  {
    hide Names, KeyOf, RewriteLines;
    NotMentioned(lines, address, key);
    AddedLine(address, key);
    var r := Rewritten(lines, address, true, key);
    forall i | 0 <= i < |r| - 1
      ensures !Mentions(r[i], address)
    {
      assert r[i] in RewriteLines(lines, address, true, key);
    }
  }

  lemma {:induction false} UnmentionedStay(lines: seq<string>, address: string, add: bool, key: string)
    requires forall line :: line in lines ==> !Mentions(line, address)
    ensures RewriteLines(lines, address, add, key) == lines
  {
    hide Names;
    if lines != [] {
      assert lines[0] in lines;
      UnmentionedStay(lines[1..], address, add, key);
    }
  }

  lemma {:induction false} RewriteConcat(a: seq<string>, b: seq<string>, address: string, add: bool, key: string)
    ensures RewriteLines(a + b, address, add, key) == RewriteLines(a, address, add, key) + RewriteLines(b, address, add, key)
  {
    hide RewriteLine;
    if a == [] {
      assert a + b == b;
    } else {
      assert (a + b)[1..] == a[1..] + b;
      RewriteConcat(a[1..], b, address, add, key);
    }
  }

  /** Adding twice is adding once, if and only if the address can stand in a list of names. */
  lemma AddTwiceIff(lines: seq<string>, address: string, key: string)
    ensures var once := Rewritten(lines, address, true, key);
            Rewritten(once, address, true, key) == once <==> IsAddress(address)
  {
    hide Names, KeyOf, IsAddress;
    var kept := RewriteLines(lines, address, true, key);
    var line := Added(address, key);
    NotMentioned(lines, address, key);
    UnmentionedStay(kept, address, true, key);
    RewriteConcat(kept, [line], address, true, key);
    assert RewriteLines([line][1..], address, true, key) == [];
    if IsAddress(address) {
      AddedLine(address, key);
      assert Without([address], address) == [];
    } else {
      NotAName(line, address);
    }
  }

  lemma NotAName(line: string, address: string)
    requires !IsAddress(address)
    ensures address !in Names(line)
  {
    NamesParts(line);
  }

  /** A line is left as it is, if and only if none of its pairs goes. */
  lemma LineKeptIff(line: string, address: string, add: bool, key: string)
    ensures RewriteLine(line, address, add, key) == Some(line) <==>
            forall p :: p in LinePairs(line) ==> Stays(p, address, add, key)
  {
    hide RewriteLine, LinePairs, Left;
    RewrittenLine(line, address, add, key);
    LeftAllIff(LinePairs(line), address, add, key);
    if forall p :: p in LinePairs(line) ==> Stays(p, address, add, key) {
      StayingKept(line, address, add, key);
    }
  }

  lemma StayingKept(line: string, address: string, add: bool, key: string)
    requires forall p :: p in LinePairs(line) ==> Stays(p, address, add, key)
    ensures RewriteLine(line, address, add, key) == Some(line)
  {
    hide Names, KeyOf, Split, Join;
    if HasKey(line) && address in Names(line) {
      var i :| 0 <= i < |Names(line)| && Names(line)[i] == address;
      assert LinePairs(line)[i] == (address, KeyOf(line));
      assert Stays((address, KeyOf(line)), address, add, key);
    }
  }

  lemma {:induction false} LeftAllIff(ps: seq<(string, string)>, address: string, add: bool, key: string)
    ensures |Left(ps, address, add, key)| <= |ps|
    ensures Left(ps, address, add, key) == ps <==> forall p :: p in ps ==> Stays(p, address, add, key)
  {
    if ps != [] {
      LeftAllIff(ps[1..], address, add, key);
      assert ps == [ps[0]] + ps[1..];
    }
  }

  /** Moving a key: the old pair goes, the address has the key, the rest keeps its order. */
  lemma UpdatePairs(lines: seq<string>, prev: string, address: string, key: string)
    requires IsAddress(address)
    ensures Pairs(Updated(lines, prev, address, key)) ==
            Left(if prev == address then Pairs(lines) else Left(Pairs(lines), prev, false, key), address, true, key) + [(address, key)]
  {
    hide IsAddress, Left, RewriteLines;
    var mid := Rewritten(lines, prev, false, key);
    RewrittenPairs(lines, prev, false, key);
    assert mid == RewriteLines(lines, prev, false, key);
    AddPairs(if prev == address then lines else mid, address, key);
  }
}
