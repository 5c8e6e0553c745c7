/** The output of a process, cut into reads at arbitrary places, becomes prefixed lines of the log:
    the read loop of `logged_exec` over the logger. */
module Logging {
  import opened PyStrings
  import opened Seqs

  // ----- The logger -----

  /** `last` is the prefix of the unfinished line the log ends in, if it ends in one. */
  datatype LogState = LogState(last: Option<string>, text: string)

  /** What ends the unfinished line, if there is one. */
  function Break(last: Option<string>): string {
    if last.Some? then "\n" else ""
  }

  function Logged(s: LogState, msg: string): LogState {
    LogState(None, s.text + Break(s.last) + msg + "\n")
  }

  function Started(s: LogState, prefix: string, msg: string): LogState {
    LogState(Some(prefix), s.text + (if s.last == Some(prefix) then "" else Break(s.last) + prefix) + msg)
  }

  function Ended(s: LogState, prefix: string, msg: string): LogState {
    if s.last == Some(prefix) then LogState(None, s.text + msg + "\n")
    else if msg == "" then LogState(None, s.text + Break(s.last))
    else LogState(None, s.text + Break(s.last) + prefix + msg + "\n")
  }

  class Logger {
    var lastLogPrefix: Option<string>
    var logFile: string

    function State(): LogState
      reads this
    {
      LogState(lastLogPrefix, logFile)
    }

    constructor ()
      ensures State() == LogState(None, "")
    {
      lastLogPrefix, logFile := None, "";
    }

    method Log(msg: string)
      modifies this
      ensures State() == Logged(old(State()), msg)
      ensures lastLogPrefix.None?
      ensures logFile == old(logFile) + (if old(lastLogPrefix).Some? then "\n" else "") + msg + "\n"
    {
      if lastLogPrefix.Some? {
        logFile := logFile + "\n";
        lastLogPrefix := None;
      }
      logFile := logFile + (msg + "\n");
      assert old(logFile) + Break(old(lastLogPrefix)) + msg + "\n" == logFile;
    }

    method LogStart(prefix: string, msg: string)
      modifies this
      ensures State() == Started(old(State()), prefix, msg)
      ensures lastLogPrefix == Some(prefix)
      ensures old(lastLogPrefix) == Some(prefix) ==> logFile == old(logFile) + msg
      ensures old(lastLogPrefix).None? ==> logFile == old(logFile) + prefix + msg
      ensures old(lastLogPrefix).Some? && old(lastLogPrefix) != Some(prefix) ==> logFile == old(logFile) + "\n" + prefix + msg
    {
      if lastLogPrefix != Some(prefix) {
        if lastLogPrefix.Some? {
          logFile := logFile + "\n";
        }
        logFile := logFile + prefix;
      }
      logFile := logFile + msg;
      lastLogPrefix := Some(prefix);
      assert State().text == Started(old(State()), prefix, msg).text;
    }

    method LogEnd(prefix: string, msg: string)
      modifies this
      ensures State() == Ended(old(State()), prefix, msg)
      ensures lastLogPrefix.None?
      ensures old(lastLogPrefix) == Some(prefix) ==> logFile == old(logFile) + msg + "\n"
      ensures old(lastLogPrefix).None? ==> logFile == old(logFile) + if msg == "" then "" else prefix + msg + "\n"
      ensures old(lastLogPrefix).Some? && old(lastLogPrefix) != Some(prefix) ==>
                logFile == old(logFile) + "\n" + if msg == "" then "" else prefix + msg + "\n"
    {
      var last := lastLogPrefix;
      lastLogPrefix := None;
      if last != Some(prefix) {
        if last.Some? {
          logFile := logFile + "\n";
        }
        if msg == "" {
          assert logFile == old(logFile) + Break(last);
          return;
        }
        logFile := logFile + prefix;
      }
      logFile := logFile + (msg + "\n");
      assert State().text == Ended(old(State()), prefix, msg).text;
    }
  }

  // ----- Lines of several writers -----

  predicate OneLine(s: string) { '\n' !in s }

  predicate Finished(text: string) { text == "" || text[|text| - 1] == '\n' }

  /** All lines are finished, or the last one began with its prefix and is not. */
  ghost predicate LinesKept(s: LogState) {
    match s.last
    case None => Finished(s.text)
    case Some(prefix) =>
      exists before, rest :: s.text == before + (prefix + rest) && OneLine(prefix + rest) && Finished(before)
  }

  /** Whoever writes, with whatever prefix: a message goes on with the unfinished line of its own
      prefix or begins a line of its own, so no line mixes two prefixes. */
  lemma WritersKeepLines(s: LogState, prefix: string, msg: string)
    requires LinesKept(s) && OneLine(prefix) && OneLine(msg)
    ensures LinesKept(Logged(s, msg)) && LinesKept(Started(s, prefix, msg)) && LinesKept(Ended(s, prefix, msg))
  {
    EndsLine(s.text + Break(s.last) + msg);
    EndsLine(s.text + msg);
    EndsLine(s.text + Break(s.last) + prefix + msg);
    BrokenLine(s);
    StartKeepsLines(s, prefix, msg);
    hide LinesKept, Started, Break;
  }

  lemma StartKeepsLines(s: LogState, prefix: string, msg: string)
    requires LinesKept(s) && OneLine(prefix) && OneLine(msg)
    ensures LinesKept(Started(s, prefix, msg))
  {
    BrokenLine(s);
    if s.last == Some(prefix) {
      var before, rest :| s.text == before + (prefix + rest) && OneLine(prefix + rest) && Finished(before);
      OnSameLine(s.text, before, prefix, rest, msg);
    } else {
      OnNewLine(s.text + Break(s.last), prefix, msg);
      AddAssoc(s.text, Break(s.last), prefix);
    }
  }

  lemma OnSameLine(text: string, before: string, prefix: string, rest: string, msg: string)
    requires text == before + (prefix + rest) && OneLine(prefix + rest) && Finished(before) && OneLine(msg)
    ensures LinesKept(LogState(Some(prefix), text + "" + msg))
  {
    assert text + "" + msg == before + (prefix + (rest + msg));
    assert prefix + (rest + msg) == (prefix + rest) + msg;
  }

  lemma OnNewLine(before: string, prefix: string, msg: string)
    requires Finished(before) && OneLine(prefix) && OneLine(msg)
    ensures LinesKept(LogState(Some(prefix), before + prefix + msg))
  {
    assert before + prefix + msg == before + (prefix + msg);
  }

  lemma EndsLine(text: string)
    ensures LinesKept(LogState(None, text + "\n"))
  {
  }

  lemma BrokenLine(s: LogState)
    requires LinesKept(s)
    ensures LinesKept(LogState(None, s.text + Break(s.last))) && Finished(s.text + Break(s.last))
  {
    if s.last.None? {
      assert s.text + "" == s.text;
    }
  }

  // ----- The read loop -----

  /** Where the next line break is, or the length of s. */
  function NextBreak(s: string): (n: nat)
    ensures n <= |s| && (n < |s| ==> s[n] == '\n') && forall i :: 0 <= i < n ==> s[i] != '\n'
  {
    if s == "" || s[0] == '\n' then 0 else 1 + NextBreak(s[1..])
  }

  /** The log and `at_new_line` between reads. */
  datatype Reader = Reader(log: LogState, atNewLine: bool)

  /** What one nonempty read does. */
  function Fed(r: Reader, prefix: string, data: string): Reader
    decreases |data|
  {
    var n := NextBreak(data);
    if data == "" then r
    else if n == |data| then Reader(Started(r.log, prefix, data), false)
    else Fed(Line(r, prefix, data[..n]), prefix, data[n + 1..])
  }

  /** What one line read to its end does. */
  function Line(r: Reader, prefix: string, line: string): Reader {
    Reader(if r.atNewLine then Logged(r.log, prefix + line) else Ended(r.log, prefix, line), true)
  }

  function FedAll(r: Reader, prefix: string, chunks: seq<string>): Reader {
    if chunks == [] then r
    else Fed(FedAll(r, prefix, chunks[..|chunks| - 1]), prefix, chunks[|chunks| - 1])
  }

  function AtEnd(r: Reader, prefix: string): LogState {
    if r.atNewLine then r.log else Ended(r.log, prefix, "")
  }

  datatype Read = Stdout(data: string) | LogFd(data: string)

  /** Reads as select() allows them: an empty read ends its descriptor. */
  predicate Possible(rs: seq<Read>, captureStdout: bool) {
    && (forall i, j :: 0 <= i < j < |rs| && rs[i].data == "" ==> rs[i].Stdout? != rs[j].Stdout?)
    && (!captureStdout ==> forall i :: 0 <= i < |rs| ==> rs[i].LogFd?)
  }

  function LogChunks(rs: seq<Read>): seq<string> {
    if rs == [] then []
    else
      var n := |rs| - 1;
      LogChunks(rs[..n]) + if rs[n].LogFd? && rs[n].data != "" then [rs[n].data] else []
  }

  function StdoutText(rs: seq<Read>): string {
    if rs == [] then ""
    else
      var n := |rs| - 1;
      StdoutText(rs[..n]) + if rs[n].Stdout? then rs[n].data else ""
  }

  /** One read of the log descriptor: the loop over its lines. */
  method FeedLogger(logger: Logger, prefix: string, data: string, atNewLine: bool) returns (atNewLine': bool)
    requires data != ""
    modifies logger
    ensures Reader(logger.State(), atNewLine') == Fed(Reader(old(logger.State()), atNewLine), prefix, data)
  {
    hide Logged, Started, Ended, Fed, NextBreak;
    var start := 0;
    atNewLine' := atNewLine;
    ghost var all := Fed(Reader(logger.State(), atNewLine), prefix, data);
    assert data[0..] == data;
    while start < |data|
      invariant start <= |data|
      invariant Fed(Reader(logger.State(), atNewLine'), prefix, data[start..]) == all
    {
      FedUnfold(Reader(logger.State(), atNewLine'), prefix, data[start..]);
      var n := NextBreak(data[start..]);
      if start + n == |data| {
        logger.LogStart(prefix, data[start..]);
        return false;
      }
      var end := start + n;
      var s := data[start..end];
      assert s == data[start..][..n] && data[start..][n + 1..] == data[end + 1..];
      if atNewLine' {
        logger.Log(prefix + s);
      } else {
        logger.LogEnd(prefix, s);
      }
      atNewLine' := true;
      start := end + 1;
    }
    FedUnfold(Reader(logger.State(), atNewLine'), prefix, data[start..]);
  }

  /** Fed, one line at a time. */
  lemma FedUnfold(r: Reader, prefix: string, data: string)
    ensures var n := NextBreak(data);
            Fed(r, prefix, data) ==
            if data == "" then r
            else if n == |data| then Reader(Started(r.log, prefix, data), false)
            else Fed(Line(r, prefix, data[..n]), prefix, data[n + 1..])
  {
    hide NextBreak, Started, Line;
  }

  /** The loop of logged_exec over everything that can be read.  Returns the captured output and
      whether the log descriptor was read to its end; if not, the process had exited before. */
  method ReadOutput(logger: Logger, prefix: string, rs: seq<Read>, captureStdout: bool) returns (stdout: string, ended: bool)
    requires Possible(rs, captureStdout)
    modifies logger
    ensures stdout == StdoutText(rs)
    ensures ended <==> LogFd("") in rs
    ensures var last := FedAll(Reader(old(logger.State()), true), prefix, LogChunks(rs));
            logger.State() == if ended then AtEnd(last, prefix) else last.log
  {
    hide Fed, FedAll, Ended, NextBreak, LogChunks, StdoutText, Possible;
    var atNewLine := true;
    stdout := "";
    var stdoutOpen, logOpen := captureStdout, true;
    var i := 0;
    ghost var start := Reader(logger.State(), true);
    NothingRead(start, prefix);
    assert rs[..0] == [];
    while (stdoutOpen || logOpen) && i < |rs|
      invariant i <= |rs|
      invariant stdout == StdoutText(rs[..i])
      invariant logOpen <==> LogFd("") !in rs[..i]
      invariant stdoutOpen <==> captureStdout && Stdout("") !in rs[..i]
      invariant var last := FedAll(start, prefix, LogChunks(rs[..i]));
                if logOpen then last == Reader(logger.State(), atNewLine) else logger.State() == AtEnd(last, prefix)
    {
      var data := rs[i].data;
      NextRead(rs, i);
      StillOpen(rs, captureStdout, i);
      if rs[i].Stdout? {
        if data == "" {
          stdoutOpen := false;
        } else {
          stdout := stdout + data;
        }
      } else if data == "" {
        if !atNewLine {
          logger.LogEnd(prefix, "");
        }
        logOpen := false;
      } else {
        FedNext(start, prefix, LogChunks(rs[..i]), data);
        atNewLine := FeedLogger(logger, prefix, data, atNewLine);
      }
      i := i + 1;
    }
    ended := !logOpen;
    StillOpen(rs, captureStdout, i);
    assert rs[..i] == rs;
  }

  lemma NothingRead(r: Reader, prefix: string)
    ensures FedAll(r, prefix, LogChunks([])) == r && StdoutText([]) == ""
  {
  }

  lemma NextRead(rs: seq<Read>, i: nat)
    requires i < |rs|
    ensures LogChunks(rs[..i + 1]) ==
            if rs[i].LogFd? && rs[i].data != "" then LogChunks(rs[..i]) + [rs[i].data] else LogChunks(rs[..i])
    ensures StdoutText(rs[..i + 1]) ==
            if rs[i].Stdout? && rs[i].data != "" then StdoutText(rs[..i]) + rs[i].data else StdoutText(rs[..i])
    ensures forall r :: r in rs[..i + 1] <==> r in rs[..i] || r == rs[i]
  {
    assert rs[..i + 1][..i] == rs[..i] && rs[..i + 1] == rs[..i] + [rs[i]];
  }

  lemma FedNext(r: Reader, prefix: string, chunks: seq<string>, data: string)
    ensures FedAll(r, prefix, chunks + [data]) == Fed(FedAll(r, prefix, chunks), prefix, data)
  {
    hide Fed;
    assert (chunks + [data])[..|chunks|] == chunks;
  }

  /** A descriptor that can still be read has not ended. */
  lemma StillOpen(rs: seq<Read>, captureStdout: bool, i: nat)
    requires Possible(rs, captureStdout)
    ensures i < |rs| && rs[i].LogFd? ==> LogFd("") !in rs[..i]
    ensures i < |rs| && rs[i].Stdout? ==> captureStdout && Stdout("") !in rs[..i]
  {
  }

  // ----- What the log should say -----

  /** Every line of out with the prefix before it, an unfinished one as well. */
  function Render(out: string, prefix: string): string
    decreases |out|
  {
    var n := NextBreak(out);
    if out == "" then ""
    else if n == |out| then prefix + out
    else prefix + out[..n] + "\n" + Render(out[n + 1..], prefix)
  }

  /** The unfinished last line of out. */
  function Tail(out: string): string
    decreases |out|
  {
    var n := NextBreak(out);
    if n == |out| then out else Tail(out[n + 1..])
  }

  /** The reader after out, however it was read, when the log had no unfinished line. */
  function After(base: string, prefix: string, out: string): Reader {
    Reader(LogState(if Tail(out) == "" then None else Some(prefix), base + Render(out, prefix)), Tail(out) == "")
  }

  function Concat(chunks: seq<string>): string {
    if chunks == [] then "" else Concat(chunks[..|chunks| - 1]) + chunks[|chunks| - 1]
  }

  lemma {:induction false} NextBreakConcat(a: string, b: string)
    ensures NextBreak(a + b) == if NextBreak(a) < |a| then NextBreak(a) else |a| + NextBreak(b)
  {
    if a == "" {
      assert a + b == b;
    } else {
      assert (a + b)[1..] == a[1..] + b;
      NextBreakConcat(a[1..], b);
    }
  }

  lemma FirstLine(out: string, prefix: string)
    requires NextBreak(out) < |out|
    ensures var n := NextBreak(out);
            && Render(out, prefix) == prefix + out[..n] + "\n" + Render(out[n + 1..], prefix)
            && Tail(out) == Tail(out[n + 1..])
  {
    hide NextBreak;
  }

  lemma OnlyLine(out: string, prefix: string)
    requires NextBreak(out) == |out|
    ensures Render(out, prefix) == (if out == "" then "" else prefix + out) && Tail(out) == out
  {
    hide NextBreak;
  }

  lemma Regroup(a: string, b: string, c: string, d: string)
    ensures a + (b + c + d) == a + b + c + d
  {
  }

  lemma SplitBefore(a: string, b: string, n: nat)
    requires n < |a|
    ensures (a + b)[n + 1..] == a[n + 1..] + b && (a + b)[..n] == a[..n]
  {
  }

  /** What goes before a piece: the prefix, unless a line is unfinished. */
  function Lead(out: string, prefix: string): string {
    if Tail(out) == "" then prefix else ""
  }

  /** Appending a piece without a break. */
  lemma {:induction false} AppendPiece(out: string, prefix: string, piece: string)
    requires NextBreak(piece) == |piece| && piece != ""
    ensures Tail(out + piece) == Tail(out) + piece
    ensures Render(out + piece, prefix) == Render(out, prefix) + Lead(out, prefix) + piece
    decreases |out|
  {
    hide Render, Tail, NextBreak, Lead;
    var n := NextBreak(out);
    NextBreakConcat(out, piece);
    if n == |out| {
      PieceAlone(out, prefix, piece);
    } else {
      var rest := out[n + 1..];
      SplitBefore(out, piece, n);
      FirstLine(out, prefix);
      FirstLine(out + piece, prefix);
      AppendPiece(rest, prefix, piece);
      SameLead(out, rest, prefix);
      Regroup(prefix + out[..n] + "\n", Render(rest, prefix), Lead(out, prefix), piece);
    }
  }

  lemma SameLead(out: string, rest: string, prefix: string)
    requires Tail(out) == Tail(rest)
    ensures Lead(out, prefix) == Lead(rest, prefix)
  {
  }

  lemma PieceAlone(out: string, prefix: string, piece: string)
    requires NextBreak(out) == |out| && NextBreak(out + piece) == |out + piece| && piece != ""
    ensures Tail(out + piece) == Tail(out) + piece
    ensures Render(out + piece, prefix) == Render(out, prefix) + Lead(out, prefix) + piece
  {
    hide Render, Tail, NextBreak;
    OnlyLine(out, prefix);
    OnlyLine(out + piece, prefix);
    if out == "" {
      assert out + piece == piece && "" + prefix + piece == prefix + piece;
    } else {
      assert prefix + out + "" + piece == prefix + (out + piece);
    }
  }

  /** Appending the end of a line. */
  lemma {:induction false} AppendLine(out: string, prefix: string, line: string, end: string)
    requires NextBreak(line) == |line| && end == line + "\n"
    ensures Tail(out + end) == ""
    ensures Render(out + end, prefix) == Render(out, prefix) + Lead(out, prefix) + end
    decreases |out|
  {
    BreakAtEnd(out, line);
    hide Render, Tail, NextBreak, Lead;
    var n := NextBreak(out);
    if n == |out| {
      LineAlone(out + end, out, prefix, line);
    } else {
      AppendLine(out[n + 1..], prefix, line, end);
      LineLater(out, prefix, end, n, out[n + 1..]);
    }
  }

  lemma LineLater(out: string, prefix: string, end: string, n: nat, rest: string)
    requires n == NextBreak(out) == NextBreak(out + end) < |out| && rest == out[n + 1..]
    requires Tail(rest + end) == "" && Render(rest + end, prefix) == Render(rest, prefix) + Lead(rest, prefix) + end
    ensures Tail(out + end) == "" && Render(out + end, prefix) == Render(out, prefix) + Lead(out, prefix) + end
  {
    hide Render, Tail, NextBreak, Lead;
    SplitBefore(out, end, n);
    FirstLine(out, prefix);
    FirstLine(out + end, prefix);
    SameLead(out, rest, prefix);
    Regroup(prefix + out[..n] + "\n", Render(rest, prefix), Lead(out, prefix), end);
  }

  lemma LineAlone(all: string, out: string, prefix: string, line: string)
    requires all == out + (line + "\n") && NextBreak(all) == |out| + |line|
    requires NextBreak(out) == |out| && NextBreak("") == 0
    ensures Tail(all) == "" && Render(all, prefix) == Render(out, prefix) + Lead(out, prefix) + (line + "\n")
  {
    hide Render, Tail, NextBreak;
    OnlyLine(out, prefix);
    OnlyLine("", prefix);
    FirstLine(all, prefix);
    LineEnds(all, out + line, out, line);
    LineText(out, prefix, line);
  }

  lemma LineEnds(all: string, text: string, out: string, line: string)
    requires text == out + line && all == out + (line + "\n")
    ensures all[..|text|] == text && all[|text| + 1..] == ""
  {
  }

  lemma LineText(out: string, prefix: string, line: string)
    ensures prefix + (out + line) + "\n" + "" ==
            (if out == "" then "" else prefix + out) + (if out == "" then prefix else "") + (line + "\n")
  {
    if out == "" {
      assert out + line == line;
      assert prefix + line + "\n" + "" == "" + prefix + (line + "\n");
    } else {
      assert prefix + (out + line) + "\n" + "" == prefix + out + "" + (line + "\n");
    }
  }

  lemma BreakAtEnd(out: string, line: string)
    requires NextBreak(line) == |line|
    ensures NextBreak("") == 0
    ensures NextBreak(out + (line + "\n")) == if NextBreak(out) < |out| then NextBreak(out) else |out| + |line|
  {
    NextBreakConcat(line, "\n");
    NextBreakConcat(out, line + "\n");
  }

  /** A read carries the reader from what was read before to what has been read now. */
  lemma {:induction false} FedAfter(base: string, prefix: string, out: string, data: string)
    ensures Fed(After(base, prefix, out), prefix, data) == After(base, prefix, out + data)
    decreases |data|
  {
    hide Render, Tail, NextBreak, Fed, After, Started, Line;
    var n := NextBreak(data);
    FedUnfold(After(base, prefix, out), prefix, data);
    if data == "" {
      assert out + data == out;
    } else if n == |data| {
      PieceFed(base, prefix, out, data);
    } else {
      var line := data[..n];
      PlainPrefix(data);
      LineFed(base, prefix, out, line);
      LineAndRest(out, data, n);
      FedAfter(base, prefix, out + (line + "\n"), data[n + 1..]);
    }
  }

  lemma LineAndRest(out: string, data: string, n: nat)
    requires n < |data| && data[n] == '\n'
    ensures out + data == out + (data[..n] + "\n") + data[n + 1..]
  {
    assert data == data[..n] + "\n" + data[n + 1..];
  }

  lemma PieceFed(base: string, prefix: string, out: string, piece: string)
    requires NextBreak(piece) == |piece| && piece != ""
    ensures Reader(Started(After(base, prefix, out).log, prefix, piece), false) == After(base, prefix, out + piece)
  {
    hide Render, Tail, NextBreak, Started;
    AppendPiece(out, prefix, piece);
    var r := Render(out, prefix);
    StartedAfter(base, r, prefix, piece);
  }

  lemma StartedAfter(base: string, r: string, prefix: string, piece: string)
    ensures Started(LogState(None, base + r), prefix, piece) == LogState(Some(prefix), base + (r + prefix + piece))
    ensures Started(LogState(Some(prefix), base + r), prefix, piece) == LogState(Some(prefix), base + (r + "" + piece))
  {
    assert base + r + ("" + prefix) + piece == base + (r + prefix + piece);
    assert base + r + "" + piece == base + (r + "" + piece);
  }

  lemma {:induction false} PlainPrefix(data: string)
    ensures NextBreak(data[..NextBreak(data)]) == NextBreak(data)
  {
  }

  lemma LineFed(base: string, prefix: string, out: string, line: string)
    requires NextBreak(line) == |line|
    ensures Line(After(base, prefix, out), prefix, line) == After(base, prefix, out + (line + "\n"))
  {
    hide Render, Tail, NextBreak, Logged, Ended;
    AppendLine(out, prefix, line, line + "\n");
    var r := Render(out, prefix);
    if Tail(out) == "" {
      LoggedText(base, r, prefix, line);
    } else {
      EndedText(base, r, prefix, line);
    }
  }

  lemma LoggedText(base: string, r: string, prefix: string, line: string)
    ensures Logged(LogState(None, base + r), prefix + line) == LogState(None, base + (r + prefix + (line + "\n")))
  {
    assert base + r + "" + (prefix + line) + "\n" == base + (r + prefix + (line + "\n"));
  }

  lemma EndedText(base: string, r: string, prefix: string, line: string)
    ensures Ended(LogState(Some(prefix), base + r), prefix, line) == LogState(None, base + (r + "" + (line + "\n")))
  {
    assert base + r + line + "\n" == base + (r + "" + (line + "\n"));
  }

  /** The first read starts a new line of the log, or goes on with the one the log ends in. */
  predicate StartsAfresh(last: Option<string>, prefix: string, chunks: seq<string>) {
    last != Some(prefix) || chunks == [] || '\n' in chunks[0]
  }

  /** What the log should be: its text, then the rendered lines; the last line is finished at the
      end of the output. */
  function Expected(s: LogState, prefix: string, out: string, ended: bool): LogState {
    if out == "" then s
    else
      var open := Tail(out) != "";
      LogState(if open && !ended then Some(prefix) else None,
               s.text + Break(s.last) + Render(out, prefix) + if open && ended then "\n" else "")
  }

  ghost predicate AllNonempty(chunks: seq<string>) {
    forall i :: 0 <= i < |chunks| ==> chunks[i] != ""
  }

  lemma {:induction false} FirstRead(s: LogState, prefix: string, data: string)
    requires data != ""
    ensures s.last != Some(prefix) || '\n' in data ==>
              Fed(Reader(s, true), prefix, data) == After(s.text + Break(s.last), prefix, data)
    ensures s.last == Some(prefix) && '\n' !in data ==>
              Fed(Reader(s, true), prefix, data) == Reader(LogState(Some(prefix), s.text + data), false)
  {
    hide After, Render, Tail, NextBreak, Fed;
    var n := NextBreak(data);
    var base := s.text + Break(s.last);
    var clean := Reader(LogState(None, base), true);
    FedAfter(base, prefix, "", data);
    assert "" + data == data;
    NothingYet(base, prefix);
    FedUnfold(Reader(s, true), prefix, data);
    FedUnfold(clean, prefix, data);
    BreakIff(data);
    if n < |data| {
      assert Line(Reader(s, true), prefix, data[..n]) == Line(clean, prefix, data[..n]) by {
        assert base + "" == base;
      }
    } else {
      StartedText(s, prefix, data);
    }
  }

  lemma StartedText(s: LogState, prefix: string, data: string)
    ensures s.last != Some(prefix) ==>
              Started(s, prefix, data) == Started(LogState(None, s.text + Break(s.last)), prefix, data)
    ensures s.last == Some(prefix) ==> Started(s, prefix, data) == LogState(Some(prefix), s.text + data)
  {
    assert s.text + (Break(s.last) + prefix) + data == s.text + Break(s.last) + ("" + prefix) + data;
    assert s.text + "" == s.text;
  }

  lemma BreakIff(data: string)
    ensures NextBreak(data) < |data| <==> '\n' in data
  {
  }

  lemma NothingYet(base: string, prefix: string)
    ensures After(base, prefix, "") == Reader(LogState(None, base), true)
  {
  }

  lemma {:induction false} AllAfter(s: LogState, prefix: string, chunks: seq<string>)
    requires AllNonempty(chunks) && chunks != [] && StartsAfresh(s.last, prefix, chunks)
    ensures FedAll(Reader(s, true), prefix, chunks) == After(s.text + Break(s.last), prefix, Concat(chunks))
    ensures Concat(chunks) != ""
    decreases |chunks|
  {
    hide Fed, After;
    var n := |chunks| - 1;
    if n == 0 {
      FirstRead(s, prefix, chunks[0]);
      assert chunks[..0] == [] && Concat(chunks) == "" + chunks[0] == chunks[0];
    } else {
      AllAfter(s, prefix, chunks[..n]);
      FedAfter(s.text + Break(s.last), prefix, Concat(chunks[..n]), chunks[n]);
    }
  }

  function Outcome(s: LogState, prefix: string, chunks: seq<string>, ended: bool): LogState {
    var r := FedAll(Reader(s, true), prefix, chunks);
    if ended then AtEnd(r, prefix) else r.log
  }

  lemma {:induction false} FedGrows(r: Reader, prefix: string, data: string)
    ensures r.log.text <= Fed(r, prefix, data).log.text
    decreases |data|
  {
    hide NextBreak;
    var n := NextBreak(data);
    if data != "" && n < |data| {
      var line := data[..n];
      FedGrows(Line(r, prefix, line), prefix, data[n + 1..]);
    }
  }

  lemma {:induction false} AllGrows(s: LogState, prefix: string, chunks: seq<string>)
    requires chunks != []
    ensures Fed(Reader(s, true), prefix, chunks[0]).log.text <= FedAll(Reader(s, true), prefix, chunks).log.text
    decreases |chunks|
  {
    hide Fed;
    var n := |chunks| - 1;
    if n == 0 {
      assert chunks[..0] == [];
    } else {
      AllGrows(s, prefix, chunks[..n]);
      FedGrows(FedAll(Reader(s, true), prefix, chunks[..n]), prefix, chunks[n]);
    }
  }

  /** The log says what it should of the whole output, however it was cut into reads, if and only if
      the log did not end in an unfinished line of the same prefix that the first read goes on with. */
  lemma ChunkInvariance(s: LogState, prefix: string, chunks: seq<string>, ended: bool)
    requires AllNonempty(chunks)
    ensures Outcome(s, prefix, chunks, ended) == Expected(s, prefix, Concat(chunks), ended) <==>
            StartsAfresh(s.last, prefix, chunks)
  {
    hide Fed, Render, Tail;
    if chunks == [] {
    } else if StartsAfresh(s.last, prefix, chunks) {
      AllAfter(s, prefix, chunks);
    } else {
      FirstRead(s, prefix, chunks[0]);
      AllGrows(s, prefix, chunks);
      var text := Outcome(s, prefix, chunks, ended).text;
      assert s.text + chunks[0] <= text;
      assert text[|s.text|] == chunks[0][0];
      NonemptyConcat(chunks);
      assert Expected(s, prefix, Concat(chunks), ended).text[|s.text|] == '\n';
    }
  }

  lemma {:induction false} NonemptyConcat(chunks: seq<string>)
    requires AllNonempty(chunks) && chunks != []
    ensures Concat(chunks) != ""
  {
  }

  /** So two ways of cutting the same output give the same log. */
  lemma SameOutputSameLog(s: LogState, prefix: string, chunks: seq<string>, chunks': seq<string>, ended: bool)
    requires AllNonempty(chunks) && AllNonempty(chunks') && Concat(chunks) == Concat(chunks')
    requires StartsAfresh(s.last, prefix, chunks) && StartsAfresh(s.last, prefix, chunks')
    ensures Outcome(s, prefix, chunks, ended) == Outcome(s, prefix, chunks', ended)
  {
    ChunkInvariance(s, prefix, chunks, ended);
    ChunkInvariance(s, prefix, chunks', ended);
  }

  // ----- Which outputs can be cut anywhere -----

  lemma {:induction false} FirstChunk(chunks: seq<string>)
    requires chunks != []
    ensures chunks[0] <= Concat(chunks)
    decreases |chunks|
  {
    if |chunks| == 1 {
      assert chunks[..0] == [] && Concat(chunks) == "" + chunks[0] == chunks[0];
    } else {
      FirstChunk(chunks[..|chunks| - 1]);
    }
  }

  /** Without a break the log only gets longer. */
  lemma {:induction false} UnbrokenAll(s: LogState, prefix: string, chunks: seq<string>)
    requires AllNonempty(chunks) && chunks != [] && s.last == Some(prefix) && '\n' !in Concat(chunks)
    ensures FedAll(Reader(s, true), prefix, chunks) == Reader(LogState(Some(prefix), s.text + Concat(chunks)), false)
    decreases |chunks|
  {
    hide Fed, NextBreak;
    var n := |chunks| - 1;
    var (before, data) := (chunks[..n], chunks[n]);
    BreakIff(data);
    if n == 0 {
      assert before == [] && Concat(chunks) == "" + data == data;
      FedUnfold(Reader(s, true), prefix, data);
      StartedText(s, prefix, data);
    } else {
      var t := LogState(Some(prefix), s.text + Concat(before));
      UnbrokenAll(s, prefix, before);
      FedUnfold(Reader(t, false), prefix, data);
      StartedText(t, prefix, data);
      assert t.text + data == s.text + (Concat(before) + data);
    }
  }

  /** However out is cut into reads, the log is the same. */
  ghost predicate CutsAgree(s: LogState, prefix: string, out: string, ended: bool) {
    forall c1, c2 :: IsCut(c1, out) && IsCut(c2, out) ==> Outcome(s, prefix, c1, ended) == Outcome(s, prefix, c2, ended)
  }

  ghost predicate IsCut(chunks: seq<string>, out: string) {
    AllNonempty(chunks) && Concat(chunks) == out
  }

  /** What the log is after out when it does not depend on the cut. */
  function Uncut(s: LogState, prefix: string, out: string, ended: bool): LogState {
    if s.last == Some(prefix) && out != "" && '\n' !in out then
      LogState(if ended then None else Some(prefix), s.text + out + if ended then "\n" else "")
    else Expected(s, prefix, out, ended)
  }

  lemma CutOutcome(s: LogState, prefix: string, chunks: seq<string>, ended: bool)
    requires AllNonempty(chunks)
    requires s.last != Some(prefix) || '\n' !in Concat(chunks) || Concat(chunks)[0] == '\n'
    ensures Outcome(s, prefix, chunks, ended) == Uncut(s, prefix, Concat(chunks), ended)
  {
    hide Fed, FedAll, Expected, Render, Tail;
    var out := Concat(chunks);
    if chunks != [] {
      FirstChunk(chunks);
    }
    if s.last == Some(prefix) && out != "" && '\n' !in out {
      UnbrokenAll(s, prefix, chunks);
    } else {
      ChunkInvariance(s, prefix, chunks, ended);
      if chunks != [] && s.last == Some(prefix) {
        NonemptyConcat(chunks);
        assert chunks[0][0] == out[0];
      }
    }
  }

  /** The log does not depend on how the output is cut, if and only if it does not end in an
      unfinished line of the same prefix, or the output has no line break, or starts with one. */
  lemma CutsAgreeIff(s: LogState, prefix: string, out: string, ended: bool)
    ensures CutsAgree(s, prefix, out, ended) <==> s.last != Some(prefix) || '\n' !in out || out[0] == '\n'
  {
    hide Outcome, Uncut;
    if s.last != Some(prefix) || '\n' !in out || out[0] == '\n' {
      forall c | IsCut(c, out)
        ensures Outcome(s, prefix, c, ended) == Uncut(s, prefix, out, ended)
      {
        CutOutcome(s, prefix, c, ended);
      }
    } else {
      CutsDiffer(s, prefix, out, ended);
    }
  }

  /** In one piece, or the first character by itself. */
  lemma CutsDiffer(s: LogState, prefix: string, out: string, ended: bool)
    requires s.last == Some(prefix) && '\n' in out && out[0] != '\n'
    ensures !CutsAgree(s, prefix, out, ended)
  {
    hide Outcome, Expected, Concat, AllNonempty;
    var i :| 0 <= i < |out| && out[i] == '\n';
    Cuts(out);
    ChunkInvariance(s, prefix, [out], ended);
    ChunkInvariance(s, prefix, [out[..1], out[1..]], ended);
    assert out[..1] == [out[0]];
    assert IsCut([out], out) && IsCut([out[..1], out[1..]], out);
  }

  lemma Cuts(out: string)
    requires |out| > 1
    ensures IsCut([out], out) && IsCut([out[..1], out[1..]], out)
  {
    CutsConcat([out], out, "");
    CutsConcat([out[..1], out[1..]], out[..1], out[1..]);
    assert out[..1] + out[1..] == out;
    assert out[1..] != "" && out[..1] != "";
  }

  lemma CutsConcat(chunks: seq<string>, a: string, b: string)
    requires chunks == [a, b] || (chunks == [a] && b == "")
    ensures Concat(chunks) == a + b
  {
    assert [a][..0] == [];
    assert Concat([a]) == "" + a == a == a + "";
    assert chunks == [a, b] ==> chunks[..1] == [a];
  }
}
