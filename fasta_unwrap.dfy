/**
 * fasta_unwrap: joins the hard-wrapped sequence lines of each FASTA record into one
 * line, copying header lines as they are.  The input is the sequence of lines Python
 * yields when iterating over the file; the output is the text written to stdout.
 */
module FastaUnwrap {

  import opened Text
  import NSeq

  /**
   * What the loop writes for one line: a header is copied with its own terminator,
   * preceded by a newline unless it is the first line; any other line is written
   * without its trailing whitespace.
   */
  function Step(line: string, first: bool): (out: string)
    ensures NSeq.IsFastaHeader(line) ==>
      |out| == |line| + (if first then 0 else 1) && out[|out| - |line|..] == line &&
      (!first ==> out[0] == '\n')
    ensures !NSeq.IsFastaHeader(line) ==>
      |out| <= |line| && out == line[..|out|] && (out == [] || !IsSpace(out[|out| - 1])) &&
      forall i :: |out| <= i < |line| ==> IsSpace(line[i])
  {
    if NSeq.IsFastaHeader(line) then (if first then "" else "\n") + line else RStrip(line)
  }

  /** The text written for `lines`; `first` holds while no line has been read yet. */
  function Unwrap(lines: seq<string>, first: bool): (out: string)
    ensures |out| <= |Join(lines)| + |lines|
    decreases |lines|
  {
    if lines == [] then [] else Step(lines[0], first) + Unwrap(lines[1..], false)
  }

  /** The module-level loop of fasta_unwrap.py, with `lineCnt` counting the lines read. */
  method UnwrapLines(lines: array<string>) returns (out: string)
    ensures out == Unwrap(lines[..], true)
  {
    var lineCnt := 0;
    out := "";
    for i := 0 to lines.Length
      invariant lineCnt == i
      invariant out + Unwrap(lines[i..], i == 0) == Unwrap(lines[..], true)
    {
      var line := lines[i];
      ghost var before := out;
      lineCnt := lineCnt + 1;
      if NSeq.IsFastaHeader(line) {
        if lineCnt > 1 {
          out := out + "\n";
        }
        out := out + line;
      } else {
        out := out + RStrip(line);
      }
      assert out == before + Step(line, i == 0);
      LoopStep(lines[..], i, before, out);
    }
    assert lines[lines.Length..] == [];
  }

  /** One turn of the loop: the text written so far grows by the current line's step. */
  lemma LoopStep(lines: seq<string>, i: nat, before: string, after: string)
    requires i < |lines|
    requires before + Unwrap(lines[i..], i == 0) == Unwrap(lines, true)
    requires after == before + Step(lines[i], i == 0)
    ensures after + Unwrap(lines[i + 1..], false) == Unwrap(lines, true)
  {
    var step, rest := Step(lines[i], i == 0), Unwrap(lines[i + 1..], false);
    assert lines[i..][1..] == lines[i + 1..];
    assert Unwrap(lines[i..], i == 0) == step + rest;
    ConcatAssoc(before, step, rest);
  }

  /** Unwrapping a whole file's text. */
  function UnwrapText(t: string): string {
    Unwrap(SplitLines(t), true)
  }

  // ---------------------------------------------------------------------------
  // The lines of the output

  /**
   * The lines of the unwrapped text: every header line as it was, and between two
   * headers a single line holding the joined sequence.  `pending` is the sequence text
   * collected since the last header.
   */
  function OutputLines(lines: seq<string>, pending: string, first: bool): seq<string>
    decreases |lines|
  {
    if lines == [] then (if pending == [] then [] else [pending])
    else if NSeq.IsFastaHeader(lines[0]) then
      (if first then [] else [pending + "\n"]) + [lines[0]] + OutputLines(lines[1..], [], false)
    else OutputLines(lines[1..], pending + RStrip(lines[0]), false)
  }

  /** Joined sequence text: it cannot pass for a header and has no trailing whitespace. */
  predicate Settled(pending: string) {
    pending == [] || (pending[0] != '>' && !IsSpace(pending[|pending| - 1]))
  }

  /** What `pending` always looks like: one line's worth of stripped sequence text. */
  predicate Pending(pending: string) {
    '\n' !in pending && Settled(pending)
  }

  lemma LineSplitTail(lines: seq<string>)
    requires IsLineSplit(lines) && lines != []
    ensures IsLineSplit(lines[1..])
  {
    forall i | 0 <= i < |lines| - 1 ensures lines[1..][i] == lines[i + 1] { }
  }

  lemma StripStaysOnLine(line: string)
    requires line != [] && '\n' !in line[..|line| - 1]
    ensures '\n' !in RStrip(line)
  {
    var r := RStrip(line);
    if |r| == |line| {
      assert r == line;
      assert line == line[..|line| - 1] + [line[|line| - 1]];
    } else {
      assert r == line[..|line| - 1][..|r|];
    }
  }

  lemma PendingGrows(pending: string, line: string)
    requires Pending(pending) && !NSeq.IsFastaHeader(line)
    requires line != [] && '\n' !in line[..|line| - 1]
    ensures Pending(pending + RStrip(line))
  {
    StripStaysOnLine(line);
    NoNewlineConcat(pending, RStrip(line));
    SettledGrows(pending, line);
  }

  lemma NoNewlineConcat(a: string, b: string)
    requires '\n' !in a && '\n' !in b
    ensures '\n' !in a + b
  {
    forall i | 0 <= i < |a + b| ensures (a + b)[i] != '\n' {
      if i < |a| {
        assert (a + b)[i] == a[i];
      } else {
        assert (a + b)[i] == b[i - |a|];
      }
    }
  }

  /** A header line keeps its own line in the split, whatever follows it. */
  lemma SplitAfterHeader(line: string, after: string)
    requires line != [] && '\n' !in line[..|line| - 1]
    requires line[|line| - 1] == '\n' || after == []
    ensures SplitLines(line + after) == [line] + SplitLines(after)
  {
    var body := line[..|line| - 1];
    if line[|line| - 1] == '\n' {
      assert line == body + "\n";
      assert line + after == body + "\n" + after;
      SplitLinesTerminated(body, after);
    } else {
      assert line == body + [line[|line| - 1]];
      assert line + after == line;
      SplitLinesLast(line);
    }
  }

  /** The unwrapped text splits into exactly the lines `OutputLines` describes. */
  lemma {:induction false} SplitUnwrapped(lines: seq<string>, pending: string, first: bool)
    requires IsLineSplit(lines) && Pending(pending) && (first ==> pending == [])
    ensures SplitLines(pending + Unwrap(lines, first)) == OutputLines(lines, pending, first)
    decreases |lines|
  {
    if lines == [] {
      assert pending + Unwrap(lines, first) == pending;
      if pending != [] {
        SplitLinesLast(pending);
      }
    } else {
      var line, rest := lines[0], lines[1..];
      LineSplitTail(lines);
      var after := Unwrap(rest, false);
      if NSeq.IsFastaHeader(line) {
        SplitHeaderCase(lines, pending, first);
      } else {
        PendingGrows(pending, line);
        SplitUnwrapped(rest, pending + RStrip(line), false);
        assert Unwrap(lines, first) == RStrip(line) + after;
        ConcatAssoc(pending, RStrip(line), after);
      }
    }
  }

  lemma {:induction false} SplitHeaderCase(lines: seq<string>, pending: string, first: bool)
    requires IsLineSplit(lines) && Pending(pending) && (first ==> pending == [])
    requires lines != [] && NSeq.IsFastaHeader(lines[0])
    ensures SplitLines(pending + Unwrap(lines, first)) == OutputLines(lines, pending, first)
    decreases |lines|, 0
  {
    var line, rest := lines[0], lines[1..];
    LineSplitTail(lines);
    var after := Unwrap(rest, false);
    var tail := OutputLines(rest, [], false);
    SplitUnwrapped(rest, [], false);
    assert [] + after == after;
    HeadLine(lines, after);
    assert Unwrap(lines, first) == ((if first then "" else "\n") + line) + after;
    assert OutputLines(lines, pending, first) == (if first then [] else [pending + "\n"]) + [line] + tail;
    SplitHeaderStep(line, pending, first, after, tail);
  }

  /** The split of the text written at a header, with the split of what follows given. */
  lemma SplitHeaderStep(line: string, pending: string, first: bool, after: string, tail: seq<string>)
    requires line != [] && '\n' !in line[..|line| - 1] && (line[|line| - 1] == '\n' || after == [])
    requires SplitLines(after) == tail
    requires '\n' !in pending && (first ==> pending == [])
    ensures SplitLines(pending + (((if first then "" else "\n") + line) + after))
      == (if first then [] else [pending + "\n"]) + [line] + tail
  {
    SplitAfterHeader(line, after);
    if first {
      assert pending + ((("" + line) + after)) == line + after;
      assert [] + [line] + tail == [line] + tail;
    } else {
      SplitLaterHeader(pending, line, after);
      ConcatAssoc([pending + "\n"], [line], tail);
    }
  }

  /** The first line of a split holds one line, terminated unless nothing follows. */
  lemma HeadLine(lines: seq<string>, after: string)
    requires IsLineSplit(lines) && lines != []
    requires after == Unwrap(lines[1..], false)
    ensures var line := lines[0];
      line != [] && '\n' !in line[..|line| - 1] && (line[|line| - 1] == '\n' || after == [])
  {
  }

  /** A newline closes the pending sequence line before a later header. */
  lemma SplitLaterHeader(pending: string, line: string, after: string)
    requires '\n' !in pending
    ensures SplitLines(pending + (("\n" + line) + after)) == [pending + "\n"] + SplitLines(line + after)
  {
    ConcatAssoc("\n", line, after);
    ConcatAssoc(pending, "\n", line + after);
    SplitLinesTerminated(pending, line + after);
  }

  /** When `lines` does not start with a header, whether it is read first does not matter. */
  lemma FirstIrrelevant(lines: seq<string>)
    requires lines == [] || !NSeq.IsFastaHeader(lines[0])
    ensures Unwrap(lines, true) == Unwrap(lines, false)
  {
  }

  lemma {:induction false} OutputStartsInSequence(lines: seq<string>, pending: string)
    requires pending == [] || pending[0] != '>'
    ensures var out := OutputLines(lines, pending, false); out == [] || !NSeq.IsFastaHeader(out[0])
    decreases |lines|
  {
    if lines != [] && !NSeq.IsFastaHeader(lines[0]) {
      var r := RStrip(lines[0]);
      assert r != [] ==> r[0] == lines[0][0];
      OutputStartsInSequence(lines[1..], pending + r);
    }
  }

  lemma SettledGrows(pending: string, line: string)
    requires Settled(pending) && !NSeq.IsFastaHeader(line)
    ensures Settled(pending + RStrip(line))
  {
    var r := RStrip(line);
    if r != [] {
      assert r[0] == line[0];
    }
  }

  /** Re-reading the joined sequence line gives back the joined sequence. */
  lemma ReadSettledLine(pending: string)
    requires Settled(pending)
    ensures RStrip(pending + "\n") == pending
  {
    assert (pending + "\n")[..|pending|] == pending;
  }

  lemma {:induction false} UnwrapAppend(a: seq<string>, b: seq<string>, first: bool)
    ensures Unwrap(a + b, first) == Unwrap(a, first) + Unwrap(b, first && a == [])
    decreases |a|
  {
    if a == [] {
      assert a + b == b;
    } else {
      assert (a + b)[0] == a[0] && (a + b)[1..] == a[1..] + b;
      assert Unwrap(a + b, first) == Step(a[0], first) + Unwrap(a[1..] + b, false);
      UnwrapAppend(a[1..], b, false);
      ConcatAssoc(Step(a[0], first), Unwrap(a[1..], false), Unwrap(b, false));
    }
  }

  /** Unwrapping the output lines again writes the same text. */
  lemma {:induction false} RereadOutputLines(lines: seq<string>, pending: string, first: bool)
    requires Settled(pending) && (first ==> pending == [])
    ensures Unwrap(OutputLines(lines, pending, first), first) == pending + Unwrap(lines, first)
    decreases |lines|, 1
  {
    if lines == [] {
      if pending != [] {
        ReadSettledLine(pending);
        assert pending == RStrip(pending + "\n");
        assert RStrip(pending) == pending;
      }
    } else if NSeq.IsFastaHeader(lines[0]) {
      RereadHeader(lines, pending, first);
    } else {
      RereadSequenceLine(lines, pending, first);
    }
  }

  lemma {:induction false} RereadHeader(lines: seq<string>, pending: string, first: bool)
    requires Settled(pending) && (first ==> pending == [])
    requires lines != [] && NSeq.IsFastaHeader(lines[0])
    ensures Unwrap(OutputLines(lines, pending, first), first) == pending + Unwrap(lines, first)
    decreases |lines|, 0
  {
    var line, rest := lines[0], lines[1..];
    var after := Unwrap(rest, false);
    var tail := OutputLines(rest, [], false);
    RereadOutputLines(rest, [], false);
    assert [] + after == after;
    assert Unwrap(lines, first) == ((if first then "" else "\n") + line) + after;
    assert OutputLines(lines, pending, first) == (if first then [] else [pending + "\n"]) + [line] + tail;
    RereadHeaderStep(line, pending, first, after, tail);
  }

  /** Re-reading the output lines at a header, with the re-reading of what follows given. */
  lemma RereadHeaderStep(line: string, pending: string, first: bool, after: string, tail: seq<string>)
    requires NSeq.IsFastaHeader(line) && Settled(pending) && (first ==> pending == [])
    requires Unwrap(tail, false) == after
    ensures Unwrap((if first then [] else [pending + "\n"]) + [line] + tail, first)
      == pending + (((if first then "" else "\n") + line) + after)
  {
    if first {
      RereadFirstHeader(line, after, tail);
    } else {
      assert [pending + "\n"] + [line] + tail == [pending + "\n", line] + tail;
      RereadLaterHeader(pending, line, tail);
    }
  }

  lemma RereadFirstHeader(line: string, after: string, tail: seq<string>)
    requires NSeq.IsFastaHeader(line) && Unwrap(tail, false) == after
    ensures Unwrap([] + [line] + tail, true) == [] + (("" + line) + after)
  {
    assert [] + [line] + tail == [line] + tail;
    UnwrapCons(line, tail, true);
    assert Step(line, true) == line;
    assert [] + (("" + line) + after) == line + after;
  }

  lemma UnwrapCons(line: string, rest: seq<string>, first: bool)
    ensures Unwrap([line] + rest, first) == Step(line, first) + Unwrap(rest, false)
  {
    assert ([line] + rest)[1..] == rest;
  }

  /** A closed sequence line followed by a header reads back as the sequence, a newline and the header. */
  lemma RereadLaterHeader(pending: string, line: string, tail: seq<string>)
    requires Settled(pending) && NSeq.IsFastaHeader(line)
    ensures Unwrap([pending + "\n", line] + tail, false) == pending + (("\n" + line) + Unwrap(tail, false))
  {
    var after := Unwrap(tail, false);
    assert [pending + "\n", line] + tail == [pending + "\n"] + ([line] + tail);
    UnwrapCons(pending + "\n", [line] + tail, false);
    UnwrapCons(line, tail, false);
    ReadSettledLine(pending);
    assert (pending + "\n")[0] == if pending == [] then '\n' else pending[0];
    assert Step(pending + "\n", false) == pending;
  }

  lemma {:induction false} RereadSequenceLine(lines: seq<string>, pending: string, first: bool)
    requires Settled(pending) && (first ==> pending == [])
    requires lines != [] && !NSeq.IsFastaHeader(lines[0])
    ensures Unwrap(OutputLines(lines, pending, first), first) == pending + Unwrap(lines, first)
    decreases |lines|, 0
  {
    var line, rest := lines[0], lines[1..];
    var after := Unwrap(rest, false);
    var grown := pending + RStrip(line);
    SettledGrows(pending, line);
    RereadOutputLines(rest, grown, false);
    OutputStartsInSequence(rest, grown);
    FirstIrrelevant(OutputLines(rest, grown, false));
    assert OutputLines(lines, pending, first) == OutputLines(rest, grown, false);
    assert Unwrap(lines, first) == RStrip(line) + after;
    ConcatAssoc(pending, RStrip(line), after);
  }

  /** Unwrapping is idempotent: the unwrapped text of an unwrapped file is that file. */
  lemma UnwrapIdempotent(t: string)
    ensures UnwrapText(UnwrapText(t)) == UnwrapText(t)
  {
    var lines := SplitLines(t);
    SplitLinesIsLineSplit(t);
    SplitUnwrapped(lines, [], true);
    assert [] + Unwrap(lines, true) == UnwrapText(t);
    RereadOutputLines(lines, [], true);
  }

  // ---------------------------------------------------------------------------
  // Headers and sequence lines of the output

  /** The header lines of a file, in order. */
  function Headers(lines: seq<string>): seq<string>
    decreases |lines|
  {
    if lines == [] then []
    else (if NSeq.IsFastaHeader(lines[0]) then [lines[0]] else []) + Headers(lines[1..])
  }

  lemma {:induction false} HeadersAppend(a: seq<string>, b: seq<string>)
    ensures Headers(a + b) == Headers(a) + Headers(b)
    decreases |a|
  {
    if a == [] {
      assert a + b == b;
    } else {
      var h := if NSeq.IsFastaHeader(a[0]) then [a[0]] else [];
      assert (a + b)[0] == a[0] && (a + b)[1..] == a[1..] + b;
      assert Headers(a + b) == h + Headers(a[1..] + b);
      HeadersAppend(a[1..], b);
      ConcatAssoc(h, Headers(a[1..]), Headers(b));
    }
  }

  lemma {:induction false} OutputHeaders(lines: seq<string>, pending: string, first: bool)
    requires Settled(pending)
    ensures Headers(OutputLines(lines, pending, first)) == Headers(lines)
    decreases |lines|
  {
    if lines == [] {
      if pending != [] {
        assert Headers([pending]) == [] + Headers([]);
      }
    } else {
      var line, rest := lines[0], lines[1..];
      var tail := OutputLines(rest, [], false);
      if NSeq.IsFastaHeader(line) {
        OutputHeaders(rest, [], false);
        var front := if first then [line] else [pending + "\n", line];
        assert OutputLines(lines, pending, first) == front + tail;
        HeadersAppend(front, tail);
        assert Headers([line]) == [line] + Headers([]);
        if !first {
          assert front[1..] == [line];
          assert Headers(front) == [] + Headers([line]);
        }
      } else {
        SettledGrows(pending, line);
        OutputHeaders(rest, pending + RStrip(line), false);
      }
    }
  }

  /** Header lines are copied verbatim and in order: the output has the input's headers. */
  lemma UnwrapKeepsHeaders(t: string)
    ensures Headers(SplitLines(UnwrapText(t))) == Headers(SplitLines(t))
  {
    var lines := SplitLines(t);
    SplitLinesIsLineSplit(t);
    SplitUnwrapped(lines, [], true);
    assert [] + Unwrap(lines, true) == UnwrapText(t);
    OutputHeaders(lines, [], true);
  }

  lemma {:induction false} CountFastaIsHeaders(lines: seq<string>)
    ensures NSeq.CountFasta(lines) == |Headers(lines)|
    decreases |lines|
  {
    if lines != [] {
      CountFastaIsHeaders(lines[1..]);
      assert lines == [lines[0]] + lines[1..];
      NSeq.CountFastaAppend([lines[0]], lines[1..]);
      assert [lines[0]][..0] == [];
    }
  }

  /** nseq counts as many records in the unwrapped file as in the original. */
  lemma UnwrapKeepsRecordCount(t: string)
    ensures NSeq.CountFasta(SplitLines(UnwrapText(t))) == NSeq.CountFasta(SplitLines(t))
  {
    UnwrapKeepsHeaders(t);
    CountFastaIsHeaders(SplitLines(UnwrapText(t)));
    CountFastaIsHeaders(SplitLines(t));
  }

  /** No two sequence lines are adjacent: each record's sequence sits on one line. */
  predicate OneSequenceLine(lines: seq<string>) {
    forall i :: 0 <= i < |lines| - 1 ==> NSeq.IsFastaHeader(lines[i]) || NSeq.IsFastaHeader(lines[i + 1])
  }

  lemma JoinAtHeader(front: seq<string>, tail: seq<string>)
    requires front != [] && NSeq.IsFastaHeader(front[|front| - 1])
    requires OneSequenceLine(front) && OneSequenceLine(tail)
    ensures OneSequenceLine(front + tail)
  {
    var all := front + tail;
    forall i | 0 <= i < |all| - 1 ensures NSeq.IsFastaHeader(all[i]) || NSeq.IsFastaHeader(all[i + 1]) {
      if i >= |front| {
        assert all[i] == tail[i - |front|] && all[i + 1] == tail[i + 1 - |front|];
      } else if i < |front| - 1 {
        assert all[i] == front[i] && all[i + 1] == front[i + 1];
      }
    }
  }

  lemma {:induction false} OutputOneSequenceLine(lines: seq<string>, pending: string, first: bool)
    ensures OneSequenceLine(OutputLines(lines, pending, first))
    decreases |lines|
  {
    if lines != [] {
      var line, rest := lines[0], lines[1..];
      if NSeq.IsFastaHeader(line) {
        var tail := OutputLines(rest, [], false);
        OutputOneSequenceLine(rest, [], false);
        var front := if first then [line] else [pending + "\n", line];
        JoinAtHeader(front, tail);
      } else {
        OutputOneSequenceLine(rest, pending + RStrip(line), false);
      }
    }
  }

  lemma UnwrapJoinsSequences(t: string)
    ensures OneSequenceLine(SplitLines(UnwrapText(t)))
  {
    var lines := SplitLines(t);
    SplitLinesIsLineSplit(t);
    SplitUnwrapped(lines, [], true);
    assert [] + Unwrap(lines, true) == UnwrapText(t);
    OutputOneSequenceLine(lines, [], true);
  }
}
