/**
 * nseq: a quick count of the records of a FASTA or FASTQ file, given the
 * file as the sequence of lines Python's line iteration yields.
 */
module NSeq {

  import opened Wrappers
  import opened Text

  /** FASTA mode counts the lines that start with '>'. */
  predicate IsFastaHeader(line: string) {
    StartsWith(line, '>')
  }

  function CountFasta(lines: seq<string>): (n: nat)
    ensures n <= |lines|
  {
    if lines == [] then 0
    else CountFasta(lines[..|lines| - 1]) + (if IsFastaHeader(lines[|lines| - 1]) then 1 else 0)
  }

  /** The positions of the header lines: the independent description of the FASTA count. */
  function HeaderIndices(lines: seq<string>): set<nat> {
    set i: nat | i < |lines| && IsFastaHeader(lines[i])
  }

  lemma {:induction false} CountFastaIsHeaderLines(lines: seq<string>)
    ensures CountFasta(lines) == |HeaderIndices(lines)|
  {
    if lines != [] {
      var n := |lines| - 1;
      var front := lines[..n];
      CountFastaIsHeaderLines(front);
      if IsFastaHeader(lines[n]) {
        assert HeaderIndices(lines) == HeaderIndices(front) + {n};
        assert n !in HeaderIndices(front);
      } else {
        assert HeaderIndices(lines) == HeaderIndices(front);
      }
    }
  }

  lemma {:induction false} CountFastaAppend(a: seq<string>, b: seq<string>)
    ensures CountFasta(a + b) == CountFasta(a) + CountFasta(b)
  {
    if b == [] {
      assert a + b == a;
    } else {
      var n := |b| - 1;
      assert (a + b)[..|a + b| - 1] == a + b[..n];
      CountFastaAppend(a, b[..n]);
    }
  }

  /** The two ways `check_line` rejects line `line` (zero-based). */
  datatype LineError = EmptyLine(line: nat) | MissingAt(line: nat)

  /**
   * `check_line(i, line)`: a blank line is refused whatever its position; otherwise
   * every line whose index is a multiple of 4 must start with '@'.
   * None stands for the `True` the script returns.
   */
  function CheckLine(i: nat, line: string): (e: Option<LineError>)
    ensures e.Some? ==> e.value.line == i
  {
    if Strip(line) == [] then Some(EmptyLine(i))
    else if i % 4 == 0 && !StartsWith(line, '@') then Some(MissingAt(i))
    else None
  }

  /** What `check_line` decides, in terms of the characters of the line; the blank test wins over the '@' test. */
  lemma CheckLineVerdict(i: nat, line: string)
    ensures CheckLine(i, line) == Some(EmptyLine(i)) <==> AllSpace(line)
    ensures CheckLine(i, line) == Some(MissingAt(i)) <==> !AllSpace(line) && i % 4 == 0 && !StartsWith(line, '@')
    ensures CheckLine(i, line) == None <==> !AllSpace(line) && (i % 4 == 0 ==> StartsWith(line, '@'))
  {
    StripEmptyIffAllSpace(line);
  }

  predicate LinesPass(lines: seq<string>, from: nat, to: nat)
    requires to <= |lines|
  {
    forall i :: from <= i < to ==> CheckLine(i, lines[i]) == None
  }

  /** `e` is what the lazy generator raises: the first line that fails its check. */
  predicate IsFirstFailure(lines: seq<string>, start: nat, e: LineError) {
    start <= e.line < |lines| &&
    CheckLine(e.line, lines[e.line]) == Some(e) &&
    LinesPass(lines, start, e.line)
  }

  /**
   * `sum(1 for i, x in enumerate(lines) if check_line(i, x))` from line `start` on:
   * the generator stops at the first failing line.
   */
  function CheckedCount(lines: seq<string>, start: nat): (r: Result<nat, LineError>)
    requires start <= |lines|
    ensures r.Err? ==> start <= r.error.line < |lines|
    decreases |lines| - start
  {
    if start == |lines| then Ok(0)
    else match CheckLine(start, lines[start])
      case Some(e) => Err(e)
      case None =>
        match CheckedCount(lines, start + 1)
        case Ok(n) => Ok(n + 1)
        case Err(e) => Err(e)
  }

  /** A count means every line from `start` on passed; an error is the first line that failed. */
  lemma {:induction false} CheckedCountMeaning(lines: seq<string>, start: nat)
    requires start <= |lines|
    ensures var r := CheckedCount(lines, start);
      && (r.Ok? ==> LinesPass(lines, start, |lines|) && r.value == |lines| - start)
      && (r.Err? ==> IsFirstFailure(lines, start, r.error))
    decreases |lines| - start
  {
    if start < |lines| && CheckLine(start, lines[start]) == None {
      CheckedCountMeaning(lines, start + 1);
      var r := CheckedCount(lines, start + 1);
      if r.Err? {
        assert CheckedCount(lines, start) == r;
        assert LinesPass(lines, start + 1, r.error.line);
      } else {
        assert LinesPass(lines, start + 1, |lines|);
      }
    }
  }

  /** FASTQ mode: four lines per record, with the whole file validated first. */
  function CountFastq(lines: seq<string>): (r: Result<nat, LineError>)
    ensures r.Ok? <==> LinesPass(lines, 0, |lines|)
    ensures r.Ok? ==> r.value == |lines| / 4
    ensures r.Err? ==> IsFirstFailure(lines, 0, r.error)
  {
    CheckedCountMeaning(lines, 0);
    match CheckedCount(lines, 0)
    case Ok(n) => Ok(n / 4)
    case Err(e) => Err(e)
  }
}
