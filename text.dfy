/**
 * The handful of Python 2 `str` operations the tools rely on, over `string`
 * (the tools read byte strings, so whitespace and case are ASCII only).
 */
module Text {

  import opened Wrappers

  /** Python 2 `str.isspace` for one byte: space, \t, \n, \r, \v, \f. */
  predicate IsSpace(c: char) {
    c == ' ' || c == '\t' || c == '\n' || c == '\r' || c == '\U{000B}' || c == '\U{000C}'
  }

  predicate AllSpace(s: string) {
    forall i :: 0 <= i < |s| ==> IsSpace(s[i])
  }

  /** `s.startswith(c)` for a one-character prefix. */
  predicate StartsWith(s: string, c: char) {
    |s| > 0 && s[0] == c
  }

  /** `s.endswith(suffix)`. */
  predicate EndsWith(s: string, suffix: string) {
    |suffix| <= |s| && s[|s| - |suffix|..] == suffix
  }

  /** `s.rstrip()`: the longest prefix of `s` that does not end in whitespace. */
  function RStrip(s: string): (r: string)
    ensures |r| <= |s| && r == s[..|r|]
    ensures r == [] || !IsSpace(r[|r| - 1])
    ensures forall i :: |r| <= i < |s| ==> IsSpace(s[i])
  {
    if s == [] || !IsSpace(s[|s| - 1]) then s else RStrip(s[..|s| - 1])
  }

  /** `s.lstrip()`: the longest suffix of `s` that does not start with whitespace. */
  function LStrip(s: string): (r: string)
    ensures |r| <= |s| && r == s[|s| - |r|..]
    ensures r == [] || !IsSpace(r[0])
    ensures forall i :: 0 <= i < |s| - |r| ==> IsSpace(s[i])
  {
    if s == [] || !IsSpace(s[0]) then s else LStrip(s[1..])
  }

  /** `s.strip()`. */
  function Strip(s: string): string {
    LStrip(RStrip(s))
  }

  /** A line is blank for Python (`line.strip() == ''`) exactly when every character is whitespace. */
  lemma StripEmptyIffAllSpace(s: string)
    ensures Strip(s) == [] <==> AllSpace(s)
  {
    var r := RStrip(s);
    assert r != [] ==> r[|r| - 1] == s[|r| - 1];
    assert forall i :: 0 <= i < |r| ==> r[i] == s[i];
  }

  lemma ConcatAssoc<T>(a: seq<T>, b: seq<T>, c: seq<T>)
    ensures a + (b + c) == (a + b) + c
  {
  }

  /** `s.count(c)` for a single character. */
  function Count(s: string, c: char): (n: nat)
    ensures n <= |s|
  {
    if s == [] then 0 else (if s[0] == c then 1 else 0) + Count(s[1..], c)
  }

  lemma {:induction false} CountAppend(a: string, b: string, c: char)
    ensures Count(a + b, c) == Count(a, c) + Count(b, c)
  {
    if a == [] {
      assert a + b == b;
    } else {
      assert (a + b)[1..] == a[1..] + b;
      CountAppend(a[1..], b, c);
    }
  }

  /** Occurrences of two different characters never exceed the length. */
  lemma {:induction false} CountTwoBound(s: string, c: char, d: char)
    requires c != d
    ensures Count(s, c) + Count(s, d) <= |s|
  {
    if s != [] {
      CountTwoBound(s[1..], c, d);
    }
  }

  /** Python 2 `str.upper` on one byte: ASCII a-z become A-Z, everything else is kept. */
  function ToUpper(c: char): char {
    if 'a' <= c <= 'z' then (c as int - 32) as char else c
  }

  function Upper(s: string): (u: string)
    ensures |u| == |s|
    ensures forall i :: 0 <= i < |s| ==> u[i] == ToUpper(s[i])
  {
    seq(|s|, i requires 0 <= i < |s| => ToUpper(s[i]))
  }

  /** Counting an upper-case letter in `s.upper()` counts it in both cases in `s`. */
  lemma {:induction false} CountUpperCaseInsensitive(s: string, upper: char, lower: char)
    requires 'A' <= upper <= 'Z' && lower as int == upper as int + 32
    ensures Count(Upper(s), upper) == Count(s, upper) + Count(s, lower)
  {
    if s != [] {
      assert Upper(s)[1..] == Upper(s[1..]);
      CountUpperCaseInsensitive(s[1..], upper, lower);
    }
  }

  /**
   * Splits `s` at the first occurrence of `c`: the part before it and the part after it,
   * or None when `c` does not occur.
   */
  function Split(s: string, c: char): (r: Option<(string, string)>)
    ensures r.Some? ==> s == r.value.0 + [c] + r.value.1 && c !in r.value.0
    ensures r.None? ==> c !in s
  {
    if s == [] then None
    else if s[0] == c then Some(([], s[1..]))
    else match Split(s[1..], c)
      case None => None
      case Some((before, after)) => Some(([s[0]] + before, after))
  }

  lemma {:induction false} SplitAtFirst(a: string, c: char, b: string)
    requires c !in a
    ensures Split(a + [c] + b, c) == Some((a, b))
  {
    if a == [] {
      assert a + [c] + b == [c] + b;
    } else {
      assert (a + [c] + b)[1..] == a[1..] + [c] + b;
      assert a[0] != c && [a[0]] + a[1..] == a;
      SplitAtFirst(a[1..], c, b);
    }
  }

  /**
   * The lines Python yields when iterating over a file holding `t`: each keeps its
   * terminating '\n'; a last line without one is kept as it is.
   */
  function SplitLines(t: string): (ls: seq<string>)
    decreases |t|
  {
    if t == [] then []
    else match Split(t, '\n')
      case None => [t]
      case Some((line, rest)) => [line + "\n"] + SplitLines(rest)
  }

  /** The text a sequence of lines makes up, one after the other. */
  function Join(ls: seq<string>): string
    decreases |ls|
  {
    if ls == [] then [] else ls[0] + Join(ls[1..])
  }

  /** The lines Python yields make up the whole file, every character in place. */
  lemma {:induction false} SplitLinesJoin(t: string)
    ensures Join(SplitLines(t)) == t
    decreases |t|
  {
    if t != [] {
      match Split(t, '\n')
      case None =>
        assert Join([t]) == t + Join([]);
      case Some((line, rest)) =>
        SplitLinesJoin(rest);
        var ls := SplitLines(t);
        assert ls[0] == line + "\n" && ls[1..] == SplitLines(rest);
        assert Join(ls) == (line + "\n") + rest;
    }
  }

  /** Conversely, lines shaped as Python yields them are what iterating over their text gives. */
  lemma {:induction false} JoinSplitLines(ls: seq<string>)
    requires IsLineSplit(ls)
    ensures SplitLines(Join(ls)) == ls
    decreases |ls|
  {
    if ls != [] {
      var first := ls[0];
      var rest := Join(ls[1..]);
      assert IsLineSplit(ls[1..]) by {
        forall i | 0 <= i < |ls[1..]|
          ensures ls[1..][i] != [] && '\n' !in ls[1..][i][..|ls[1..][i]| - 1] &&
            (i < |ls[1..]| - 1 ==> ls[1..][i][|ls[1..][i]| - 1] == '\n')
        {
          assert ls[1..][i] == ls[i + 1];
        }
      }
      JoinSplitLines(ls[1..]);
      var line := first[..|first| - 1];
      if first[|first| - 1] == '\n' {
        assert first == line + "\n";
        SplitLinesTerminated(line, rest);
        assert Join(ls) == line + "\n" + rest;
      } else {
        assert |ls| == 1;
        assert '\n' !in first by {
          assert first == line + [first[|first| - 1]];
        }
        SplitLinesLast(first);
        assert ls[1..] == [];
        assert Join(ls) == first + Join([]);
        assert Join(ls) == first;
      }
    }
  }

  /** A sequence of lines as Python's line iteration produces them. */
  predicate IsLineSplit(ls: seq<string>) {
    forall i :: 0 <= i < |ls| ==>
      ls[i] != [] &&
      '\n' !in ls[i][..|ls[i]| - 1] &&
      (i < |ls| - 1 ==> ls[i][|ls[i]| - 1] == '\n')
  }

  lemma {:induction false} SplitLinesIsLineSplit(t: string)
    ensures IsLineSplit(SplitLines(t))
    decreases |t|
  {
    if t != [] {
      match Split(t, '\n')
      case None =>
      case Some((line, rest)) =>
        SplitLinesIsLineSplit(rest);
        var ls := SplitLines(t);
        assert ls == [line + "\n"] + SplitLines(rest);
        assert (line + "\n")[..|line + "\n"| - 1] == line;
    }
  }

  lemma SplitLinesTerminated(line: string, rest: string)
    requires '\n' !in line
    ensures SplitLines(line + "\n" + rest) == [line + "\n"] + SplitLines(rest)
  {
    SplitAtFirst(line, '\n', rest);
  }

  lemma SplitLinesLast(line: string)
    requires line != [] && '\n' !in line
    ensures SplitLines(line) == [line]
  {
  }

  /** Text that ends a line splits independently of what follows it. */
  lemma {:induction false} SplitLinesAppend(a: string, b: string)
    requires a == [] || a[|a| - 1] == '\n'
    ensures SplitLines(a + b) == SplitLines(a) + SplitLines(b)
    decreases |a|
  {
    if a == [] {
      assert a + b == b;
    } else {
      match Split(a, '\n')
      case Some((line, rest)) =>
        assert rest == [] || rest[|rest| - 1] == '\n' by {
          assert a == line + ['\n'] + rest;
        }
        SplitLinesAppend(rest, b);
        ConcatAssoc(line + "\n", rest, b);
        SplitLinesTerminated(line, rest + b);
        SplitLinesTerminated(line, rest);
        ConcatAssoc([line + "\n"], SplitLines(rest), SplitLines(b));
    }
  }
}
