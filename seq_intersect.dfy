/**
 * seqIntersect: the records of two sequence databases whose names occur in both,
 * written back out in FASTQ or FASTA text.  A screed database is modelled as a
 * map from record name to record; building and opening one is foreign code.
 */
module SeqIntersect {

  import opened Wrappers
  import opened Text

  const ScreedSuffix: string := "_screed"

  /**
   * A screed record.  A FASTQ record has `annotations` and an `accuracy` (quality)
   * string; a FASTA record has a `description` and no accuracy.
   */
  datatype Record =
    | FastaRecord(name: string, description: string, sequence: string)
    | FastqRecord(name: string, annotations: string, sequence: string, accuracy: string)

  datatype OpenError = CannotOpen(fileName: string)

  // ---------------------------------------------------------------------------
  // Database names

  /**
   * The database `openDB` opens for `fileName`.  A name ending in "_screed" is taken
   * to be a database already; any other file gets a database built beside it,
   * which succeeds when screed can read the file (`readable`, decided by foreign code).
   */
  function DbName(fileName: string, readable: bool): (r: Result<string, OpenError>)
    ensures r.Ok? ==> EndsWith(r.value, ScreedSuffix)
    ensures EndsWith(fileName, ScreedSuffix) ==> r == Ok(fileName)
    ensures r.Ok? <==> EndsWith(fileName, ScreedSuffix) || readable
    ensures r.Err? ==> r.error == CannotOpen(fileName)
    ensures r.Ok? ==> r.value == fileName || r.value == fileName + ScreedSuffix
  {
    if EndsWith(fileName, ScreedSuffix) then Ok(fileName)
    else if readable then Ok(fileName + ScreedSuffix)
    else Err(CannotOpen(fileName))
  }

  lemma SuffixedEndsWith(s: string)
    ensures EndsWith(s + ScreedSuffix, ScreedSuffix)
  {
    assert (s + ScreedSuffix)[|s + ScreedSuffix| - |ScreedSuffix|..] == ScreedSuffix;
  }

  /** Opening a database name again opens that same database. */
  lemma DbNameIdempotent(fileName: string, readable: bool, again: bool)
    requires DbName(fileName, readable).Ok?
    ensures DbName(DbName(fileName, readable).value, again) == DbName(fileName, readable)
  {
    if !EndsWith(fileName, ScreedSuffix) {
      SuffixedEndsWith(fileName);
    }
  }

  /** `rm_screed_db`: the database file removed after the run. */
  function RemovedDbName(fileName: string): (r: string)
    ensures EndsWith(r, ScreedSuffix)
    ensures |r| == |fileName| + |ScreedSuffix| && r[..|fileName|] == fileName
  {
    SuffixedEndsWith(fileName);
    fileName + ScreedSuffix
  }

  /** The clean-up removes exactly the database the run built from a sequence file... */
  lemma RemovesBuiltDb(fileName: string)
    requires !EndsWith(fileName, ScreedSuffix)
    ensures DbName(fileName, true) == Ok(RemovedDbName(fileName))
  {
  }

  /** ...and never a database the caller supplied. */
  lemma SparesSuppliedDb(fileName: string, readable: bool)
    requires EndsWith(fileName, ScreedSuffix)
    ensures DbName(fileName, readable) == Ok(fileName)
    ensures RemovedDbName(fileName) != fileName
  {
    assert |RemovedDbName(fileName)| > |fileName|;
  }

  // ---------------------------------------------------------------------------
  // Record text

  /** `write_seq`: FASTQ text when the record has an accuracy string, FASTA text otherwise. */
  function Serialize(r: Record): (text: string)
    ensures |text| > 0 && text[|text| - 1] == '\n'
    ensures text[0] == (if r.FastqRecord? then '@' else '>')
  {
    Terminated(RecordLines(r))
  }

  /** The lines of a record's text, without their '\n' terminators. */
  function RecordLines(r: Record): (lines: seq<string>)
    ensures |lines| == (if r.FastqRecord? then 4 else 2)
    ensures |lines[0]| > 0 && lines[0][0] == (if r.FastqRecord? then '@' else '>')
  {
    match r
    case FastqRecord(name, annotations, sequence, accuracy) =>
      ["@" + name + " " + annotations, sequence, "+", accuracy]
    case FastaRecord(name, description, sequence) =>
      [">" + name + " " + description, sequence]
  }

  /** Each line followed by '\n'. */
  function Terminated(lines: seq<string>): (text: string)
    ensures lines != [] ==> |lines[0]| < |text| && text[|text| - 1] == '\n' && text[..|lines[0]|] == lines[0]
  {
    if lines == [] then [] else lines[0] + "\n" + Terminated(lines[1..])
  }

  predicate NoNewlines(lines: seq<string>) {
    forall i :: 0 <= i < |lines| ==> '\n' !in lines[i]
  }

  /** Splits the first `n` lines off `text`, or None when it holds fewer complete lines. */
  function TakeLines(text: string, n: nat): (p: Option<(seq<string>, string)>)
    ensures p.Some? ==> |p.value.0| == n && NoNewlines(p.value.0) && text == Terminated(p.value.0) + p.value.1
    decreases n
  {
    if n == 0 then Some(([], text))
    else match Split(text, '\n')
      case None => None
      case Some((line, after)) =>
        match TakeLines(after, n - 1)
        case None => None
        case Some((lines, rest)) =>
          var ls := [line] + lines;
          assert ls[0] == line && ls[1..] == lines;
          assert text == Terminated(ls) + rest;
          Some((ls, rest))
  }

  lemma {:induction false} TakeTerminated(lines: seq<string>, rest: string)
    requires NoNewlines(lines)
    ensures TakeLines(Terminated(lines) + rest, |lines|) == Some((lines, rest))
  {
    var text := Terminated(lines) + rest;
    if lines == [] {
      assert text == rest;
    } else {
      var after := Terminated(lines[1..]) + rest;
      assert text == lines[0] + ['\n'] + after;
      SplitAtFirst(lines[0], '\n', after);
      assert Split(text, '\n') == Some((lines[0], after));
      TakeTerminated(lines[1..], rest);
      assert TakeLines(after, |lines| - 1) == Some((lines[1..], rest));
      assert [lines[0]] + lines[1..] == lines;
    }
  }

  /** Names stop at the first space; no field spans a line. */
  predicate WellFormed(r: Record) {
    ' ' !in r.name && '\n' !in r.name && '\n' !in r.sequence &&
    match r
    case FastaRecord(_, description, _) => '\n' !in description
    case FastqRecord(_, annotations, _, accuracy) => '\n' !in annotations && '\n' !in accuracy
  }

  /** A header line: its marker, then the name up to the first space, then the rest. */
  function ParseHeader(line: string): (h: Option<(string, string)>)
    requires |line| > 0
    ensures h.Some? ==> ' ' !in h.value.0 && line == [line[0]] + h.value.0 + " " + h.value.1
  {
    match Split(line[1..], ' ')
    case None => None
    case Some((name, info)) =>
      assert line == [line[0]] + line[1..];
      Some((name, info))
  }

  lemma HeaderRoundTrip(marker: char, name: string, info: string)
    requires ' ' !in name
    ensures ParseHeader([marker] + name + " " + info) == Some((name, info))
  {
    var line := [marker] + name + " " + info;
    assert line[1..] == name + [' '] + info;
    SplitAtFirst(name, ' ', info);
  }

  /**
   * Reads one record back from the front of `text`, returning it with the text after it.
   * Whatever it accepts is the serialisation of a well-formed record.
   */
  function ParseRecord(text: string): (p: Option<(Record, string)>)
    ensures p.Some? ==> WellFormed(p.value.0) && text == Serialize(p.value.0) + p.value.1
  {
    if |text| == 0 || (text[0] != '>' && text[0] != '@') then None
    else match TakeLines(text, if text[0] == '>' then 2 else 4)
      case None => None
      case Some((lines, rest)) =>
        if |lines[0]| == 0 then None
        else match ParseHeader(lines[0])
          case None => None
          case Some((name, info)) =>
            assert lines[0][0] == text[0];
            if text[0] == '>' then
              FastaFromLines(text, lines, rest, name, info);
              Some((FastaRecord(name, info, lines[1]), rest))
            else if lines[2] != "+" then None
            else
              FastqFromLines(text, lines, rest, name, info);
              Some((FastqRecord(name, info, lines[1], lines[3]), rest))
  }

  lemma FastaFromLines(text: string, lines: seq<string>, rest: string, name: string, info: string)
    requires |lines| == 2 && NoNewlines(lines) && text == Terminated(lines) + rest
    requires ' ' !in name && lines[0] == ">" + name + " " + info
    ensures var r := FastaRecord(name, info, lines[1]); WellFormed(r) && text == Serialize(r) + rest
  {
    var r := FastaRecord(name, info, lines[1]);
    assert '\n' !in lines[0] && '\n' !in lines[1];
    assert RecordLines(r) == lines;
  }

  lemma FastqFromLines(text: string, lines: seq<string>, rest: string, name: string, info: string)
    requires |lines| == 4 && NoNewlines(lines) && text == Terminated(lines) + rest
    requires ' ' !in name && lines[0] == "@" + name + " " + info && lines[2] == "+"
    ensures var r := FastqRecord(name, info, lines[1], lines[3]); WellFormed(r) && text == Serialize(r) + rest
  {
    var r := FastqRecord(name, info, lines[1], lines[3]);
    assert '\n' !in lines[0] && '\n' !in lines[1] && '\n' !in lines[3];
    assert RecordLines(r) == lines;
  }

  /** Serialising a well-formed record and reading it back gives the record and the rest of the text. */
  lemma ParseSerialize(r: Record, rest: string)
    requires WellFormed(r)
    ensures ParseRecord(Serialize(r) + rest) == Some((r, rest))
  {
    var lines := RecordLines(r);
    assert NoNewlines(lines);
    TakeTerminated(lines, rest);
    HeaderRoundTrip(lines[0][0], r.name, if r.FastqRecord? then r.annotations else r.description);
  }

  /** Reads a whole sink back as the records written to it. */
  function ParseAll(text: string): Option<seq<Record>>
    decreases |text|
  {
    if text == [] then Some([])
    else match ParseRecord(text)
      case None => None
      case Some((r, rest)) =>
        match ParseAll(rest)
        case None => None
        case Some(rs) => Some([r] + rs)
  }

  // ---------------------------------------------------------------------------
  // Intersection

  /** The names present in both databases. */
  function Shared(db1: map<string, Record>, db2: map<string, Record>): (keys: set<string>)
    ensures forall k :: k in keys <==> k in db1 && k in db2
  {
    db1.Keys * db2.Keys
  }

  lemma SharedSymmetric(db1: map<string, Record>, db2: map<string, Record>)
    ensures Shared(db1, db2) == Shared(db2, db1)
  {
  }

  lemma SharedWithItself(db: map<string, Record>)
    ensures |Shared(db, db)| == |db|
  {
    assert Shared(db, db) == db.Keys;
  }

  /** Two FASTA databases sharing only "y": that is the one name written, and side one's record reads `>y \nGT\n`. */
  lemma IntersectExample()
    ensures var a := map["x" := FastaRecord("x", "", "AC"), "y" := FastaRecord("y", "", "GT")];
      var b := map["y" := FastaRecord("y", "", "GT"), "z" := FastaRecord("z", "", "TT")];
      Shared(a, b) == {"y"} && Emit(a, ["y"]) == ">y \nGT\n"
  {
    var a := map["x" := FastaRecord("x", "", "AC"), "y" := FastaRecord("y", "", "GT")];
    var b := map["y" := FastaRecord("y", "", "GT"), "z" := FastaRecord("z", "", "TT")];
    assert "x" != "y" && "z" != "y" && "x" != "z";
    assert a.Keys == {"x", "y"} && b.Keys == {"y", "z"};
    var r := a["y"];
    assert r == FastaRecord("y", "", "GT");
    assert ">" + "y" + " " + "" == ">y ";
    assert RecordLines(r) == [">y ", "GT"];
    assert Terminated(["GT"]) == "GT\n" + Terminated([]);
    assert Serialize(r) == ">y " + "\n" + ("GT" + "\n");
    assert Emit(a, ["y"]) == Serialize(r) + Emit(a, []);
  }

  predicate Distinct(order: seq<string>) {
    forall i, j :: 0 <= i < j < |order| ==> order[i] != order[j]
  }

  /** `order` lists every element of `keys` exactly once. */
  predicate Enumerates(order: seq<string>, keys: set<string>) {
    Distinct(order) && (forall i :: 0 <= i < |order| ==> order[i] in keys) && (forall k :: k in keys ==> k in order)
  }

  lemma {:induction false} EnumerationSize(order: seq<string>, keys: set<string>)
    requires Enumerates(order, keys)
    ensures |order| == |keys|
    decreases |order|
  {
    if order == [] {
      assert keys == {};
    } else {
      var last := order[|order| - 1];
      var front := order[..|order| - 1];
      assert Enumerates(front, keys - {last}) by {
        forall k | k in keys - {last} ensures k in front {
          var i :| 0 <= i < |order| && order[i] == k;
          assert i != |order| - 1;
          assert front[i] == k;
        }
      }
      EnumerationSize(front, keys - {last});
    }
  }

  /** All the text written to one sink, for the keys in the order they were visited. */
  function Emit(db: map<string, Record>, order: seq<string>): (text: string)
    requires forall i :: 0 <= i < |order| ==> order[i] in db
    ensures text == [] <==> order == []
    ensures order != [] ==> text[|text| - 1] == '\n'
  {
    if order == [] then [] else Serialize(db[order[0]]) + Emit(db, order[1..])
  }

  lemma {:induction false} EmitAppend(db: map<string, Record>, order: seq<string>, k: string)
    requires forall i :: 0 <= i < |order| ==> order[i] in db
    requires k in db
    ensures Emit(db, order + [k]) == Emit(db, order) + Serialize(db[k])
  {
    if order == [] {
      assert Emit(db, [k]) == Serialize(db[k]) + Emit(db, []);
    } else {
      var head, tail := Serialize(db[order[0]]), order[1..];
      assert (order + [k])[1..] == tail + [k];
      assert Emit(db, order + [k]) == head + Emit(db, tail + [k]);
      EmitAppend(db, tail, k);
      ConcatAssoc(head, Emit(db, tail), Serialize(db[k]));
    }
  }

  /** The records a sink holds, in writing order. */
  function Looked(db: map<string, Record>, order: seq<string>): (rs: seq<Record>)
    requires forall i :: 0 <= i < |order| ==> order[i] in db
    ensures |rs| == |order| && forall i :: 0 <= i < |order| ==> rs[i] == db[order[i]]
  {
    seq(|order|, i requires 0 <= i < |order| => db[order[i]])
  }

  /** A sink's text reads back as exactly the records looked up for the visited keys, in order. */
  lemma {:induction false} EmitReadsBack(db: map<string, Record>, order: seq<string>)
    requires forall i :: 0 <= i < |order| ==> order[i] in db && WellFormed(db[order[i]])
    ensures ParseAll(Emit(db, order)) == Some(Looked(db, order))
  {
    if order != [] {
      var r := db[order[0]];
      var rest := Emit(db, order[1..]);
      assert Emit(db, order) == Serialize(r) + rest;
      ParseSerialize(r, rest);
      EmitReadsBack(db, order[1..]);
      ParseAllCons(Serialize(r) + rest, r, rest, Looked(db, order[1..]));
      LookedCons(db, order);
    }
  }

  lemma ParseAllCons(text: string, r: Record, rest: string, rs: seq<Record>)
    requires ParseRecord(text) == Some((r, rest)) && ParseAll(rest) == Some(rs)
    ensures ParseAll(text) == Some([r] + rs)
  {
  }

  lemma LookedCons(db: map<string, Record>, order: seq<string>)
    requires order != [] && forall i :: 0 <= i < |order| ==> order[i] in db
    ensures Looked(db, order) == [db[order[0]]] + Looked(db, order[1..])
  {
  }

  datatype Destination = Stdout | File(path: string)

  datatype Sink = Sink(destination: Destination, text: string)

  /** Python truthiness of an optional file name: None and "" both mean "not given". */
  predicate Given(name: Option<string>) {
    name.Some? && name.value != []
  }

  /**
   * `get_screed_key_intersect`: visits the shared names in an unspecified order (the
   * iteration order of a Python set, returned as the ghost `order`), writing side one's
   * record to sink one (standard output unless `out1` is given) and, only when `out2`
   * is given, side two's record to sink two.
   */
  method WriteIntersection(db1: map<string, Record>, db2: map<string, Record>,
                           out1: Option<string>, out2: Option<string>)
    returns (sink1: Sink, sink2: Option<Sink>, ghost order: seq<string>)
    ensures Enumerates(order, Shared(db1, db2))
    ensures sink1 == Sink(if Given(out1) then File(out1.value) else Stdout, Emit(db1, order))
    ensures sink2 == if Given(out2) then Some(Sink(File(out2.value), Emit(db2, order))) else None
  {
    var shared := db1.Keys * db2.Keys;
    var remaining := shared;
    var text1, text2 := "", "";
    order := [];
    while remaining != {}
      invariant Visiting(shared, remaining, order)
      invariant forall i :: 0 <= i < |order| ==> order[i] in db1 && order[i] in db2
      invariant text1 == Emit(db1, order)
      invariant text2 == if Given(out2) then Emit(db2, order) else ""
      decreases remaining
    {
      var x :| x in remaining;
      EmitAppend(db1, order, x);
      text1 := text1 + Serialize(db1[x]);
      if Given(out2) {
        EmitAppend(db2, order, x);
        text2 := text2 + Serialize(db2[x]);
      }
      VisitNext(shared, remaining, order, x);
      order := order + [x];
      remaining := remaining - {x};
    }
    VisitDone(shared, order);
    sink1 := Sink(if Given(out1) then File(out1.value) else Stdout, text1);
    sink2 := if Given(out2) then Some(Sink(File(out2.value), text2)) else None;
  }

  /** The loop's bookkeeping: `order` lists, once each, the keys of `keys` no longer `remaining`. */
  predicate Visiting(keys: set<string>, remaining: set<string>, order: seq<string>) {
    remaining <= keys && Distinct(order) &&
    (forall i :: 0 <= i < |order| ==> order[i] in keys && order[i] !in remaining) &&
    (forall k :: k in keys ==> k in remaining || k in order)
  }

  lemma VisitNext(keys: set<string>, remaining: set<string>, order: seq<string>, x: string)
    requires Visiting(keys, remaining, order) && x in remaining
    ensures Visiting(keys, remaining - {x}, order + [x])
  {
    var next := order + [x];
    forall i | 0 <= i < |next| ensures next[i] in keys && next[i] !in remaining - {x} {
      if i < |order| {
        assert next[i] == order[i];
      }
    }
    forall k | k in keys ensures k in remaining - {x} || k in next {
      if k in order {
        var i :| 0 <= i < |order| && order[i] == k;
        assert next[i] == k;
      } else if k == x {
        assert next[|order|] == x;
      }
    }
  }

  lemma VisitDone(keys: set<string>, order: seq<string>)
    requires Visiting(keys, {}, order)
    ensures Enumerates(order, keys)
  {
  }
}
