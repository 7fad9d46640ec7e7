/**
 * fasta_info: record count, total length and G+C content of a FASTA file, and the
 * table that prints them.  The pyfasta index is modelled as its items in iteration
 * order; a G+C percentage is kept as the exact ratio behind the printed float.
 */
module FastaInfo {

  import opened Wrappers
  import opened Text

  /** One item of the FASTA index: a record name and its sequence. */
  datatype Entry = Entry(name: string, sequence: string)

  // ---------------------------------------------------------------------------
  // Statistics

  /** `info`: each record's name with its length. */
  function Info(f: seq<Entry>): (info: seq<(string, nat)>)
    ensures |info| == |f|
    ensures forall i :: 0 <= i < |f| ==> info[i] == (f[i].name, |f[i].sequence|)
  {
    seq(|f|, i requires 0 <= i < |f| => (f[i].name, |f[i].sequence|))
  }

  /** `sum(l for k, l in info)`. */
  function SumLengths(info: seq<(string, nat)>): nat {
    if info == [] then 0 else SumLengths(info[..|info| - 1]) + info[|info| - 1].1
  }

  function TotalLength(f: seq<Entry>): nat {
    if f == [] then 0 else TotalLength(f[..|f| - 1]) + |f[|f| - 1].sequence|
  }

  /** `sum` over the records of `str(f[k]).upper().count(c)`. */
  function SumCount(f: seq<Entry>, c: char): nat {
    if f == [] then 0 else SumCount(f[..|f| - 1], c) + Count(Upper(f[|f| - 1].sequence), c)
  }

  /** The --tl total is the sum of the record lengths. */
  lemma {:induction false} SumLengthsIsTotalLength(f: seq<Entry>)
    ensures SumLengths(Info(f)) == TotalLength(f)
  {
    if f != [] {
      var front := f[..|f| - 1];
      SumLengthsIsTotalLength(front);
      assert Info(f)[..|f| - 1] == Info(front);
    }
  }

  /** G+C count of one sequence, after upper-casing it. */
  function GCCount(s: string): nat {
    Count(Upper(s), 'G') + Count(Upper(s), 'C')
  }

  /** The total G+C numerator, `g_all + c_all`. */
  function TotalGCCount(f: seq<Entry>): nat {
    SumCount(f, 'G') + SumCount(f, 'C')
  }

  /** G+C counting ignores case: 'g' and 'c' count as much as 'G' and 'C'. */
  lemma GCCaseInsensitive(s: string)
    ensures GCCount(s) == Count(s, 'G') + Count(s, 'g') + Count(s, 'C') + Count(s, 'c')
  {
    CountUpperCaseInsensitive(s, 'G', 'g');
    CountUpperCaseInsensitive(s, 'C', 'c');
  }

  /** A sequence never has more G+C than letters, so its percentage is at most 100. */
  lemma GCCountBound(s: string)
    ensures GCCount(s) <= |s|
  {
    CountTwoBound(Upper(s), 'G', 'C');
  }

  /** The total G+C count is the sum of the records' own G+C counts... */
  lemma {:induction false} TotalGCIsSumOfRecords(f: seq<Entry>)
    ensures TotalGCCount(f) == SumGC(f)
  {
    if f != [] {
      TotalGCIsSumOfRecords(f[..|f| - 1]);
    }
  }

  function SumGC(f: seq<Entry>): nat {
    if f == [] then 0 else SumGC(f[..|f| - 1]) + GCCount(f[|f| - 1].sequence)
  }

  /** ...so it never exceeds the total length. */
  lemma {:induction false} TotalGCBound(f: seq<Entry>)
    ensures TotalGCCount(f) <= TotalLength(f)
  {
    TotalGCIsSumOfRecords(f);
    SumGCBound(f);
  }

  lemma {:induction false} SumGCBound(f: seq<Entry>)
    ensures SumGC(f) <= TotalLength(f)
  {
    if f != [] {
      SumGCBound(f[..|f| - 1]);
      GCCountBound(f[|f| - 1].sequence);
    }
  }

  /** All the sequences of the file, one after the other. */
  function Concatenation(f: seq<Entry>): string {
    if f == [] then [] else Concatenation(f[..|f| - 1]) + f[|f| - 1].sequence
  }

  /** The totals are those of the concatenated sequences: `l_all` is its length, `g_all + c_all` its G+C count. */
  lemma {:induction false} TotalsOfConcatenation(f: seq<Entry>)
    ensures TotalLength(f) == |Concatenation(f)|
    ensures TotalGCCount(f) == GCCount(Concatenation(f))
  {
    if f != [] {
      var front, s := f[..|f| - 1], f[|f| - 1].sequence;
      TotalsOfConcatenation(front);
      var all := Concatenation(front);
      assert Upper(all + s) == Upper(all) + Upper(s);
      CountAppend(Upper(all), Upper(s), 'G');
      CountAppend(Upper(all), Upper(s), 'C');
    }
  }

  /** The two-record example: `ACGT` and `GGCC` give 2 records, 8 bases, 6 of them G or C. */
  lemma TwoRecordExample()
    ensures var f := [Entry("seq1", "ACGT"), Entry("seq2", "GGCC")];
      |f| == 2 && TotalLength(f) == 8 && TotalGCCount(f) == 6
  {
    var f := [Entry("seq1", "ACGT"), Entry("seq2", "GGCC")];
    assert f[..1] == [f[0]] && f[..1][..0] == [];
    assert GCCount("ACGT") == 2 by {
      assert Upper("ACGT") == "ACGT";
      assert Count("ACGT", 'G') == 1 && Count("ACGT", 'C') == 1;
    }
    assert GCCount("GGCC") == 4 by {
      assert Upper("GGCC") == "GGCC";
      assert Count("GGCC", 'G') == 2 && Count("GGCC", 'C') == 2;
    }
    TotalGCIsSumOfRecords(f);
  }

  // ---------------------------------------------------------------------------
  // Columns

  /** The command-line switches: --fn, --tn, --tl, --tgc, --sn, --sl, --sgc and --header. */
  datatype Options = Options(
    fileName: bool, totalSeqs: bool, totalLength: bool, totalGC: bool,
    seqName: bool, seqLength: bool, seqGC: bool, header: bool)

  datatype Column = FileName | TotalSeqs | TotalSeqLength | TotalGC | SeqName | SeqLength | SeqGC

  /** A column's place in the fixed order. */
  function Rank(c: Column): nat {
    match c
    case FileName => 0
    case TotalSeqs => 1
    case TotalSeqLength => 2
    case TotalGC => 3
    case SeqName => 4
    case SeqLength => 5
    case SeqGC => 6
  }

  function Title(c: Column): string {
    match c
    case FileName => "file_name"
    case TotalSeqs => "total_sequences"
    case TotalSeqLength => "total_seq_length"
    case TotalGC => "total_GC"
    case SeqName => "seq_name"
    case SeqLength => "seq_length"
    case SeqGC => "seq_GC"
  }

  predicate Selected(o: Options, c: Column) {
    match c
    case FileName => o.fileName
    case TotalSeqs => o.totalSeqs
    case TotalSeqLength => o.totalLength
    case TotalGC => o.totalGC
    case SeqName => o.seqName
    case SeqLength => o.seqLength
    case SeqGC => o.seqGC
  }

  /** Some per-sequence column is asked for, so the table has a row per record. */
  predicate PerSequence(o: Options) {
    o.seqName || o.seqLength || o.seqGC
  }

  function Opt(selected: bool, c: Column): seq<Column> {
    if selected then [c] else []
  }

  /** The selected summary columns, in the order the script appends them. */
  function SummaryColumns(o: Options): seq<Column> {
    Opt(o.fileName, FileName) + Opt(o.totalSeqs, TotalSeqs) + Opt(o.totalLength, TotalSeqLength) + Opt(o.totalGC, TotalGC)
  }

  /** The selected per-sequence columns, in order. */
  function SequenceColumns(o: Options): seq<Column> {
    Opt(o.seqName, SeqName) + Opt(o.seqLength, SeqLength) + Opt(o.seqGC, SeqGC)
  }

  /** The columns of the table, in the header and in every row. */
  function Columns(o: Options): seq<Column> {
    SummaryColumns(o) + SequenceColumns(o)
  }

  predicate InFixedOrder(cols: seq<Column>) {
    forall i, j :: 0 <= i < j < |cols| ==> Rank(cols[i]) < Rank(cols[j])
  }

  /** `cols` holds exactly the selected columns ranked below k, in order. */
  predicate SelectedBelow(o: Options, cols: seq<Column>, k: nat) {
    InFixedOrder(cols) && forall x :: x in cols <==> Selected(o, x) && Rank(x) < k
  }

  lemma SelectNext(o: Options, cols: seq<Column>, c: Column)
    requires SelectedBelow(o, cols, Rank(c))
    ensures SelectedBelow(o, cols + Opt(Selected(o, c), c), Rank(c) + 1)
  {
    if Selected(o, c) {
      var all := cols + [c];
      forall i, j | 0 <= i < j < |all| ensures Rank(all[i]) < Rank(all[j]) {
        assert all[i] == cols[i];
        if j < |cols| {
          assert all[j] == cols[j];
        }
      }
    } else {
      assert cols + [] == cols;
    }
  }

  /** Exactly the selected columns appear, each once, in the order fn, tn, tl, tgc, sn, sl, sgc. */
  lemma ColumnsInFixedOrder(o: Options)
    ensures forall c :: c in Columns(o) <==> Selected(o, c)
    ensures InFixedOrder(Columns(o))
  {
    SelectedColumns(o);
    forall c ensures c in Columns(o) <==> Selected(o, c) {
      assert Rank(c) < 7;
    }
  }

  lemma SelectedColumns(o: Options)
    ensures SelectedBelow(o, Columns(o), 7)
  {
    var s := SummaryColumns(o);
    SelectedSummary(o);
    SelectNext(o, s, SeqName);
    var p5 := s + Opt(o.seqName, SeqName);
    SelectNext(o, p5, SeqLength);
    var p6 := p5 + Opt(o.seqLength, SeqLength);
    SelectNext(o, p6, SeqGC);
    ConcatAssoc(s, Opt(o.seqName, SeqName) + Opt(o.seqLength, SeqLength), Opt(o.seqGC, SeqGC));
    ConcatAssoc(s, Opt(o.seqName, SeqName), Opt(o.seqLength, SeqLength));
  }

  lemma SelectedSummary(o: Options)
    ensures SelectedBelow(o, SummaryColumns(o), 4)
  {
    var p0: seq<Column> := [];
    SelectNext(o, p0, FileName);
    var p1 := p0 + Opt(o.fileName, FileName);
    assert p1 == Opt(o.fileName, FileName);
    SelectNext(o, p1, TotalSeqs);
    var p2 := p1 + Opt(o.totalSeqs, TotalSeqs);
    SelectNext(o, p2, TotalSeqLength);
    var p3 := p2 + Opt(o.totalLength, TotalSeqLength);
    SelectNext(o, p3, TotalGC);
  }

  /** The header line's fields, one title per column. */
  function Titles(cols: seq<Column>): seq<string> {
    if cols == [] then [] else Titles(cols[..|cols| - 1]) + [Title(cols[|cols| - 1])]
  }

  lemma {:induction false} TitlesAreColumnTitles(cols: seq<Column>)
    ensures |Titles(cols)| == |cols|
    ensures forall i :: 0 <= i < |cols| ==> Titles(cols)[i] == Title(cols[i])
  {
    if cols != [] {
      TitlesAreColumnTitles(cols[..|cols| - 1]);
    }
  }

  lemma {:induction false} TitlesAppend(a: seq<Column>, b: seq<Column>)
    ensures Titles(a + b) == Titles(a) + Titles(b)
  {
    if b == [] {
      assert a + b == a;
    } else {
      var front := b[..|b| - 1];
      assert (a + b)[..|a + b| - 1] == a + front;
      TitlesAppend(a, front);
      ConcatAssoc(Titles(a), Titles(front), [Title(b[|b| - 1])]);
    }
  }

  /** Appends the title of column c when it is selected. */
  method AppendTitle(header: seq<string>, selected: bool, c: Column) returns (r: seq<string>)
    ensures r == header + Titles(Opt(selected, c))
  {
    r := header;
    if selected {
      r := r + [Title(c)];
      assert [c][..0] == [];
    }
  }

  /** The `tblHeader` appends. */
  method BuildHeader(o: Options) returns (header: seq<string>)
    ensures header == Titles(Columns(o))
  {
    header := [];
    header := AppendTitle(header, o.fileName, FileName);
    header := AppendTitle(header, o.totalSeqs, TotalSeqs);
    header := AppendTitle(header, o.totalLength, TotalSeqLength);
    header := AppendTitle(header, o.totalGC, TotalGC);
    header := AppendTitle(header, o.seqName, SeqName);
    header := AppendTitle(header, o.seqLength, SeqLength);
    header := AppendTitle(header, o.seqGC, SeqGC);
    HeaderChain(o);
  }

  lemma HeaderChain(o: Options)
    ensures Titles(Columns(o)) == [] + Titles(Opt(o.fileName, FileName)) + Titles(Opt(o.totalSeqs, TotalSeqs))
      + Titles(Opt(o.totalLength, TotalSeqLength)) + Titles(Opt(o.totalGC, TotalGC)) + Titles(Opt(o.seqName, SeqName))
      + Titles(Opt(o.seqLength, SeqLength)) + Titles(Opt(o.seqGC, SeqGC))
  {
    var s1, s2 := Opt(o.fileName, FileName), Opt(o.totalSeqs, TotalSeqs);
    var s3, s4 := Opt(o.totalLength, TotalSeqLength), Opt(o.totalGC, TotalGC);
    var q1, q2, q3 := Opt(o.seqName, SeqName), Opt(o.seqLength, SeqLength), Opt(o.seqGC, SeqGC);
    TitlesAppend(s1 + s2 + s3 + s4, q1 + q2 + q3);
    TitlesAppend(s1 + s2 + s3, s4);
    TitlesAppend(s1 + s2, s3);
    TitlesAppend(s1, s2);
    TitlesAppend(q1 + q2, q3);
    TitlesAppend(q1, q2);
    var t1, t2, t3, t4 := Titles(s1), Titles(s2), Titles(s3), Titles(s4);
    var u1, u2, u3 := Titles(q1), Titles(q2), Titles(q3);
    assert [] + t1 == t1;
    ConcatAssoc(t1 + t2 + t3 + t4, u1 + u2, u3);
    ConcatAssoc(t1 + t2 + t3 + t4, u1, u2);
  }

  // ---------------------------------------------------------------------------
  // Table body

  /** One table cell: text, a whole number, or a G+C percentage kept as the ratio 100 * gc / length. */
  datatype Cell = Field(text: string) | Whole(value: nat) | Percentage(gc: nat, length: nat)

  /** What column c shows on the row of record e of file `fileName`. */
  function CellFor(c: Column, fileName: string, f: seq<Entry>, e: Entry): Cell {
    match c
    case FileName => Field(fileName)
    case TotalSeqs => Whole(|f|)
    case TotalSeqLength => Whole(TotalLength(f))
    case TotalGC => Percentage(TotalGCCount(f), TotalLength(f))
    case SeqName => Field(e.name)
    case SeqLength => Whole(|e.sequence|)
    case SeqGC => Percentage(GCCount(e.sequence), |e.sequence|)
  }

  function Cells(cols: seq<Column>, fileName: string, f: seq<Entry>, e: Entry): seq<Cell> {
    if cols == [] then [] else Cells(cols[..|cols| - 1], fileName, f, e) + [CellFor(cols[|cols| - 1], fileName, f, e)]
  }

  /** The row of record e: one cell per selected column. */
  function Row(o: Options, fileName: string, f: seq<Entry>, e: Entry): seq<Cell> {
    Cells(Columns(o), fileName, f, e)
  }

  lemma {:induction false} CellsAreColumnCells(cols: seq<Column>, fileName: string, f: seq<Entry>, e: Entry)
    ensures |Cells(cols, fileName, f, e)| == |cols|
    ensures forall i :: 0 <= i < |cols| ==> Cells(cols, fileName, f, e)[i] == CellFor(cols[i], fileName, f, e)
  {
    if cols != [] {
      CellsAreColumnCells(cols[..|cols| - 1], fileName, f, e);
    }
  }

  lemma {:induction false} CellsAppend(a: seq<Column>, b: seq<Column>, fileName: string, f: seq<Entry>, e: Entry)
    ensures Cells(a + b, fileName, f, e) == Cells(a, fileName, f, e) + Cells(b, fileName, f, e)
  {
    if b == [] {
      assert a + b == a;
    } else {
      var front := b[..|b| - 1];
      assert (a + b)[..|a + b| - 1] == a + front;
      CellsAppend(a, front, fileName, f, e);
      ConcatAssoc(Cells(a, fileName, f, e), Cells(front, fileName, f, e), [CellFor(b[|b| - 1], fileName, f, e)]);
    }
  }

  /** The two halves of a row: summary cells, then per-sequence cells. */
  lemma RowHalves(o: Options, fileName: string, f: seq<Entry>, e: Entry)
    ensures Row(o, fileName, f, e) ==
      Cells(SummaryColumns(o), fileName, f, e) + Cells(Opt(o.seqName, SeqName), fileName, f, e)
      + Cells(Opt(o.seqLength, SeqLength), fileName, f, e) + Cells(Opt(o.seqGC, SeqGC), fileName, f, e)
  {
    var s, q1, q2, q3 := SummaryColumns(o), Opt(o.seqName, SeqName), Opt(o.seqLength, SeqLength), Opt(o.seqGC, SeqGC);
    CellsAppend(s, q1 + q2 + q3, fileName, f, e);
    CellsAppend(q1 + q2, q3, fileName, f, e);
    CellsAppend(q1, q2, fileName, f, e);
    var c0, c1, c2, c3 := Cells(s, fileName, f, e), Cells(q1, fileName, f, e), Cells(q2, fileName, f, e), Cells(q3, fileName, f, e);
    ConcatAssoc(c0, c1 + c2, c3);
    ConcatAssoc(c0, c1, c2);
  }

  lemma SummaryQuarters(o: Options, fileName: string, f: seq<Entry>, e: Entry)
    ensures Cells(SummaryColumns(o), fileName, f, e) ==
      [] + Cells(Opt(o.fileName, FileName), fileName, f, e) + Cells(Opt(o.totalSeqs, TotalSeqs), fileName, f, e)
      + Cells(Opt(o.totalLength, TotalSeqLength), fileName, f, e) + Cells(Opt(o.totalGC, TotalGC), fileName, f, e)
  {
    var s1, s2 := Opt(o.fileName, FileName), Opt(o.totalSeqs, TotalSeqs);
    var s3, s4 := Opt(o.totalLength, TotalSeqLength), Opt(o.totalGC, TotalGC);
    CellsAppend(s1 + s2 + s3, s4, fileName, f, e);
    CellsAppend(s1 + s2, s3, fileName, f, e);
    CellsAppend(s1, s2, fileName, f, e);
    assert [] + Cells(s1, fileName, f, e) == Cells(s1, fileName, f, e);
  }

  /** `line.append(...)` under the column's switch. */
  method AppendCell(line: seq<Cell>, selected: bool, cell: Cell, ghost c: Column, ghost fileName: string, ghost f: seq<Entry>, ghost e: Entry)
    returns (r: seq<Cell>)
    requires selected ==> cell == CellFor(c, fileName, f, e)
    ensures r == line + Cells(Opt(selected, c), fileName, f, e)
  {
    r := line;
    if selected {
      r := r + [cell];
      assert [c][..0] == [];
    }
  }

  /** The summary half of a row, from the totals computed before the table. */
  method SummaryLine(o: Options, fileName: string, nseqs: nat, totalLen: nat, gcAll: nat, lAll: nat,
                     ghost f: seq<Entry>, ghost e: Entry) returns (line: seq<Cell>)
    requires o.totalSeqs ==> nseqs == |f|
    requires o.totalLength ==> totalLen == TotalLength(f)
    requires o.totalGC ==> gcAll == TotalGCCount(f) && lAll == TotalLength(f)
    ensures line == Cells(SummaryColumns(o), fileName, f, e)
  {
    line := [];
    line := AppendCell(line, o.fileName, Field(fileName), FileName, fileName, f, e);
    line := AppendCell(line, o.totalSeqs, Whole(nseqs), TotalSeqs, fileName, f, e);
    line := AppendCell(line, o.totalLength, Whole(totalLen), TotalSeqLength, fileName, f, e);
    line := AppendCell(line, o.totalGC, Percentage(gcAll, lAll), TotalGC, fileName, f, e);
    SummaryQuarters(o, fileName, f, e);
  }

  // ---------------------------------------------------------------------------
  // The whole table

  datatype InfoError =
    | ZeroTotalLength                  // --tgc on a file whose sequences are all empty
    | ZeroSequenceLength(name: string) // --sgc reached an empty sequence

  /** What is printed: the header line if any, the body lines, and the division error that stopped the run. */
  datatype Output = Output(header: Option<seq<string>>, body: seq<seq<Cell>>, error: Option<InfoError>)

  /** The index of the first empty sequence, or |f| when there is none. */
  function FirstEmpty(f: seq<Entry>): (k: nat)
    ensures k <= |f|
    ensures k < |f| ==> |f[k].sequence| == 0
    ensures forall j :: 0 <= j < k ==> |f[j].sequence| > 0
  {
    if f == [] then 0 else if |f[0].sequence| == 0 then 0 else 1 + FirstEmpty(f[1..])
  }

  /** The rows for the table body when nothing stops the run. */
  function Body(o: Options, fileName: string, f: seq<Entry>): seq<seq<Cell>> {
    if PerSequence(o) then Rows(o, fileName, f, |f|)
    else if f == [] then []
    else [Row(o, fileName, f, f[0])]
  }

  /** The body, or the error of the first empty sequence when --sgc is set. */
  function BodyResult(o: Options, fileName: string, f: seq<Entry>): Result<seq<seq<Cell>>, InfoError> {
    if o.seqGC && FirstEmpty(f) < |f| then Err(ZeroSequenceLength(f[FirstEmpty(f)].name))
    else Ok(Body(o, fileName, f))
  }

  /** The expected output for file `fileName` with index items f and switches o. */
  function InfoTable(fileName: string, f: seq<Entry>, o: Options): Output {
    if o.totalGC && TotalLength(f) == 0 then
      Output(None, [], Some(ZeroTotalLength))
    else
      var header := if o.header then Some(Titles(Columns(o))) else None;
      match BodyResult(o, fileName, f)
      case Ok(rows) => Output(header, rows, None)
      case Err(e) => Output(header, [], Some(e))
  }

  /** The --tgc loop: G count, C count and length summed over the records. */
  method GCTotals(f: seq<Entry>) returns (gAll: nat, cAll: nat, lAll: nat)
    ensures gAll + cAll == TotalGCCount(f)
    ensures lAll == TotalLength(f)
  {
    gAll, cAll, lAll := 0, 0, 0;
    for i := 0 to |f|
      invariant gAll == SumCount(f[..i], 'G') && cAll == SumCount(f[..i], 'C')
      invariant lAll == TotalLength(f[..i])
    {
      var s := Upper(f[i].sequence);
      gAll := gAll + Count(s, 'G');
      cAll := cAll + Count(s, 'C');
      lAll := lAll + |f[i].sequence|;
      assert f[..i + 1][..i] == f[..i];
    }
    assert f[..|f|] == f;
  }

  /** The line of record e when some per-sequence column is selected; --sgc fails on an empty sequence. */
  method RecordLine(o: Options, fileName: string, f: seq<Entry>, e: Entry, nseqs: nat, totalLen: nat, gcAll: nat, lAll: nat)
    returns (r: Result<seq<Cell>, InfoError>)
    requires o.totalSeqs ==> nseqs == |f|
    requires o.totalLength ==> totalLen == TotalLength(f)
    requires o.totalGC ==> gcAll == TotalGCCount(f) && lAll == TotalLength(f)
    ensures r == if o.seqGC && |e.sequence| == 0 then Err(ZeroSequenceLength(e.name)) else Ok(Row(o, fileName, f, e))
  {
    var k, l := e.name, |e.sequence|;
    var line := SummaryLine(o, fileName, nseqs, totalLen, gcAll, lAll, f, e);
    line := AppendCell(line, o.seqName, Field(k), SeqName, fileName, f, e);
    line := AppendCell(line, o.seqLength, Whole(l), SeqLength, fileName, f, e);
    var gc := 0;
    if o.seqGC {
      var s := Upper(e.sequence);
      var g := Count(s, 'G');
      var c := Count(s, 'C');
      if l == 0 {
        return Err(ZeroSequenceLength(k));
      }
      gc := g + c;
    }
    line := AppendCell(line, o.seqGC, Percentage(gc, l), SeqGC, fileName, f, e);
    RowHalves(o, fileName, f, e);
    r := Ok(line);
  }

  /** Without per-sequence columns a row holds the summary cells only. */
  lemma SummaryRow(o: Options, fileName: string, f: seq<Entry>, e: Entry)
    requires !PerSequence(o)
    ensures Row(o, fileName, f, e) == Cells(SummaryColumns(o), fileName, f, e)
  {
    assert SequenceColumns(o) == [];
    assert Columns(o) == SummaryColumns(o);
  }

  /** The body loop: one line per record, or only the first line when no per-sequence column is selected. */
  method BuildBody(o: Options, fileName: string, f: seq<Entry>, nseqs: nat, totalLen: nat, gcAll: nat, lAll: nat)
    returns (r: Result<seq<seq<Cell>>, InfoError>)
    requires o.totalSeqs ==> nseqs == |f|
    requires o.totalLength ==> totalLen == TotalLength(f)
    requires o.totalGC ==> gcAll == TotalGCCount(f) && lAll == TotalLength(f)
    ensures r == BodyResult(o, fileName, f)
  {
    var tbl: seq<seq<Cell>> := [];
    for i := 0 to |f|
      invariant PerSequence(o) ==> tbl == Rows(o, fileName, f, i)
      invariant !PerSequence(o) ==> i == 0 && tbl == []
      invariant o.seqGC ==> NoEmptyBefore(f, i)
    {
      if PerSequence(o) {
        var line := RecordLine(o, fileName, f, f[i], nseqs, totalLen, gcAll, lAll);
        match line
        case Err(e) =>
          FirstEmptyAt(f, i);
          return Err(e);
        case Ok(cells) =>
          RowsStep(o, fileName, f, i);
          tbl := tbl + [cells];
      } else {
        var line := SummaryLine(o, fileName, nseqs, totalLen, gcAll, lAll, f, f[i]);
        SummaryRow(o, fileName, f, f[i]);
        tbl := tbl + [line];
        assert tbl == Body(o, fileName, f);
        break;
      }
    }
    if o.seqGC {
      FirstEmptyAt(f, |f|);
    }
    assert tbl == Body(o, fileName, f);
    r := Ok(tbl);
  }

  /** The first n rows of a per-sequence body. */
  function Rows(o: Options, fileName: string, f: seq<Entry>, n: nat): seq<seq<Cell>>
    requires n <= |f|
  {
    seq(n, j requires 0 <= j < n => Row(o, fileName, f, f[j]))
  }

  lemma RowsStep(o: Options, fileName: string, f: seq<Entry>, n: nat)
    requires n < |f|
    ensures Rows(o, fileName, f, n + 1) == Rows(o, fileName, f, n) + [Row(o, fileName, f, f[n])]
  {
  }

  predicate NoEmptyBefore(f: seq<Entry>, n: nat) {
    forall j :: 0 <= j < n && j < |f| ==> |f[j].sequence| > 0
  }

  /** The first empty sequence is at i when none comes before it (i == |f|: there is none). */
  lemma FirstEmptyAt(f: seq<Entry>, i: nat)
    requires i <= |f| && NoEmptyBefore(f, i)
    requires i < |f| ==> |f[i].sequence| == 0
    ensures FirstEmpty(f) == i
  {
  }

  /** The script: totals, header, then the body lines, or the division error that stops it. */
  method Tabulate(fileName: string, f: seq<Entry>, o: Options) returns (out: Output)
    ensures out == InfoTable(fileName, f, o)
  {
    var nseqs, totalLen := 0, 0;
    if o.totalSeqs {
      nseqs := |f|;
    }
    if o.totalLength {
      totalLen := SumLengths(Info(f));
      SumLengthsIsTotalLength(f);
    }
    var gcAll, lAll := 0, 0;
    if o.totalGC {
      var g, c, l := GCTotals(f);
      if l == 0 {
        return Output(None, [], Some(ZeroTotalLength));
      }
      gcAll, lAll := g + c, l;
    }
    var header: Option<seq<string>> := None;
    if o.header {
      var h := BuildHeader(o);
      header := Some(h);
    }
    var body := BuildBody(o, fileName, f, nseqs, totalLen, gcAll, lAll);
    match body
    case Ok(rows) => out := Output(header, rows, None);
    case Err(e) => out := Output(header, [], Some(e));
  }

  // ---------------------------------------------------------------------------
  // Properties of the table

  /** When each division error happens, and that it suppresses the body (and, for --tgc, the header too). */
  lemma InfoTableErrors(fileName: string, f: seq<Entry>, o: Options)
    ensures var out := InfoTable(fileName, f, o);
      && (out.error == Some(ZeroTotalLength) <==> o.totalGC && TotalLength(f) == 0)
      && (out.error == Some(ZeroTotalLength) ==> out.header == None)
      && (out.error.Some? && out.error.value.ZeroSequenceLength? <==>
            !(o.totalGC && TotalLength(f) == 0) && o.seqGC && exists j :: 0 <= j < |f| && |f[j].sequence| == 0)
      && (out.error.Some? && out.error.value.ZeroSequenceLength? ==>
            exists j :: 0 <= j < |f| && |f[j].sequence| == 0 && f[j].name == out.error.value.name
              && forall i :: 0 <= i < j ==> |f[i].sequence| > 0)
      && (out.error.Some? ==> out.body == [])
  {
    var k := FirstEmpty(f);
    if o.seqGC && (exists j :: 0 <= j < |f| && |f[j].sequence| == 0) {
      var j :| 0 <= j < |f| && |f[j].sequence| == 0;
      assert k <= j;
    }
  }

  /** A run that stops on no error prints the header (if asked for) and one line per record,
      or a single line when no per-sequence column is selected; line j holds record j's cells. */
  lemma InfoTableShape(fileName: string, f: seq<Entry>, o: Options)
    requires InfoTable(fileName, f, o).error == None
    ensures var out := InfoTable(fileName, f, o);
      && out.header == (if o.header then Some(Titles(Columns(o))) else None)
      && |out.body| == (if PerSequence(o) then |f| else if f == [] then 0 else 1)
      && (forall j :: 0 <= j < |out.body| ==> |out.body[j]| == |Columns(o)|)
      && (forall j, k :: 0 <= j < |out.body| && 0 <= k < |Columns(o)| ==>
            out.body[j][k] == CellFor(Columns(o)[k], fileName, f, f[j]))
  {
    var out := InfoTable(fileName, f, o);
    forall j | 0 <= j < |out.body|
      ensures |out.body[j]| == |Columns(o)|
      ensures forall k :: 0 <= k < |Columns(o)| ==> out.body[j][k] == CellFor(Columns(o)[k], fileName, f, f[j])
    {
      assert out.body[j] == Row(o, fileName, f, f[j]);
      CellsAreColumnCells(Columns(o), fileName, f, f[j]);
    }
  }

  /** A percentage cell is in range whenever its length is positive. */
  lemma CellInRange(c: Column, fileName: string, f: seq<Entry>, e: Entry)
    requires c == TotalGC ==> TotalLength(f) > 0
    requires c == SeqGC ==> |e.sequence| > 0
    ensures var cell := CellFor(c, fileName, f, e);
      cell.Percentage? ==> 0 < cell.length && cell.gc <= cell.length
  {
    if c == TotalGC {
      TotalGCBound(f);
    } else if c == SeqGC {
      GCCountBound(e.sequence);
    }
  }

  lemma RowInRange(o: Options, fileName: string, f: seq<Entry>, e: Entry)
    requires o.totalGC ==> TotalLength(f) > 0
    requires o.seqGC ==> |e.sequence| > 0
    ensures var row := Row(o, fileName, f, e);
      forall k :: 0 <= k < |row| && row[k].Percentage? ==> 0 < row[k].length && row[k].gc <= row[k].length
  {
    var row := Row(o, fileName, f, e);
    ColumnsInFixedOrder(o);
    CellsAreColumnCells(Columns(o), fileName, f, e);
    forall k | 0 <= k < |row| && row[k].Percentage?
      ensures 0 < row[k].length && row[k].gc <= row[k].length
    {
      var c := Columns(o)[k];
      assert c in Columns(o);
      CellInRange(c, fileName, f, e);
    }
  }

  /** Every printed percentage divides by a positive length and is at most 100. */
  lemma PercentagesInRange(fileName: string, f: seq<Entry>, o: Options)
    requires InfoTable(fileName, f, o).error == None
    ensures var body := InfoTable(fileName, f, o).body;
      forall j, k :: 0 <= j < |body| && 0 <= k < |body[j]| && body[j][k].Percentage? ==>
        0 < body[j][k].length && body[j][k].gc <= body[j][k].length
  {
    var body: seq<seq<Cell>> := InfoTable(fileName, f, o).body;
    assert body == Body(o, fileName, f);
    assert o.seqGC ==> FirstEmpty(f) == |f|;
    forall j: nat | j < |body|
      ensures forall k :: 0 <= k < |body[j]| && body[j][k].Percentage? ==> 0 < body[j][k].length && body[j][k].gc <= body[j][k].length
    {
      assert j < |f| && body[j] == Row(o, fileName, f, f[j]);
      RowInRange(o, fileName, f, f[j]);
    }
  }
}
