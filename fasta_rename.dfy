/**
 * fasta_rename: writes the records named in a two-column mapping, in mapping order,
 * each under its new name.  The FASTA index is modelled as a map from name to
 * sequence; the mapping file as the table pandas reads from it.
 */
module FastaRename {

  import opened Wrappers
  import opened Text
  import NSeq

  /** The mapping file as a table: `width` columns; cell 0 of a row is the old name, cell 1 the new. */
  datatype Table = Table(width: nat, rows: seq<seq<string>>)

  predicate Rectangular(t: Table) {
    forall i :: 0 <= i < |t.rows| ==> |t.rows[i]| == t.width
  }

  datatype RenameError = TooFewColumns | NameNotFound(oldName: string)

  predicate AllFound(fasta: map<string, string>, rows: seq<seq<string>>)
    requires forall i :: 0 <= i < |rows| ==> |rows[i]| >= 2
  {
    forall i :: 0 <= i < |rows| ==> rows[i][0] in fasta
  }

  /** Row `k` holds the first old name that the FASTA index does not have. */
  predicate IsFirstMissing(fasta: map<string, string>, rows: seq<seq<string>>, k: nat)
    requires forall i :: 0 <= i < |rows| ==> |rows[i]| >= 2
  {
    k < |rows| && rows[k][0] !in fasta && forall i :: 0 <= i < k ==> rows[i][0] in fasta
  }

  /** The (new name, sequence) pairs of a complete renaming, one per row, in row order. */
  function Renaming(fasta: map<string, string>, rows: seq<seq<string>>): (pairs: seq<(string, string)>)
    requires forall i :: 0 <= i < |rows| ==> |rows[i]| >= 2
    requires AllFound(fasta, rows)
    ensures |pairs| == |rows|
    ensures forall i :: 0 <= i < |rows| ==> pairs[i] == (rows[i][1], fasta[rows[i][0]])
  {
    seq(|rows|, i requires 0 <= i < |rows| => (rows[i][1], fasta[rows[i][0]]))
  }

  /** One written record: `print '>{}\n{}'` ends it with a newline. */
  function RecordText(pair: (string, string)): (text: string)
    ensures |text| == |pair.0| + |pair.1| + 3
    ensures text[0] == '>' && text[|text| - 1] == '\n'
    ensures text[1..|pair.0| + 1] == pair.0 && text[|pair.0| + 1] == '\n'
    ensures text[|pair.0| + 2..|text| - 1] == pair.1
  {
    ">" + pair.0 + "\n" + pair.1 + "\n"
  }

  /** All the records written, in order. */
  function Render(pairs: seq<(string, string)>): (text: string)
    ensures text == [] <==> pairs == []
    ensures pairs != [] ==> text[|text| - 1] == '\n'
  {
    if pairs == [] then [] else Render(pairs[..|pairs| - 1]) + RecordText(pairs[|pairs| - 1])
  }

  /**
   * `main` after loading: the width check, the lookup loop that stops at the first
   * missing name, and the output loop that runs only once every lookup succeeded.
   */
  method Rename(fasta: map<string, string>, table: Table) returns (out: Result<string, RenameError>)
    requires Rectangular(table)
    ensures out.Ok? <==> table.width >= 2 && AllFound(fasta, table.rows)
    ensures out.Ok? ==> out.value == Render(Renaming(fasta, table.rows))
    ensures table.width < 2 ==> out == Err(TooFewColumns)
    ensures table.width >= 2 && out.Err? ==>
      exists k: nat :: IsFirstMissing(fasta, table.rows, k) && out.error == NameNotFound(table.rows[k][0])
  {
    if table.width < 2 {
      return Err(TooFewColumns);
    }
    var rows := table.rows;
    var newFasta: seq<(string, string)> := [];
    for i := 0 to |rows|
      invariant forall j :: 0 <= j < i ==> rows[j][0] in fasta
      invariant newFasta == Renaming(fasta, rows[..i])
    {
      var oldName, newName := rows[i][0], rows[i][1];
      if oldName !in fasta {
        assert IsFirstMissing(fasta, rows, i);
        return Err(NameNotFound(oldName));
      }
      newFasta := newFasta + [(newName, fasta[oldName])];
    }
    assert rows[..|rows|] == rows;
    var text := "";
    for i := 0 to |newFasta|
      invariant text == Render(newFasta[..i])
    {
      assert newFasta[..i + 1][..i] == newFasta[..i];
      text := text + RecordText(newFasta[i]);
    }
    assert newFasta[..|newFasta|] == newFasta;
    return Ok(text);
  }

  // ---------------------------------------------------------------------------
  // The written text as lines

  /** The lines of the written records: a header with the new name, then the sequence. */
  function RenderedLines(pairs: seq<(string, string)>): (lines: seq<string>)
    ensures |lines| == 2 * |pairs|
  {
    if pairs == [] then []
    else RenderedLines(pairs[..|pairs| - 1]) + [">" + pairs[|pairs| - 1].0 + "\n", pairs[|pairs| - 1].1 + "\n"]
  }

  /** Names and sequences that fit on one line. */
  predicate OneLineEach(pairs: seq<(string, string)>) {
    forall i :: 0 <= i < |pairs| ==> '\n' !in pairs[i].0 && '\n' !in pairs[i].1
  }

  /** Sequences that cannot pass for a header line. */
  predicate NoHeaderLikeSequence(pairs: seq<(string, string)>) {
    forall i :: 0 <= i < |pairs| ==> !NSeq.IsFastaHeader(pairs[i].1)
  }

  lemma RecordLines(pair: (string, string))
    requires '\n' !in pair.0 && '\n' !in pair.1
    ensures SplitLines(RecordText(pair)) == [">" + pair.0 + "\n", pair.1 + "\n"]
  {
    var header := ">" + pair.0;
    assert '\n' !in header;
    assert RecordText(pair) == header + "\n" + (pair.1 + "\n" + []);
    SplitLinesTerminated(header, pair.1 + "\n");
    assert pair.1 + "\n" == pair.1 + "\n" + [];
    SplitLinesTerminated(pair.1, []);
  }

  /** The output is two lines per mapping row: `>new_name`, then the sequence. */
  lemma {:induction false} RenderSplits(pairs: seq<(string, string)>)
    requires OneLineEach(pairs)
    ensures SplitLines(Render(pairs)) == RenderedLines(pairs)
  {
    if pairs != [] {
      var front, last := pairs[..|pairs| - 1], pairs[|pairs| - 1];
      assert OneLineEach(front);
      RenderSplits(front);
      var done := Render(front);
      assert done == [] || done[|done| - 1] == '\n';
      SplitLinesAppend(done, RecordText(last));
      RecordLines(last);
    }
  }

  /** nseq counts one record in the output per pair written. */
  lemma {:induction false} RenderedRecordCount(pairs: seq<(string, string)>)
    requires NoHeaderLikeSequence(pairs)
    ensures NSeq.CountFasta(RenderedLines(pairs)) == |pairs|
  {
    if pairs != [] {
      var front, last := pairs[..|pairs| - 1], pairs[|pairs| - 1];
      assert NoHeaderLikeSequence(front);
      RenderedRecordCount(front);
      var header, body := ">" + last.0 + "\n", last.1 + "\n";
      NSeq.CountFastaAppend(RenderedLines(front), [header, body]);
      assert [header, body][..1] == [header];
      assert [header][..0] == [];
      assert !NSeq.IsFastaHeader(body) by {
        if last.1 != [] {
          assert body[0] == last.1[0];
        }
      }
      assert NSeq.IsFastaHeader(header);
      assert NSeq.CountFasta([header]) == 1;
      assert NSeq.CountFasta([header, body]) == 1;
      assert RenderedLines(pairs) == RenderedLines(front) + [header, body];
    }
  }

  /** Running nseq on the written file counts one record per mapping row. */
  lemma RenameCountedByNSeq(pairs: seq<(string, string)>)
    requires OneLineEach(pairs) && NoHeaderLikeSequence(pairs)
    ensures NSeq.CountFasta(SplitLines(Render(pairs))) == |pairs|
  {
    RenderSplits(pairs);
    RenderedRecordCount(pairs);
  }
}
