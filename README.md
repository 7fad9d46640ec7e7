# seq_tools in Dafny

A model of five small command-line tools from seq_tools, a collection of scripts for
FASTA and FASTQ sequence files, and proofs about what they compute.

- `seqIntersect` (module `SeqIntersect`, `seq_intersect.dfy`): opens two sequence files as
  screed databases, building a `<file>_screed` database beside any file that is not one
  already. It writes the records whose names occur in both files. Unless `--keep` is
  given, it then deletes the file `<argument>_screed` for each argument, whether or not
  this run built it. Records are FASTA (name, description, sequence) or FASTQ
  (name, annotations, sequence, accuracy). A database is a map from name to record.
  The text of a well-formed record (a name with no space or newline, and no field holding
  a newline) is proved to read back as that record.
- `fasta_info` (module `FastaInfo`, `fasta_info.dfy`): prints a table with selected
  columns: file name, number of sequences, total length, total GC percentage, and
  per-sequence name, length and GC percentage. There is an optional header line. The
  FASTA index is a sequence of (name, sequence) entries. GC percentages are kept as
  exact ratios.
- `nseq` (module `NSeq`, `nseq.dfy`): counts the records of a FASTA file (its `>` lines)
  or of a FASTQ file (four lines per record). FASTQ lines are validated as they are
  read: no blank lines, and every fourth line starts with `@`.
- `fasta_rename` (module `FastaRename`, `fasta_rename.dfy`): writes the records named in
  a two-column mapping table, in table order, each under its new name.
- `fasta_unwrap` (module `FastaUnwrap`, `fasta_unwrap.dfy`): joins the wrapped sequence
  lines of each FASTA record into one line and copies header lines unchanged.

`text.dfy` (module `Text`) holds the Python 2 string operations the tools use:
`rstrip`, `strip`, `startswith`, `endswith`, `upper`, `count`, and file iteration by
lines. It also holds `Split`, which the model's own record reader and line splitting
use; the scripts do not call `split`. Whitespace is ASCII (space, `\t`, `\n`, `\r`, `\v`, `\f`), and
`upper` maps a–z only. `wrappers.dfy` holds `Option` and `Result`.

The loops of the scripts are methods, each proved equal to a specification function:

- `FastaInfo.Tabulate`, `FastaInfo.GCTotals`, `FastaInfo.BuildHeader` and `FastaInfo.BuildBody`;
- `SeqIntersect.WriteIntersection`;
- `FastaRename.Rename`;
- `FastaUnwrap.UnwrapLines`.

The lemmas then prove the tools' promises about those functions.

## Model

| member | source | states |
|---|---|---|
| SeqIntersect.DbName | bin/seqIntersect.py:56-66 | A name ending in `_screed` is opened as given. Any other name gets `<name>_screed` when screed can read the file, and otherwise the error `CannotOpen(name)`. Every opened name ends in `_screed`. |
| SeqIntersect.DbNameIdempotent | bin/seqIntersect.py:56-66 | Opening the database name that `openDB` chose opens that same database again, without building anything. |
| SeqIntersect.RemovedDbName | bin/seqIntersect.py:132 | The file removed after the run is the input name followed by `_screed`. |
| SeqIntersect.RemovesBuiltDb | bin/seqIntersect.py:56-66 | For a sequence file, the file removed is exactly the database the run built for it. |
| SeqIntersect.SparesSuppliedDb | bin/seqIntersect.py:132 | A database passed in directly is opened as given, and the file the clean-up removes is a different one (`<name>_screed_screed`). |
| SeqIntersect.Serialize | bin/seqIntersect.py:80-87 | A written record is newline-terminated text. It starts with `@` when the record has an accuracy field (FASTQ) and with `>` otherwise. |
| SeqIntersect.RecordLines | bin/seqIntersect.py:81-87 | A FASTQ record is written as four lines and a FASTA record as two, with the header line first. |
| SeqIntersect.ParseRecord | bin/seqIntersect.py:80-87 | Whatever the reader accepts is the written form of a well-formed record, followed by the remaining text. |
| SeqIntersect.HeaderRoundTrip | bin/seqIntersect.py:81-85 | A header line `<marker><name> <info>` reads back as that name and info, for any name without a space. |
| SeqIntersect.ParseSerialize | bin/seqIntersect.py:80-87 | A well-formed record, written and read back, gives the same record and the text after it. |
| SeqIntersect.Shared | bin/seqIntersect.py:109 | A name is visited exactly when it is a key of both databases. |
| SeqIntersect.SharedSymmetric | bin/seqIntersect.py:109 | Swapping the two inputs visits the same names. |
| SeqIntersect.SharedWithItself | bin/seqIntersect.py:109 | Intersecting a database with itself visits every one of its records. |
| SeqIntersect.EnumerationSize | bin/seqIntersect.py:109 | An order that visits each shared name once has as many entries as there are shared names. |
| SeqIntersect.Looked | bin/seqIntersect.py:79 | The records written are the ones looked up for the visited names, in visiting order. |
| SeqIntersect.Emit | bin/seqIntersect.py:110-113 | The text written to one sink: empty exactly when no name is visited, and otherwise ending in a newline. |
| SeqIntersect.EmitReadsBack | bin/seqIntersect.py:109-113 | The text written to a sink reads back as exactly the records looked up for the visited names, in visiting order. |
| SeqIntersect.WriteIntersection | bin/seqIntersect.py:100-113 | Each shared name is visited exactly once, in some order. Side one's records go to sink one, which is the file `out1` when that is given (non-empty) and standard output otherwise. Side two's records go to `out2` only when that is given. |
| SeqIntersect.IntersectExample | bin/seqIntersect.py:84-87 | With files {x, y} and {y, z}, only `y` is written, and its FASTA text with an empty description is `>y \nGT\n`. |
| FastaInfo.Info | bin/fasta_info.py:35 | The index summary has one (name, length) pair per record, in index order. |
| FastaInfo.SumLengthsIsTotalLength | bin/fasta_info.py:35-41 | The sum over the (name, length) pairs is the total length of the records. |
| FastaInfo.GCTotals | bin/fasta_info.py:42-50 | The `--tgc` loop's G and C sums add up to the upper-cased G+C count of all records, and its length sum is the total length. |
| FastaInfo.GCCaseInsensitive | bin/fasta_info.py:47-49 | Counting after `upper()` counts `G`, `g`, `C` and `c`. |
| FastaInfo.GCCountBound | bin/fasta_info.py:93-96 | A sequence's G+C count is at most its length, so its percentage is at most 100. |
| FastaInfo.TotalGCIsSumOfRecords | bin/fasta_info.py:46-51 | The total G+C count is the sum of the per-record counts. |
| FastaInfo.TotalGCBound | bin/fasta_info.py:51 | The total G+C count is at most the total length, so the total percentage is at most 100. |
| FastaInfo.TotalsOfConcatenation | bin/fasta_info.py:41-51 | The total length and the total G+C count are those of all the sequences joined into one. |
| FastaInfo.TwoRecordExample | bin/fasta_info.py:35-51 | For records ACGT and GGCC: two sequences, total length 8, G+C count 6. |
| FastaInfo.ColumnsInFixedOrder | bin/fasta_info.py:56-97 | A column appears exactly when its switch is set, and the columns come in the fixed order: file name, total sequences, total length, total GC, sequence name, sequence length, sequence GC. |
| FastaInfo.TitlesAreColumnTitles | bin/fasta_info.py:56-70 | The header has one title per selected column, in column order. |
| FastaInfo.AppendTitle | bin/fasta_info.py:57-70 | One `if --x: append(title)` step adds the column's title exactly when the switch is set. |
| FastaInfo.BuildHeader | bin/fasta_info.py:55-71 | The header list built is the titles of the selected columns. |
| FastaInfo.CellsAreColumnCells | bin/fasta_info.py:76-97 | A body line has one cell per selected column, and each cell holds that column's value. |
| FastaInfo.AppendCell | bin/fasta_info.py:78-97 | One `if --x: append(value)` step adds the column's cell exactly when the switch is set. |
| FastaInfo.SummaryLine | bin/fasta_info.py:76-85 | The summary half of a line holds the selected file-wide cells, in column order. |
| FastaInfo.FirstEmpty | bin/fasta_info.py:96 | Finds the first record with an empty sequence, where `--sgc` divides by zero. |
| FastaInfo.RecordLine | bin/fasta_info.py:76-97 | A record's line is its row of cells. With `--sgc`, an empty sequence is instead the division-by-zero error for that record. |
| FastaInfo.BuildBody | bin/fasta_info.py:74-101 | With a per-sequence switch (`--sn`, `--sl`, `--sgc`), the body has one line per record. Otherwise it has the first record's line only, or nothing for an empty index. With `--sgc`, the loop stops at the first empty sequence with that error. |
| FastaInfo.Tabulate | bin/fasta_info.py:32-105 | The whole run's output equals the specification `InfoTable`. A `--tgc` division by zero stops the run before any output. A `--sgc` one stops it after the header line. |
| FastaInfo.InfoTableErrors | bin/fasta_info.py:51-101 | The total-GC error happens exactly when `--tgc` is set and all sequences are empty, and then nothing is printed. Otherwise, the per-sequence error happens exactly when `--sgc` is set and some sequence is empty, and it names the first such record. After an error, no body line is printed. |
| FastaInfo.InfoTableShape | bin/fasta_info.py:55-101 | Without an error, the header is printed exactly when `--header` is set. The body has one line per record with a per-sequence switch, and at most one line otherwise. Every line has one cell per selected column, and that cell holds the column's value for its record. |
| FastaInfo.PercentagesInRange | bin/fasta_info.py:51-96 | Every printed percentage has a positive denominator and a numerator no greater than it, so it lies between 0 and 100. |
| NSeq.CountFasta | bin/nseq.py:33-37 | The FASTA count is at most the number of lines. |
| NSeq.CountFastaIsHeaderLines | bin/nseq.py:33-37 | The FASTA count is the number of positions whose line starts with `>`. |
| NSeq.CountFastaAppend | bin/nseq.py:33-37 | The FASTA count of two concatenated files is the sum of their counts. |
| NSeq.CheckLine | bin/nseq.py:39-47 | An error reports the index of the line that was checked. |
| NSeq.CheckLineVerdict | bin/nseq.py:39-47 | A line fails as blank exactly when it is all whitespace. It fails for a missing `@` exactly when it is not blank, its index is a multiple of 4 and it does not start with `@`. Otherwise it passes. |
| NSeq.CheckedCount | bin/nseq.py:51-55 | The lazy validating count from a given line on. An error names one of the lines that were still to be checked. |
| NSeq.CheckedCountMeaning | bin/nseq.py:51-55 | The lazy validating count succeeds exactly when every remaining line passes, and then it counts them. When it fails, the error is the first failing line. |
| NSeq.CountFastq | bin/nseq.py:49-55 | The FASTQ count succeeds exactly when every line passes `check_line`, and then it is the number of lines divided by 4, rounded down. When it fails, the error is the first failing line. |
| FastaRename.Renaming | bin/fasta_rename.py:42-50 | When every old name is found, there is one pair (new name, sequence under the old name) per mapping row, in row order. |
| FastaRename.Rename | bin/fasta_rename.py:37-54 | The run succeeds exactly when the table has at least two columns and every old name is in the index, and then it writes the renamed records. Fewer than two columns is the column error. Otherwise the error names the first missing old name. |
| FastaRename.RecordText | bin/fasta_rename.py:54 | One written record is `>`, the new name, a newline, the sequence and a newline. |
| FastaRename.Render | bin/fasta_rename.py:53-54 | The output is empty exactly when there are no records, and otherwise ends in a newline. |
| FastaRename.RecordLines | bin/fasta_rename.py:54 | One written record is two lines: `>new name` and the sequence. |
| FastaRename.RenderSplits | bin/fasta_rename.py:53-54 | The output's lines are, record by record, the header line then the sequence line (for names and sequences without newlines). |
| FastaRename.RenderedRecordCount | bin/fasta_rename.py:53-54 | The output lines hold one `>` line per renamed sequence (for sequences that do not start with `>`). |
| FastaRename.RenameCountedByNSeq | bin/fasta_rename.py:53-54 | `nseq` run on the written file counts one record per mapping row (for names and sequences without newlines, and sequences that do not start with `>`). |
| FastaUnwrap.Step | bin/fasta_unwrap.py:49-55 | A header line is written whole, with one extra newline before it unless it is the first line. Any other line is written as `rstrip()` gives it: the prefix of the line left after cutting all its trailing whitespace. |
| FastaUnwrap.Unwrap | bin/fasta_unwrap.py:47-55 | The text written for the lines is at most one character per line longer than the input. |
| FastaUnwrap.UnwrapLines | bin/fasta_unwrap.py:47-55 | The loop, with its line counter, writes exactly the specification `Unwrap` of the input lines. |
| FastaUnwrap.SplitUnwrapped | bin/fasta_unwrap.py:47-55 | The written text splits into the lines `OutputLines` describes. Every header line is kept as it was, and the sequence lines between two headers become one line: their stripped contents joined, with a newline after them unless they end the file. |
| FastaUnwrap.UnwrapIdempotent | bin/fasta_unwrap.py:47-55 | Unwrapping an unwrapped file gives the same file. |
| FastaUnwrap.UnwrapKeepsHeaders | bin/fasta_unwrap.py:50-53 | The output's header lines are the input's header lines, unchanged and in order. |
| FastaUnwrap.UnwrapKeepsRecordCount | bin/fasta_unwrap.py:50-53 | `nseq` counts as many records in the unwrapped file as in the original. |
| FastaUnwrap.UnwrapJoinsSequences | bin/fasta_unwrap.py:50-55 | No two lines of the output are both sequence lines, so each record's sequence sits on one line. |
| Text.RStrip | bin/fasta_unwrap.py:55 | `rstrip()` removes exactly the trailing whitespace: the result is a prefix, it ends in a non-space (or is empty), and everything cut off is whitespace. |
| Text.StripEmptyIffAllSpace | bin/nseq.py:40 | `line.strip() == ''` holds exactly when the line is all whitespace. |
| Text.CountUpperCaseInsensitive | bin/fasta_info.py:47-49 | After `upper()`, the count of an upper-case letter is its upper-case count plus its lower-case count. |
| Text.SplitLinesIsLineSplit | bin/fasta_unwrap.py:48 | Iterating over a file gives non-empty lines that keep their `\n` terminators. Only the last line may lack one. |
| Text.SplitLinesJoin | bin/fasta_unwrap.py:48 | The lines from iterating over a file, put back together, are the whole file. |
| Text.JoinSplitLines | bin/fasta_unwrap.py:48 | Conversely, any lines of that shape are exactly what iterating over their joined text gives. |
| Text.SplitLinesAppend | bin/fasta_unwrap.py:48 | Iterating over text that ends with a newline, followed by more text, gives the lines of each part in turn. |

## Left out

- File and stream I/O: opening files, standard input (`-`), writing and closing handles, `sys.exit`, and the usage text. Inputs are modelled as values and outputs as returned text or structures.
- Option parsing (docopt), logging, timestamps and the `--verbose`, `--keep` and `--debug` switches. `--keep` only decides whether `rm_screed_db` is called.
- screed: format detection, building and storing the database. Whether screed can read a file is the parameter `readable` of `SeqIntersect.DbName`.
- SeqIntersect.DbName: every failure to read a sequence file becomes `CannotOpen`. The script gives its "Cannot open" message only for an `IOError` from the FASTA reader after the FASTQ reader raised `KeyError`. Any other exception from either reader, such as the FASTQ reader's `IOError` for a missing file, escapes without that message. Which exception screed raises is foreign behaviour and is not modelled.
- Deleting the database file: `SeqIntersect.RemovedDbName` gives the name removed. The `os.path.isfile` test and `os.unlink` are file-system effects.
- pyfasta parsing of a FASTA file: the index is given as a sequence of entries (`FastaInfo`) or as a map from name to sequence (`FastaRename`).
- pandas `read_csv`: the mapping file is given as a rectangular table of strings. Type inference, such as numeric names, and the parsing of malformed files are not modelled.
- `FastaRename.Rename` treats the width test as always active. Python skips `assert` statements when run with `-O`.
- SeqIntersect.WriteIntersection: the iteration order of a Python set is unspecified, so the method returns the order it used as a ghost value and proves only that it visits each shared name once.
- FastaInfo.Tabulate: `'{0:.2f}'` float formatting and `str()` of integers are not modelled. Percentages are exact ratios (G+C count, length), and integers are unbounded values.
- FastaInfo.Tabulate: joining the cells with `--sep` and printing the lines are not modelled. The output is the header titles, the rows of cells and the error that stopped the run.
- SIGPIPE handling and other behaviour of the process when stdout is closed early.
