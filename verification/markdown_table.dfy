/**
 * The pipe-table heuristic of the exporter: a detector deciding whether a
 * subsection's text is a Markdown pipe table, and a parser turning such text
 * into rows of cells (src/utils/docx.js, duplicated in src/9ThesisForm.jsx).
 * The parser's result is the list of rows the word-processing table is built
 * from; `None` is the `null` it returns for text with fewer than two lines.
 */
module MarkdownTable {
  import opened Options
  import opened Seqs
  import opened Text

  type Row = seq<string>

  /** The marker whose presence anywhere in the text is required for a table. */
  const SeparatorMarker: string := "|---"

  /**
   * The detector: the first line of the trimmed text, itself trimmed, starts
   * with a pipe, and the untrimmed text contains the separator marker.
   */
  predicate IsMarkdownTable(text: string) {
    StartsWith(Trim(Split(Trim(text), '\n')[0]), '|') && Contains(text, SeparatorMarker)
  }

  /**
   * The first-line test amounts to a test of the first non-space character:
   * the detector accepts exactly the texts whose first non-space character is
   * a pipe and which contain the separator marker.
   */
  lemma DetectorFirstChar(text: string)
    ensures IsMarkdownTable(text) <==> StartsWith(Trim(text), '|') && Contains(text, SeparatorMarker)
  {
    var t := Trim(text);
    if t != [] {
      SplitFirstPiece(t, '\n');
      TrimKeepsHead(Split(t, '\n')[0]);
    }
  }

  predicate NonEmpty(s: string) {
    s != ""
  }

  /** A line that takes part in the table: its trimmed form starts with a pipe. */
  predicate IsTableLine(line: string) {
    StartsWith(Trim(line), '|')
  }

  /** A cell matching `/^[-:]+$/`: one or more dashes and colons, nothing else. */
  predicate IsSeparatorCell(cell: string) {
    |cell| > 0 && forall i :: 0 <= i < |cell| ==> cell[i] == '-' || cell[i] == ':'
  }

  /** A row all of whose cells are separator cells (vacuously true of the empty row). */
  predicate IsSeparatorRow(row: Row) {
    forall i :: 0 <= i < |row| ==> IsSeparatorCell(row[i])
  }

  predicate IsContentRow(row: Row) {
    !IsSeparatorRow(row)
  }

  /**
   * The edges of the separator test: the row with no cells counts as a
   * separator row and is dropped, while a row with an empty cell is kept.
   */
  lemma SeparatorRowEdges(row: Row)
    ensures row == [] ==> !IsContentRow(row)
    ensures (exists i :: 0 <= i < |row| && row[i] == "") ==> IsContentRow(row)
  {
    if exists i :: 0 <= i < |row| && row[i] == "" {
      var i :| 0 <= i < |row| && row[i] == "";
      assert !IsSeparatorCell(row[i]);
    }
  }

  /** No cell holds a pipe, and no cell starts or ends with white space. */
  predicate IsCleanRow(row: Row) {
    forall i :: 0 <= i < |row| ==> '|' !in row[i] && Unpadded(row[i])
  }

  lemma CleanRowsSurvive(data: seq<Row>)
    requires forall i :: 0 <= i < |data| ==> IsCleanRow(data[i])
    ensures forall k :: 0 <= k < |Filter(IsContentRow, data)| ==> IsCleanRow(Filter(IsContentRow, data)[k])
  {
  }

  /** `fields.slice(1, -1)`: everything but the first and the last field. */
  function Inner(fields: seq<string>): (r: seq<string>)
    ensures |fields| >= 2 ==> |r| == |fields| - 2
    ensures |fields| < 2 ==> r == []
    ensures forall i :: 0 <= i < |r| ==> r[i] == fields[i + 1]
  {
    if |fields| < 2 then [] else fields[1..|fields| - 1]
  }

  /**
   * The cells of one line: the trimmed fields strictly between the first and
   * the last `|`-separated field. The last field is dropped whether or not the
   * line ends with a pipe. A line with `n >= 1` pipes has `n - 1` cells, none
   * of which holds a pipe or starts or ends with white space.
   */
  function Cells(line: string): (r: Row)
    ensures IsCleanRow(r)
    ensures '|' in line ==> |r| == Occurrences(line, '|') - 1
    ensures forall i :: 0 <= i < |r| ==> i + 1 < |Split(line, '|')| && r[i] == Trim(Split(line, '|')[i + 1])
  {
    var inner := Inner(Split(line, '|'));
    TrimmedFieldsClean(inner);
    Map(Trim, inner)
  }

  lemma TrimmedFieldsClean(fields: seq<string>)
    requires forall i :: 0 <= i < |fields| ==> '|' !in fields[i]
    ensures forall i :: 0 <= i < |fields| ==> '|' !in Trim(fields[i])
  {
    forall i | 0 <= i < |fields|
      ensures '|' !in Trim(fields[i])
    {
      TrimKeeps(fields[i], '|');
    }
  }

  /**
   * The parser. It returns `None` exactly when the trimmed text is a single
   * line, that is when it has fewer than two non-empty lines (counted before
   * any line is discarded for not starting with a pipe). Otherwise every row
   * comes from a line starting with a pipe, no row is a separator row, and no
   * cell holds a pipe or surrounding white space; rows are not padded.
   */
  function ParseMarkdownTable(md: string): (r: Option<seq<Row>>)
    ensures r.None? <==> '\n' !in Trim(md)
    ensures r.Some? ==> forall k :: 0 <= k < |r.value| ==> !IsSeparatorRow(r.value[k])
    ensures r.Some? ==> forall k :: 0 <= k < |r.value| ==> IsCleanRow(r.value[k])
  {
    var lines := Filter(NonEmpty, Split(Trim(md), '\n'));
    TwoLinesIffNewline(md);
    if |lines| < 2 then None
    else
      var rows := Filter(IsTableLine, lines);
      var data := Map(Cells, rows);
      var table := Filter(IsContentRow, data);
      CleanRowsSurvive(data);
      Some(table)
  }

  /** The trimmed text has at least two non-empty lines iff it has a line break. */
  lemma TwoLinesIffNewline(md: string)
    ensures |Filter(NonEmpty, Split(Trim(md), '\n'))| >= 2 <==> '\n' in Trim(md)
  {
    var t := Trim(md);
    if '\n' !in t {
      SplitSepFree(t, '\n');
    } else {
      assert Unpadded(t) && IsSpace('\n');
      InnerBreak(t);
    }
  }

  /** A text with a line break that neither starts nor ends with one has two non-empty lines. */
  lemma InnerBreak(t: string)
    requires '\n' in t && t[0] != '\n' && t[|t| - 1] != '\n'
    ensures |Filter(NonEmpty, Split(t, '\n'))| >= 2
  {
    var pieces := Split(t, '\n');
    assert |pieces| == Occurrences(t, '\n') + 1 >= 2;
    SplitFirstPiece(t, '\n');
    SplitLastPiece(t, '\n');
    EndsFilter(pieces);
  }

  /** A sequence of two or more lines whose first and last are non-empty keeps both. */
  lemma EndsFilter(pieces: seq<string>)
    requires |pieces| >= 2 && pieces[0] != "" && pieces[|pieces| - 1] != ""
    ensures |Filter(NonEmpty, pieces)| >= 2
  {
    var n := |pieces|;
    var mid := pieces[1..n - 1];
    assert pieces == [pieces[0]] + mid + [pieces[n - 1]];
    FilterAppend(NonEmpty, [pieces[0]] + mid, [pieces[n - 1]]);
    FilterAppend(NonEmpty, [pieces[0]], mid);
    assert Filter(NonEmpty, [pieces[0]]) == [pieces[0]];
    assert Filter(NonEmpty, [pieces[n - 1]]) == [pieces[n - 1]];
  }

  /**
   * A line-by-line reference reading of the parser: one row per line that
   * starts with a pipe and is not a separator row, in line order.
   */
  function TableRows(lines: seq<string>): seq<Row> {
    Concat(Map(RowOf, lines))
  }

  /** The row one line contributes: its cells, unless it is no table line or a separator row. */
  function RowOf(line: string): seq<Row> {
    if IsTableLine(line) && IsContentRow(Cells(line)) then [Cells(line)] else []
  }

  /** The parser's steps after the split: drop empty lines, keep pipe lines, take cells, drop separator rows. */
  function Pipeline(lines: seq<string>): seq<Row> {
    Filter(IsContentRow, Map(Cells, Filter(IsTableLine, Filter(NonEmpty, lines))))
  }

  /** The parser's filter-map-filter pipeline computes the line-by-line reading. */
  lemma {:induction false} PipelineIsTableRows(lines: seq<string>)
    ensures Pipeline(lines) == TableRows(lines)
  {
    if |lines| > 0 {
      Cons(lines);
      PipelineStep(lines[0], lines[1..]);
      ConcatMapCons(RowOf, lines[0], lines[1..]);
      PipelineIsTableRows(lines[1..]);
    }
  }

  /** The pipeline handles one line at a time: the first line contributes its row, if any. */
  lemma PipelineStep(line: string, rest: seq<string>)
    ensures Pipeline([line] + rest) == RowOf(line) + Pipeline(rest)
  {
    var head := [line];
    var ne1, ne2 := Filter(NonEmpty, head), Filter(NonEmpty, rest);
    FilterAppend(NonEmpty, head, rest);
    var tl1, tl2 := Filter(IsTableLine, ne1), Filter(IsTableLine, ne2);
    FilterAppend(IsTableLine, ne1, ne2);
    MapAppend(Cells, tl1, tl2);
    FilterAppend(IsContentRow, Map(Cells, tl1), Map(Cells, tl2));
    if line == "" {
      assert !IsTableLine(line);
    }
  }

  /** A text with a line break parses to the line-by-line reading of its trimmed lines. */
  lemma ParseIsTableRows(md: string)
    requires '\n' in Trim(md)
    ensures ParseMarkdownTable(md) == Some(TableRows(Split(Trim(md), '\n')))
  {
    PipelineIsTableRows(Split(Trim(md), '\n'));
  }
}
