/**
 * Worked instances of the table detector and parser: which texts are tables,
 * and what a header/rule/body table parses to. Cell texts stay symbolic so
 * that the instances hold for every word the editor could put there.
 */
module TableExamples {
  import opened Options
  import opened Seqs
  import opened Text
  import opened MarkdownTable

  /** Blank content is never taken for a table. */
  lemma BlankIsNoTable(text: string)
    requires Blank(text)
    ensures !IsMarkdownTable(text)
  {
    DetectorFirstChar(text);
  }

  /** Content whose first visible character is not a pipe is prose, whatever follows. */
  lemma ProseIsNoTable(text: string)
    requires !Blank(text) && Trim(text)[0] != '|'
    ensures !IsMarkdownTable(text)
  {
    DetectorFirstChar(text);
  }

  /**
   * A pipe row with no dash anywhere, such as a lone `| a |`, is not a table:
   * the detector asks for the `|---` marker, not for a second line.
   */
  lemma NoRuleIsNoTable(text: string)
    requires '-' !in text
    ensures !IsMarkdownTable(text)
  {
    if Contains(text, SeparatorMarker) {
      MarkerHasDash(text);
    }
  }

  lemma {:induction false} MarkerHasDash(text: string)
    requires Contains(text, SeparatorMarker)
    ensures '-' in text
    decreases |text|
  {
    if text[..|SeparatorMarker|] == SeparatorMarker {
      assert text[1] == SeparatorMarker[1];
    } else {
      MarkerHasDash(text[1..]);
      assert '-' in text[1..];
    }
  }

  /** One line of text never parses: the parser wants two non-empty lines. */
  lemma OneLineParsesToNothing(text: string)
    requires '\n' !in text
    ensures ParseMarkdownTable(text).None?
  {
    TrimKeeps(text, '\n');
  }

  lemma TrimPadded(p: string, s: string)
    requires |s| > 0 && !IsSpace(s[0]) && !IsSpace(s[|s| - 1])
    requires p == [' '] + s + [' ']
    ensures Trim(p) == s
  {
    assert p[1..] == s + [' '];
    assert LeadingSpaces(s + [' ']) == 0;
    assert LeadingSpaces(p) == 1;
    assert TrimStart(p) == s + [' '];
    assert (s + [' '])[..|s|] == s;
    assert TrimEnd(s) == s;
  }

  lemma Join3(a: string, b: string, c: string, sep: char)
    ensures Join([a, b, c], sep) == a + [sep] + b + [sep] + c
  {
    assert [a, b, c][1..] == [b, c];
    assert [b, c][1..] == [c];
    assert Join([c], sep) == c;
    assert Join([b, c], sep) == b + [sep] + c;
  }

  lemma Join4(a: string, b: string, c: string, d: string, sep: char)
    ensures Join([a, b, c, d], sep) == a + [sep] + b + [sep] + c + [sep] + d
  {
    assert [a, b, c, d][1..] == [b, c, d];
    Join3(b, c, d, sep);
  }

  /** The cells of a line with two fields between three pipes. */
  lemma TwoCells(line: string, fx: string, fy: string)
    requires Split(line, '|') == ["", fx, fy, ""]
    ensures Cells(line) == [Trim(fx), Trim(fy)]
  {
    assert Inner(["", fx, fy, ""]) == [fx, fy];
  }

  lemma FourFields(line: string, fx: string, fy: string)
    requires '|' !in fx && '|' !in fy
    requires line == ['|'] + fx + ['|'] + fy + ['|']
    ensures Split(line, '|') == ["", fx, fy, ""]
  {
    Join4("", fx, fy, "", '|');
    assert line == "" + ['|'] + fx + ['|'] + fy + ['|'] + "";
    SplitJoin(["", fx, fy, ""], '|');
  }

  /** A cell text the parser reproduces: non-empty, unpadded, free of pipes and line breaks. */
  predicate PlainCell(x: string) {
    |x| > 0 && Unpadded(x) && '|' !in x && '\n' !in x
  }

  /** The line `| x | y |` has the cells `[x, y]`. */
  lemma PaddedRowCells(x: string, y: string)
    requires PlainCell(x) && PlainCell(y)
    ensures Cells(PaddedRow(x, y)) == [x, y]
  {
    var l := PaddedRow(x, y);
    var fx, fy := [' '] + x + [' '], [' '] + y + [' '];
    assert l == ['|'] + fx + ['|'] + fy + ['|'];
    FourFields(l, fx, fy);
    TwoCells(l, fx, fy);
    TrimPadded(fx, x);
    TrimPadded(fy, y);
  }

  /** The rule line `|r1|r2|` has the cells `[r1, r2]`. */
  lemma RuleRowCells(r1: string, r2: string)
    requires IsSeparatorCell(r1) && IsSeparatorCell(r2)
    ensures Cells(RuleRow(r1, r2)) == [r1, r2]
  {
    var l := RuleRow(r1, r2);
    SeparatorCellIsPlain(r1);
    SeparatorCellIsPlain(r2);
    assert l == ['|'] + r1 + ['|'] + r2 + ['|'];
    FourFields(l, r1, r2);
    TwoCells(l, r1, r2);
  }

  /** A rule cell holds no pipe, no line break and no surrounding white space. */
  lemma SeparatorCellIsPlain(r: string)
    requires IsSeparatorCell(r)
    ensures '|' !in r && '\n' !in r && Trim(r) == r
  {
    forall i | 0 <= i < |r|
      ensures r[i] != '|' && r[i] != '\n'
    {
      assert r[i] == '-' || r[i] == ':';
    }
    assert r[0] == '-' || r[0] == ':';
    assert r[|r| - 1] == '-' || r[|r| - 1] == ':';
    assert Unpadded(r);
    TrimUnpadded(r);
  }

  lemma ThreeLines(md: string, l1: string, l2: string, l3: string)
    requires md == l1 + ['\n'] + l2 + ['\n'] + l3
    requires '\n' !in l1 && '\n' !in l2 && '\n' !in l3
    ensures Split(md, '\n') == [l1, l2, l3]
  {
    Join3(l1, l2, l3, '\n');
    SplitJoin([l1, l2, l3], '\n');
  }

  /** The line `| x | y |`. */
  function PaddedRow(x: string, y: string): (r: string)
    ensures |r| > 0 && r[0] == '|' && r[|r| - 1] == '|'
    ensures '\n' !in x && '\n' !in y ==> '\n' !in r
  {
    "| " + x + " | " + y + " |"
  }

  /** The rule line `|r1|r2|`. */
  function RuleRow(r1: string, r2: string): (r: string)
    ensures |r| > 0 && r[0] == '|' && r[|r| - 1] == '|'
    ensures '\n' !in r1 && '\n' !in r2 ==> '\n' !in r
  {
    "|" + r1 + "|" + r2 + "|"
  }

  /** A padded row whose first cell is no rule cell becomes a table row. */
  lemma PaddedRowKept(x: string, y: string)
    requires PlainCell(x) && PlainCell(y) && !IsSeparatorCell(x)
    ensures RowOf(PaddedRow(x, y)) == [[x, y]]
  {
    var l := PaddedRow(x, y);
    PaddedRowCells(x, y);
    assert Unpadded(l);
    TrimUnpadded(l);
    assert IsTableLine(l);
    assert [x, y][0] == x;
  }

  /** A rule line is dropped. */
  lemma RuleRowDropped(r1: string, r2: string)
    requires IsSeparatorCell(r1) && IsSeparatorCell(r2)
    ensures RowOf(RuleRow(r1, r2)) == []
  {
    RuleRowCells(r1, r2);
    forall i | 0 <= i < 2
      ensures IsSeparatorCell([r1, r2][i])
    {
    }
    assert !IsContentRow(Cells(RuleRow(r1, r2)));
  }

  lemma TableRowsOfThree(l1: string, l2: string, l3: string)
    ensures TableRows([l1, l2, l3]) == RowOf(l1) + RowOf(l2) + RowOf(l3)
  {
    ConcatMapThree(RowOf, l1, l2, l3);
  }

  lemma ConcatMapThree<A, B>(f: A -> seq<B>, x: A, y: A, z: A)
    ensures Concat(Map(f, [x, y, z])) == f(x) + f(y) + f(z)
  {
    var m := Map(f, [x, y, z]);
    assert m == [f(x), f(y), f(z)];
    assert m[1..][1..] == [f(z)];
  }

  /** Read line by line, a header, a rule and a body line give the header and body cells. */
  lemma TwoByTwoRows(a: string, b: string, c: string, d: string, r1: string, r2: string)
    requires PlainCell(a) && PlainCell(b) && PlainCell(c) && PlainCell(d)
    requires !IsSeparatorCell(a) && !IsSeparatorCell(c)
    requires IsSeparatorCell(r1) && IsSeparatorCell(r2)
    ensures TableRows([PaddedRow(a, b), RuleRow(r1, r2), PaddedRow(c, d)]) == [[a, b], [c, d]]
  {
    PaddedRowKept(a, b);
    RuleRowDropped(r1, r2);
    PaddedRowKept(c, d);
    TableRowsOfThree(PaddedRow(a, b), RuleRow(r1, r2), PaddedRow(c, d));
  }

  /**
   * A table of a header line, a rule line and a body line, two cells each,
   * parses to its header and body cells; the rule line is dropped.
   */
  lemma TwoByTwo(a: string, b: string, c: string, d: string, r1: string, r2: string)
    requires PlainCell(a) && PlainCell(b) && PlainCell(c) && PlainCell(d)
    requires !IsSeparatorCell(a) && !IsSeparatorCell(c)
    requires IsSeparatorCell(r1) && IsSeparatorCell(r2)
    ensures ParseMarkdownTable(PaddedRow(a, b) + "\n" + RuleRow(r1, r2) + "\n" + PaddedRow(c, d))
      == Some([[a, b], [c, d]])
  {
    var l1, l2, l3 := PaddedRow(a, b), RuleRow(r1, r2), PaddedRow(c, d);
    var md := l1 + "\n" + l2 + "\n" + l3;
    SeparatorCellIsPlain(r1);
    SeparatorCellIsPlain(r2);
    ThreeLineText(l1, l2, l3);
    ParseIsTableRows(md);
    TwoByTwoRows(a, b, c, d, r1, r2);
  }

  /** Three lines framed by pipes, joined by line breaks, trim to themselves and split back. */
  lemma ThreeLineText(l1: string, l2: string, l3: string)
    requires |l1| > 0 && l1[0] == '|' && |l3| > 0 && l3[|l3| - 1] == '|'
    requires '\n' !in l1 && '\n' !in l2 && '\n' !in l3
    ensures var md := l1 + "\n" + l2 + "\n" + l3;
      Trim(md) == md && '\n' in md && Split(md, '\n') == [l1, l2, l3]
  {
    var md := l1 + "\n" + l2 + "\n" + l3;
    assert md == l1 + ['\n'] + l2 + ['\n'] + l3;
    assert md[0] == '|' && md[|md| - 1] == '|' && md[|l1|] == '\n';
    TrimUnpadded(md);
    ThreeLines(md, l1, l2, l3);
  }

  /**
   * Lines are counted before the non-pipe lines are discarded: a table row
   * followed by a line of prose parses to a one-row table, not to nothing.
   */
  lemma RowThenProse(row: string, prose: string)
    requires '\n' !in row && '\n' !in prose
    requires Unpadded(row) && |row| > 0 && row[0] == '|' && IsContentRow(Cells(row))
    requires Unpadded(prose) && |prose| > 0 && prose[0] != '|'
    ensures ParseMarkdownTable(row + "\n" + prose) == Some([Cells(row)])
  {
    var md := row + "\n" + prose;
    TwoLineText(row, prose);
    ParseIsTableRows(md);
    RowThenProseRows(row, prose);
  }

  lemma RowThenProseRows(row: string, prose: string)
    requires Unpadded(row) && |row| > 0 && row[0] == '|' && IsContentRow(Cells(row))
    requires Unpadded(prose) && |prose| > 0 && prose[0] != '|'
    ensures TableRows([row, prose]) == [Cells(row)]
  {
    ContentLineRow(row);
    ProseLineRow(prose);
    TableRowsOfTwo(row, prose);
  }

  lemma ContentLineRow(line: string)
    requires Unpadded(line) && |line| > 0 && line[0] == '|' && IsContentRow(Cells(line))
    ensures RowOf(line) == [Cells(line)]
  {
    TrimUnpadded(line);
  }

  lemma ProseLineRow(line: string)
    requires Unpadded(line) && |line| > 0 && line[0] != '|'
    ensures RowOf(line) == []
  {
    TrimUnpadded(line);
  }

  /** Two unpadded lines joined by a line break trim to themselves and split back. */
  lemma TwoLineText(l1: string, l2: string)
    requires '\n' !in l1 && '\n' !in l2
    requires Unpadded(l1) && |l1| > 0 && Unpadded(l2) && |l2| > 0
    ensures var md := l1 + "\n" + l2;
      Trim(md) == md && '\n' in md && Split(md, '\n') == [l1, l2]
  {
    var md := l1 + "\n" + l2;
    assert md == l1 + ['\n'] + l2;
    assert md[0] == l1[0] && md[|md| - 1] == l2[|l2| - 1] && md[|l1|] == '\n';
    TrimUnpadded(md);
    SplitAfterPiece(l1, '\n', l2);
    SplitSepFree(l2, '\n');
  }

  lemma TableRowsOfTwo(l1: string, l2: string)
    ensures TableRows([l1, l2]) == RowOf(l1) + RowOf(l2)
  {
    var m := Map(RowOf, [l1, l2]);
    assert m == [RowOf(l1), RowOf(l2)];
    assert m[1..] == [RowOf(l2)];
  }

  /**
   * The shape of the standard example: `| Name | Score |`, a `|---|---|`
   * rule and `| Alice | 90 |` parse to `[["Name", "Score"], ["Alice", "90"]]`,
   * here for any plain cell texts in place of the four words.
   */
  lemma DashedTwoByTwo(a: string, b: string, c: string, d: string)
    requires PlainCell(a) && PlainCell(b) && PlainCell(c) && PlainCell(d)
    requires !IsSeparatorCell(a) && !IsSeparatorCell(c)
    ensures ParseMarkdownTable("| " + a + " | " + b + " |\n|---|---|\n| " + c + " | " + d + " |")
      == Some([[a, b], [c, d]])
  {
    DashIsSeparator();
    DashedText(a, b, c, d);
    TwoByTwo(a, b, c, d, "---", "---");
  }

  lemma DashIsSeparator()
    ensures IsSeparatorCell("---")
  {
  }

  /** The example text is two padded rows around the rule of two triple-dash cells. */
  lemma DashedText(a: string, b: string, c: string, d: string)
    ensures PaddedRow(a, b) + "\n" + RuleRow("---", "---") + "\n" + PaddedRow(c, d)
      == "| " + a + " | " + b + " |\n|---|---|\n| " + c + " | " + d + " |"
  {
    assert RuleRow("---", "---") == "|---|---|";
  }
}
