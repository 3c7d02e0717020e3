/**
 * The LaTeX export of both editor pages (`renderLatex` in src/ThesisForm.jsx
 * and in src/9ThesisForm.jsx): a fixed preamble carrying the front matter,
 * one heading per titled chapter, section and subsection with the subsection
 * texts verbatim, then the bibliography and the closing commands.
 */
module Latex {
  import opened Seqs
  import opened Text
  import opened Thesis

  /**
   * `Concatenated` is the page that builds the text line by line
   * (src/ThesisForm.jsx); `Templated` is the one that starts from a template
   * literal (src/9ThesisForm.jsx), which adds a blank line in a few places and
   * ends bibliography lines with one backslash instead of two.
   */
  datatype Variant = Concatenated | Templated

  /** The extra line break the template variant puts before some lines. */
  function Gap(v: Variant): string {
    if v == Templated then "\n" else ""
  }

  /** The first line of the document, after the template's leading line break. */
  function DocumentStart(v: Variant): string {
    Gap(v) + "\\documentclass[12pt]{report}\n"
  }

  /** The rest of the preamble: packages, title page, abstract, keywords, contents. */
  function TitlePage<K>(v: Variant, f: Form<K>): string {
    "\\usepackage{CJKutf8}\n\\begin{document}\n\\begin{CJK}{UTF8}{bsmi}\n" + Gap(v)
    + "\\title{" + f.title + "}\n\\author{" + f.author + "}\n\\date{" + f.year + "}\n\\maketitle\n" + Gap(v)
    + "\\begin{center}\n" + f.university + " " + f.department + "\\\\\n"
    + "指導教授：" + f.advisor + "\\\\\n\\end{center}\n" + Gap(v)
    + "\\begin{abstract}\n" + f.abstractText + "\n\\end{abstract}\n" + Gap(v)
    + "\\textbf{關鍵字：}" + f.keywords + "\n" + Gap(v)
    + "\\tableofcontents\n"
  }

  function ChapterHeading(v: Variant, title: string): string {
    Gap(v) + "\\chapter{" + title + "}\n"
  }

  function SectionHeading(title: string): string {
    "\\section{" + title + "}\n"
  }

  function SubsectionHeading(title: string): string {
    "\\subsection{" + title + "}\n"
  }

  /** What one node of the outline contributes: its heading if titled, its text if any. */
  function NodeTex(v: Variant, n: Node): string {
    match n
    case ChapterNode(t) => if t != "" then ChapterHeading(v, t) else ""
    case SectionNode(t) => if t != "" then SectionHeading(t) else ""
    case SubsectionNode(t, c) => (if t != "" then SubsectionHeading(t) else "") + (if c != "" then c + "\n" else "")
  }

  /** The chapter loop: each chapter's heading, then its sections, in order. */
  function ChaptersTex<K>(v: Variant, chapters: seq<Chapter<K>>): string {
    if |chapters| == 0 then ""
    else
      var ch := chapters[0];
      (if ch.title != "" then ChapterHeading(v, ch.title) else "") + SectionsTex(ch.sections) + ChaptersTex(v, chapters[1..])
  }

  function SectionsTex<K>(sections: seq<Section<K>>): string {
    if |sections| == 0 then ""
    else
      var sec := sections[0];
      (if sec.title != "" then SectionHeading(sec.title) else "") + SubsectionsTex(sec.subsections) + SectionsTex(sections[1..])
  }

  function SubsectionsTex<K>(subsections: seq<Subsection<K>>): string {
    if |subsections| == 0 then ""
    else
      var sub := subsections[0];
      (if sub.title != "" then SubsectionHeading(sub.title) else "")
      + (if sub.content != "" then sub.content + "\n" else "")
      + SubsectionsTex(subsections[1..])
  }

  /** The text each node contributes, node by node in outline order. */
  function OutlineTex(v: Variant, nodes: seq<Node>): seq<string> {
    Map((n: Node) => NodeTex(v, n), nodes)
  }

  /**
   * The nested loops emit exactly the node-by-node texts of the depth-first
   * outline: a heading for each titled node, the text of each non-empty
   * subsection, and the children of untitled nodes all the same.
   */
  lemma {:induction false} BodyIsOutline<K>(v: Variant, chapters: seq<Chapter<K>>)
    ensures ChaptersTex(v, chapters) == Concat(OutlineTex(v, Outline(chapters)))
  {
    if |chapters| > 0 {
      var ch := chapters[0];
      var head := [ChapterNode(ch.title)];
      var secs := SectionsOutline(ch.sections);
      var rest := Outline(chapters[1..]);
      BodyIsOutline(v, chapters[1..]);
      SectionsAreOutline(ch.sections);
      MapAppend((n: Node) => NodeTex(v, n), head + secs, rest);
      MapAppend((n: Node) => NodeTex(v, n), head, secs);
      ConcatAppend(OutlineTex(v, head + secs), OutlineTex(v, rest));
      ConcatAppend(OutlineTex(v, head), OutlineTex(v, secs));
      // The variant only affects chapter headings, so the section texts agree.
      SectionsTexVariant(v, ch.sections);
    }
  }

  /** The section loop emits the node-by-node texts of its part of the outline. */
  lemma {:induction false} SectionsAreOutline<K>(sections: seq<Section<K>>)
    ensures SectionsTex(sections) == Concat(OutlineTex(Concatenated, SectionsOutline(sections)))
  {
    if |sections| > 0 {
      var sec := sections[0];
      var head := [SectionNode(sec.title)];
      var subs := SubsectionsOutline(sec.subsections);
      var rest := SectionsOutline(sections[1..]);
      SectionsAreOutline(sections[1..]);
      SubsectionsAreOutline(sec.subsections);
      MapAppend((n: Node) => NodeTex(Concatenated, n), head + subs, rest);
      MapAppend((n: Node) => NodeTex(Concatenated, n), head, subs);
      ConcatAppend(OutlineTex(Concatenated, head + subs), OutlineTex(Concatenated, rest));
      ConcatAppend(OutlineTex(Concatenated, head), OutlineTex(Concatenated, subs));
    }
  }

  lemma {:induction false} SubsectionsAreOutline<K>(subsections: seq<Subsection<K>>)
    ensures SubsectionsTex(subsections) == Concat(OutlineTex(Concatenated, SubsectionsOutline(subsections)))
  {
    if |subsections| > 0 {
      var sub := subsections[0];
      var nodes := SubsectionsOutline(subsections);
      SubsectionsAreOutline(subsections[1..]);
      assert nodes == [nodes[0]] + SubsectionsOutline(subsections[1..]);
      MapAppend((n: Node) => NodeTex(Concatenated, n), [nodes[0]], SubsectionsOutline(subsections[1..]));
      ConcatAppend(OutlineTex(Concatenated, [nodes[0]]), OutlineTex(Concatenated, SubsectionsOutline(subsections[1..])));
    }
  }

  /** Below the chapter level both variants emit the same text. */
  lemma {:induction false} SectionsTexVariant<K>(v: Variant, sections: seq<Section<K>>)
    ensures Concat(OutlineTex(v, SectionsOutline(sections))) == Concat(OutlineTex(Concatenated, SectionsOutline(sections)))
  {
    var nodes := SectionsOutline(sections);
    NoChapterNodes(sections);
    assert OutlineTex(v, nodes) == OutlineTex(Concatenated, nodes);
  }

  lemma {:induction false} NoChapterNodes<K>(sections: seq<Section<K>>)
    ensures forall i :: 0 <= i < |SectionsOutline(sections)| ==> !SectionsOutline(sections)[i].ChapterNode?
  {
    if |sections| > 0 {
      NoChapterNodes(sections[1..]);
    }
  }

  /** A tree whose titles and texts are all empty renders to an empty body. */
  lemma EmptyTreeEmptyBody<K>(v: Variant, chapters: seq<Chapter<K>>)
    requires AllEmpty(Outline(chapters))
    ensures ChaptersTex(v, chapters) == ""
  {
    BodyIsOutline(v, chapters);
    ConcatOfEmpties(OutlineTex(v, Outline(chapters)));
  }

  /** Whether `line.trim()` is truthy. */
  predicate Kept(line: string) {
    Trim(line) != ""
  }

  /**
   * The bibliography lines that survive: every line with something besides
   * white space, each occurrence of it, in order, and no other line.
   */
  function BibEntries(bibliography: string): (r: seq<string>)
    ensures forall i :: 0 <= i < |r| ==> !Blank(r[i]) && '\n' !in r[i]
    ensures IsSubsequence(r, Split(bibliography, '\n'))
    ensures forall x :: multiset(r)[x] == if Kept(x) then multiset(Split(bibliography, '\n'))[x] else 0
  {
    var lines := Split(bibliography, '\n');
    KeptLines(lines);
    Filter(Kept, lines)
  }

  /** Keeping the non-blank lines of a list of lines without line breaks. */
  lemma KeptLines(lines: seq<string>)
    requires forall i :: 0 <= i < |lines| ==> '\n' !in lines[i]
    ensures forall i :: 0 <= i < |Filter(Kept, lines)| ==> !Blank(Filter(Kept, lines)[i]) && '\n' !in Filter(Kept, lines)[i]
    ensures IsSubsequence(Filter(Kept, lines), lines)
    ensures forall x :: multiset(Filter(Kept, lines))[x] == if Kept(x) then multiset(lines)[x] else 0
  {
    FilterIsSubsequence(Kept, lines);
    FilterCount(Kept, lines);
  }

  /** One surviving bibliography line: `\noindent`, the line, a forced line break. */
  function BibLine(v: Variant, line: string): string {
    "\\noindent " + line + (if v == Concatenated then "\\\\" else "\\") + "\n"
  }

  function BibHeading(v: Variant): string {
    Gap(v) + "\\chapter*{參考文獻}\n"
  }

  function BibTex(v: Variant, bibliography: string): string {
    Concat(Map((line: string) => BibLine(v, line), BibEntries(bibliography)))
  }

  const Closing: string := "\\end{CJK}\n\\end{document}"

  /**
   * The whole document: preamble, the chapter tree, the bibliography heading
   * and lines, and the closing commands.
   */
  function Render<K>(v: Variant, f: Form<K>): (r: string)
    ensures |DocumentStart(v)| + |Closing| <= |r|
    ensures r[..|DocumentStart(v)|] == DocumentStart(v)
    ensures r[|r| - |Closing|..] == Closing
  {
    Framed(DocumentStart(v), Middle(v, f), Closing);
    DocumentStart(v) + Middle(v, f) + Closing
  }

  /** Everything between the first line and the closing commands. */
  function Middle<K>(v: Variant, f: Form<K>): string {
    TitlePage(v, f) + ChaptersTex(v, f.chapters) + BibHeading(v) + BibTex(v, f.bibliography)
  }

  lemma Framed(a: string, m: string, z: string)
    ensures |a| + |z| <= |a + m + z|
    ensures (a + m + z)[..|a|] == a && (a + m + z)[|a + m + z| - |z|..] == z
  {
  }

  /**
   * Two non-blank entries separated by an empty line give exactly two
   * bibliography lines: the empty line between them is dropped.
   */
  lemma TwoEntries(v: Variant, a: string, b: string)
    requires !Blank(a) && !Blank(b) && '\n' !in a && '\n' !in b
    ensures BibEntries(a + "\n\n" + b) == [a, b]
    ensures BibTex(v, a + "\n\n" + b) == BibLine(v, a) + BibLine(v, b)
  {
    var bib := a + "\n\n" + b;
    assert bib == a + ['\n'] + [] + ['\n'] + b;
    SplitThree(a, [], b, '\n');
    KeepOuter(a, b);
    BibLinesOfTwo(v, a, b);
  }

  lemma KeepOuter(a: string, b: string)
    requires !Blank(a) && !Blank(b)
    ensures Filter(Kept, [a, [], b]) == [a, b]
  {
    assert [a, [], b][1..] == [[], b];
    assert [[], b][1..] == [b];
    assert Filter(Kept, [b]) == [b];
  }

  lemma BibLinesOfTwo(v: Variant, a: string, b: string)
    ensures Concat(Map((line: string) => BibLine(v, line), [a, b])) == BibLine(v, a) + BibLine(v, b)
  {
    var m := Map((line: string) => BibLine(v, line), [a, b]);
    assert m == [BibLine(v, a), BibLine(v, b)];
    assert m[1..] == [BibLine(v, b)];
  }

  lemma SplitThree(a: string, b: string, c: string, sep: char)
    requires sep !in a && sep !in b && sep !in c
    ensures Split(a + [sep] + b + [sep] + c, sep) == [a, b, c]
  {
    SplitAfterPiece(b, sep, c);
    SplitSepFree(c, sep);
    Regroup(a, sep, b, c);
    SplitAfterPiece(a, sep, b + [sep] + c);
  }

  lemma Regroup<T>(a: seq<T>, x: T, b: seq<T>, c: seq<T>)
    ensures a + [x] + b + [x] + c == a + [x] + (b + [x] + c)
  {
  }

  /**
   * The form a page opens with renders to the fixed preamble, the
   * bibliography heading and the closing commands: no chapter, section or
   * subsection heading and no bibliography line.
   */
  lemma EmptyDocument<K>(v: Variant, c: K, sec: K, sub: K)
    ensures var f := InitialForm(c, sec, sub);
      Render(v, f) == DocumentStart(v) + TitlePage(v, f) + BibHeading(v) + Closing
  {
    var f := InitialForm(c, sec, sub);
    EmptyChapterTex(v, c, sec, sub);
    NoBibliography(v);
    FrameOnly(v, f);
  }

  /** A new chapter renders to nothing. */
  lemma EmptyChapterTex<K>(v: Variant, c: K, sec: K, sub: K)
    ensures ChaptersTex(v, [EmptyChapter(c, sec, sub)]) == ""
  {
    EmptyChapterOutline([], c, sec, sub);
    assert [] + [EmptyChapter(c, sec, sub)] == [EmptyChapter(c, sec, sub)];
    EmptyTreeEmptyBody(v, [EmptyChapter(c, sec, sub)]);
  }

  /** A form whose tree and bibliography render to nothing renders to its frame alone. */
  lemma FrameOnly<K>(v: Variant, f: Form<K>)
    requires ChaptersTex(v, f.chapters) == "" && BibTex(v, f.bibliography) == ""
    ensures Render(v, f) == DocumentStart(v) + TitlePage(v, f) + BibHeading(v) + Closing
  {
    DropEmpty(DocumentStart(v), TitlePage(v, f), ChaptersTex(v, f.chapters), BibHeading(v), BibTex(v, f.bibliography), Closing);
  }

  lemma DropEmpty(a: string, t: string, b: string, h: string, c: string, z: string)
    requires b == [] && c == []
    ensures a + (t + b + h + c) + z == a + t + h + z
  {
    assert t + b + h + c == t + h;
  }

  /** An empty bibliography gives no bibliography line. */
  lemma NoBibliography(v: Variant)
    ensures BibTex(v, "") == ""
  {
    assert Split("", '\n') == [""];
    assert !Kept("");
    assert Filter(Kept, [""]) == [];
  }
}
