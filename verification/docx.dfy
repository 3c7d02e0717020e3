/**
 * The word-processing export (`generateDocx` in src/utils/docx.js, duplicated
 * in src/9ThesisForm.jsx): the list of blocks handed to the document, up to
 * but not including its packaging. A block is a heading at some level, a
 * plain paragraph, a table given by its rows of cell texts, or the table of
 * contents.
 */
module Docx {
  import opened Options
  import opened Seqs
  import opened Text
  import opened MarkdownTable
  import opened Thesis
  import Latex

  /** The paragraph styles used: the title style and heading levels 1 to 3. */
  datatype Level = TitleLevel | Heading1 | Heading2 | Heading3

  datatype Block =
    | Heading(level: Level, text: string)
    | Para(text: string)
    | Table(rows: seq<Row>)
    | Toc(caption: string)

  const AbstractHeading: string := "摘要"
  const ContentsHeading: string := "目錄"
  const ContentsCaption: string := "內容目錄"
  const BibliographyHeading: string := "參考文獻"

  /**
   * The eleven fixed blocks before the chapters: the title, four centred
   * lines and a spacer, the abstract with its keywords, and the contents
   * heading followed by the table of contents itself.
   */
  function FrontMatter<K>(f: Form<K>): (r: seq<Block>)
    ensures |r| == 11
    ensures r[0] == Heading(TitleLevel, f.title)
    ensures r[6] == Heading(Heading1, AbstractHeading) && r[7] == Para(f.abstractText)
    ensures r[9] == Heading(Heading1, ContentsHeading) && r[10] == Toc(ContentsCaption)
  {
    TitleBlocks(f) + AbstractBlocks(f) + ContentsBlocks()
  }

  /** The title and the centred lines under it, then an empty spacer paragraph. */
  function TitleBlocks<K>(f: Form<K>): seq<Block> {
    [ Heading(TitleLevel, f.title),
      Para(f.author),
      Para(f.university + " " + f.department),
      Para("指導教授：" + f.advisor),
      Para("學年度：" + f.year),
      Para("") ]
  }

  function AbstractBlocks<K>(f: Form<K>): seq<Block> {
    [Heading(Heading1, AbstractHeading), Para(f.abstractText), Para("關鍵字：" + f.keywords)]
  }

  function ContentsBlocks(): seq<Block> {
    [Heading(Heading1, ContentsHeading), Toc(ContentsCaption)]
  }

  /** The texts of the plain paragraphs among `blocks`, in order. */
  function ParagraphTexts(blocks: seq<Block>): seq<string> {
    if |blocks| == 0 then []
    else (if blocks[0].Para? then [blocks[0].text] else []) + ParagraphTexts(blocks[1..])
  }

  function Paragraphs(texts: seq<string>): seq<Block> {
    Map((t: string) => Para(t), texts)
  }

  lemma {:induction false} ParagraphsRoundTrip(texts: seq<string>)
    ensures ParagraphTexts(Paragraphs(texts)) == texts
  {
    if |texts| > 0 {
      ParagraphsRoundTrip(texts[1..]);
      assert Paragraphs(texts)[1..] == Paragraphs(texts[1..]);
    }
  }

  /**
   * What a subsection's text becomes. Empty text gives nothing. Text the
   * detector takes for a table gives the parsed table, or nothing at all when
   * the parser declines it. Any other text gives one paragraph per line, empty
   * lines included, and the paragraphs joined by line breaks are the text.
   */
  function ContentBlocks(content: string): (r: seq<Block>)
    ensures content == "" ==> r == []
    ensures content != "" && !IsMarkdownTable(content) ==>
      && |r| == Occurrences(content, '\n') + 1
      && (forall i :: 0 <= i < |r| ==> r[i].Para?)
      && Join(ParagraphTexts(r), '\n') == content
    ensures content != "" && IsMarkdownTable(content) ==>
      && (r == [] <==> ParseMarkdownTable(content).None?)
      && (r != [] ==> r == [Table(ParseMarkdownTable(content).value)])
    ensures forall i :: 0 <= i < |r| ==> r[i].Para? || r[i].Table?
  {
    if content == "" then []
    else if IsMarkdownTable(content) then TableBlocks(content)
    else LineParagraphs(content)
  }

  /** A detected table: one table block with the parsed rows, or nothing when the parser declines. */
  function TableBlocks(content: string): (r: seq<Block>)
    ensures r == [] <==> ParseMarkdownTable(content).None?
    ensures r != [] ==> r == [Table(ParseMarkdownTable(content).value)]
  {
    match ParseMarkdownTable(content)
    case None => []
    case Some(rows) => [Table(rows)]
  }

  /** `content.split("\n").map(txt => new Paragraph(txt))`: one paragraph per line. */
  function LineParagraphs(content: string): (r: seq<Block>)
    ensures |r| == Occurrences(content, '\n') + 1
    ensures forall i :: 0 <= i < |r| ==> r[i].Para? && '\n' !in r[i].text
    ensures Join(ParagraphTexts(r), '\n') == content
  {
    ParagraphsRoundTrip(Split(content, '\n'));
    Paragraphs(Split(content, '\n'))
  }

  /**
   * Text that passes the detector but has no line break after trimming is
   * dropped from the document: there is no fallback to paragraphs.
   */
  lemma DetectedSingleLineDropped(content: string)
    requires IsMarkdownTable(content) && '\n' !in Trim(content)
    ensures ContentBlocks(content) == []
  {
  }

  /** What one node of the outline contributes: its heading if titled, then its text. */
  function NodeBlocks(n: Node): seq<Block> {
    match n
    case ChapterNode(t) => if t != "" then [Heading(Heading1, t)] else []
    case SectionNode(t) => if t != "" then [Heading(Heading2, t)] else []
    case SubsectionNode(t, c) => (if t != "" then [Heading(Heading3, t)] else []) + ContentBlocks(c)
  }

  /** The chapter loop: each chapter's heading, then its sections, in order. */
  function ChaptersBlocks<K>(chapters: seq<Chapter<K>>): seq<Block> {
    if |chapters| == 0 then []
    else
      var ch := chapters[0];
      (if ch.title != "" then [Heading(Heading1, ch.title)] else []) + SectionsBlocks(ch.sections) + ChaptersBlocks(chapters[1..])
  }

  function SectionsBlocks<K>(sections: seq<Section<K>>): seq<Block> {
    if |sections| == 0 then []
    else
      var sec := sections[0];
      (if sec.title != "" then [Heading(Heading2, sec.title)] else []) + SubsectionsBlocks(sec.subsections) + SectionsBlocks(sections[1..])
  }

  function SubsectionsBlocks<K>(subsections: seq<Subsection<K>>): seq<Block> {
    if |subsections| == 0 then []
    else
      var sub := subsections[0];
      (if sub.title != "" then [Heading(Heading3, sub.title)] else [])
      + (if sub.content != "" then ContentBlocks(sub.content) else [])
      + SubsectionsBlocks(subsections[1..])
  }

  /** The blocks each node contributes, node by node in outline order. */
  function OutlineBlocks(nodes: seq<Node>): seq<seq<Block>> {
    Map(NodeBlocks, nodes)
  }

  /** The nested loops emit exactly the node-by-node blocks of the depth-first outline. */
  lemma {:induction false} BlocksAreOutline<K>(chapters: seq<Chapter<K>>)
    ensures ChaptersBlocks(chapters) == Concat(OutlineBlocks(Outline(chapters)))
  {
    if |chapters| > 0 {
      var ch := chapters[0];
      var head := [ChapterNode(ch.title)];
      var secs := SectionsOutline(ch.sections);
      var rest := Outline(chapters[1..]);
      BlocksAreOutline(chapters[1..]);
      SectionBlocksAreOutline(ch.sections);
      MapAppend(NodeBlocks, head + secs, rest);
      MapAppend(NodeBlocks, head, secs);
      ConcatAppend(OutlineBlocks(head + secs), OutlineBlocks(rest));
      ConcatAppend(OutlineBlocks(head), OutlineBlocks(secs));
    }
  }

  lemma {:induction false} SectionBlocksAreOutline<K>(sections: seq<Section<K>>)
    ensures SectionsBlocks(sections) == Concat(OutlineBlocks(SectionsOutline(sections)))
  {
    if |sections| > 0 {
      var sec := sections[0];
      var head := [SectionNode(sec.title)];
      var subs := SubsectionsOutline(sec.subsections);
      var rest := SectionsOutline(sections[1..]);
      SectionBlocksAreOutline(sections[1..]);
      SubsectionBlocksAreOutline(sec.subsections);
      MapAppend(NodeBlocks, head + subs, rest);
      MapAppend(NodeBlocks, head, subs);
      ConcatAppend(OutlineBlocks(head + subs), OutlineBlocks(rest));
      ConcatAppend(OutlineBlocks(head), OutlineBlocks(subs));
    }
  }

  lemma {:induction false} SubsectionBlocksAreOutline<K>(subsections: seq<Subsection<K>>)
    ensures SubsectionsBlocks(subsections) == Concat(OutlineBlocks(SubsectionsOutline(subsections)))
  {
    if |subsections| > 0 {
      var nodes := SubsectionsOutline(subsections);
      var rest := SubsectionsOutline(subsections[1..]);
      assert nodes == [nodes[0]] + rest;
      calc {
        Concat(OutlineBlocks(nodes));
        Concat(Map(NodeBlocks, [nodes[0]] + rest));
        { ConcatMapCons(NodeBlocks, nodes[0], rest); }
        NodeBlocks(nodes[0]) + Concat(OutlineBlocks(rest));
        { SubsectionBlocksAreOutline(subsections[1..]); }
        NodeBlocks(nodes[0]) + SubsectionsBlocks(subsections[1..]);
        { SubsectionsBlocksStep(subsections); }
        SubsectionsBlocks(subsections);
      }
    }
  }

  /** The subsection loop emits the first subsection's node blocks, then the rest. */
  lemma SubsectionsBlocksStep<K>(subsections: seq<Subsection<K>>)
    requires |subsections| > 0
    ensures SubsectionsBlocks(subsections)
      == NodeBlocks(SubsectionsOutline(subsections)[0]) + SubsectionsBlocks(subsections[1..])
  {
    var sub := subsections[0];
    SubsectionNodeBlocks(sub.title, sub.content);
  }

  /** A subsection node's blocks are what the subsection loop emits for it. */
  lemma SubsectionNodeBlocks(title: string, content: string)
    ensures NodeBlocks(SubsectionNode(title, content))
      == (if title != "" then [Heading(Heading3, title)] else []) + (if content != "" then ContentBlocks(content) else [])
  {
    if content == "" {
      assert ContentBlocks(content) == [];
    }
  }

  /** The texts of the headings at `level` among `blocks`, in order. */
  function Headings(blocks: seq<Block>, level: Level): seq<string> {
    if |blocks| == 0 then []
    else (if blocks[0].Heading? && blocks[0].level == level then [blocks[0].text] else []) + Headings(blocks[1..], level)
  }

  lemma {:induction false} HeadingsAppend(a: seq<Block>, b: seq<Block>, level: Level)
    ensures Headings(a + b, level) == Headings(a, level) + Headings(b, level)
  {
    if |a| == 0 {
      assert a + b == b;
    } else {
      assert (a + b)[1..] == a[1..] + b;
      HeadingsAppend(a[1..], b, level);
    }
  }

  /** Content never yields a heading. */
  lemma {:induction false} NoHeadingsInContent(blocks: seq<Block>, level: Level)
    requires forall i :: 0 <= i < |blocks| ==> !blocks[i].Heading?
    ensures Headings(blocks, level) == []
  {
    if |blocks| > 0 {
      NoHeadingsInContent(blocks[1..], level);
    }
  }

  /** The heading level of a node: chapters 1, sections 2, subsections 3. */
  function LevelOf(n: Node): Level {
    match n
    case ChapterNode(_) => Heading1
    case SectionNode(_) => Heading2
    case SubsectionNode(_, _) => Heading3
  }

  /** The non-empty titles of the nodes at `level`, in outline order. */
  function TitlesAt(nodes: seq<Node>, level: Level): seq<string> {
    if |nodes| == 0 then []
    else (if LevelOf(nodes[0]) == level && nodes[0].title != "" then [nodes[0].title] else []) + TitlesAt(nodes[1..], level)
  }

  /**
   * The headings at each level are exactly the non-empty titles of the nodes
   * of that depth, in depth-first order: untitled nodes get no heading, but
   * their children still get theirs.
   */
  lemma {:induction false} HeadingsAreTitles(nodes: seq<Node>, level: Level)
    ensures Headings(Concat(OutlineBlocks(nodes)), level) == TitlesAt(nodes, level)
  {
    if |nodes| > 0 {
      var n := nodes[0];
      HeadingsAreTitles(nodes[1..], level);
      assert nodes == [n] + nodes[1..];
      MapAppend(NodeBlocks, [n], nodes[1..]);
      ConcatAppend(OutlineBlocks([n]), OutlineBlocks(nodes[1..]));
      HeadingsAppend(NodeBlocks(n), Concat(OutlineBlocks(nodes[1..])), level);
      NodeHeadings(n, level);
    }
  }

  lemma NodeHeadings(n: Node, level: Level)
    ensures Headings(NodeBlocks(n), level) == if LevelOf(n) == level && n.title != "" then [n.title] else []
  {
    var head: seq<Block> := if n.title != "" then [Heading(LevelOf(n), n.title)] else [];
    assert Headings(head, level) == if LevelOf(n) == level && n.title != "" then [n.title] else [];
    if n.SubsectionNode? {
      HeadingsAppend(head, ContentBlocks(n.content), level);
      NoHeadingsInContent(ContentBlocks(n.content), level);
    }
  }

  /**
   * The bibliography paragraphs: one per line that is not the empty string.
   * A line of spaces is kept.
   */
  function BibBlocks(bibliography: string): (r: seq<Block>)
    ensures forall i :: 0 <= i < |r| ==> r[i].Para? && r[i].text != "" && '\n' !in r[i].text
    ensures IsSubsequence(ParagraphTexts(r), Split(bibliography, '\n'))
    ensures forall x :: multiset(ParagraphTexts(r))[x] == if NonEmpty(x) then multiset(Split(bibliography, '\n'))[x] else 0
  {
    var lines := Split(bibliography, '\n');
    FilterIsSubsequence(NonEmpty, lines);
    FilterCount(NonEmpty, lines);
    ParagraphsRoundTrip(Filter(NonEmpty, lines));
    Paragraphs(Filter(NonEmpty, lines))
  }

  /**
   * The whole block list: the front matter, the chapter tree, the
   * bibliography heading and the bibliography paragraphs.
   */
  function Generate<K>(f: Form<K>): (r: seq<Block>)
    ensures |r| == 11 + |ChaptersBlocks(f.chapters)| + 1 + |BibBlocks(f.bibliography)|
    ensures r[..11] == FrontMatter(f)
    ensures r[11..11 + |ChaptersBlocks(f.chapters)|] == ChaptersBlocks(f.chapters)
    ensures r[11 + |ChaptersBlocks(f.chapters)|] == Heading(Heading1, BibliographyHeading)
    ensures r[12 + |ChaptersBlocks(f.chapters)|..] == BibBlocks(f.bibliography)
  {
    var front, body, bib := FrontMatter(f), ChaptersBlocks(f.chapters), BibBlocks(f.bibliography);
    Parts(front, body, Heading(Heading1, BibliographyHeading), bib);
    front + body + [Heading(Heading1, BibliographyHeading)] + bib
  }

  /**
   * The level-1 headings of the document are the abstract and contents
   * headings, the non-empty chapter titles in order, and the bibliography
   * heading; the lower levels hold exactly the section and subsection titles.
   */
  lemma DocumentHeadings<K>(f: Form<K>, level: Level)
    requires level != TitleLevel
    ensures Headings(Generate(f), level)
      == (if level == Heading1 then [AbstractHeading, ContentsHeading] else [])
      + TitlesAt(Outline(f.chapters), level)
      + (if level == Heading1 then [BibliographyHeading] else [])
  {
    var front, body, tail := FrontMatter(f), ChaptersBlocks(f.chapters), [Heading(Heading1, BibliographyHeading)];
    var bib := BibBlocks(f.bibliography);
    assert Generate(f) == front + body + tail + bib;
    FrontMatterHeadings(f, level);
    BodyHeadings(f.chapters, level);
    TailHeadings(level);
    BibHeadings(f.bibliography, level);
    HeadingsOfFour(front, body, tail, bib, level);
  }

  /** The chapter blocks hold, at each level, the non-empty titles of that depth. */
  lemma BodyHeadings<K>(chapters: seq<Chapter<K>>, level: Level)
    ensures Headings(ChaptersBlocks(chapters), level) == TitlesAt(Outline(chapters), level)
  {
    BlocksAreOutline(chapters);
    HeadingsAreTitles(Outline(chapters), level);
  }

  lemma TailHeadings(level: Level)
    ensures Headings([Heading(Heading1, BibliographyHeading)], level) == if level == Heading1 then [BibliographyHeading] else []
  {
    assert [Heading(Heading1, BibliographyHeading)][1..] == [];
  }

  /** The bibliography paragraphs hold no heading. */
  lemma BibHeadings(bibliography: string, level: Level)
    ensures Headings(BibBlocks(bibliography), level) == []
  {
    NoHeadingsInContent(BibBlocks(bibliography), level);
  }

  lemma HeadingsOfFour(a: seq<Block>, b: seq<Block>, c: seq<Block>, d: seq<Block>, level: Level)
    ensures Headings(a + b + c + d, level) == Headings(a, level) + Headings(b, level) + Headings(c, level) + Headings(d, level)
  {
    HeadingsAppend(a + b + c, d, level);
    HeadingsAppend(a + b, c, level);
    HeadingsAppend(a, b, level);
  }

  lemma FrontMatterHeadings<K>(f: Form<K>, level: Level)
    requires level != TitleLevel
    ensures Headings(FrontMatter(f), level) == if level == Heading1 then [AbstractHeading, ContentsHeading] else []
  {
    HeadingsOfThree(TitleBlocks(f), AbstractBlocks(f), ContentsBlocks(), level);
    TitleHeadings(f, level);
    AbstractHeadings(f, level);
    ContentsHeadings(level);
    Pair(AbstractHeading, ContentsHeading);
  }

  lemma Pair<T>(x: T, y: T)
    ensures [] + [x] + [y] == [x, y]
  {
  }

  /** The title page holds no heading below the title level. */
  lemma TitleHeadings<K>(f: Form<K>, level: Level)
    requires level != TitleLevel
    ensures Headings(TitleBlocks(f), level) == []
  {
    LeadingHeading(TitleBlocks(f), level);
  }

  lemma AbstractHeadings<K>(f: Form<K>, level: Level)
    ensures Headings(AbstractBlocks(f), level) == if level == Heading1 then [AbstractHeading] else []
  {
    LeadingHeading(AbstractBlocks(f), level);
  }

  lemma ContentsHeadings(level: Level)
    ensures Headings(ContentsBlocks(), level) == if level == Heading1 then [ContentsHeading] else []
  {
    LeadingHeading(ContentsBlocks(), level);
  }

  lemma HeadingsOfThree(a: seq<Block>, b: seq<Block>, c: seq<Block>, level: Level)
    ensures Headings(a + b + c, level) == Headings(a, level) + Headings(b, level) + Headings(c, level)
  {
    HeadingsAppend(a + b, c, level);
    HeadingsAppend(a, b, level);
  }

  /** A list whose only heading is its first block has at most that heading. */
  lemma LeadingHeading(blocks: seq<Block>, level: Level)
    requires |blocks| > 0 && blocks[0].Heading?
    requires forall i :: 1 <= i < |blocks| ==> !blocks[i].Heading?
    ensures Headings(blocks, level) == if blocks[0].level == level then [blocks[0].text] else []
  {
    NoHeadingsInContent(blocks[1..], level);
  }

  /**
   * The two exports treat a line of spaces in the bibliography differently:
   * the document keeps it as a paragraph, the LaTeX text drops it.
   */
  lemma SpaceLineKeptOnlyHere(entry: string, spaces: string)
    requires !Blank(entry) && '\n' !in entry
    requires spaces != "" && Blank(spaces) && '\n' !in spaces
    ensures BibBlocks(entry + ['\n'] + spaces) == [Para(entry), Para(spaces)]
    ensures Latex.BibEntries(entry + ['\n'] + spaces) == [entry]
  {
    SplitAfterPiece(entry, '\n', spaces);
    SplitSepFree(spaces, '\n');
    SpaceLineFilters(entry, spaces);
    ParagraphsOfTwo(entry, spaces);
  }

  /** Of a line and a line of spaces, both are non-empty but only the first is kept by the LaTeX test. */
  lemma SpaceLineFilters(entry: string, spaces: string)
    requires !Blank(entry) && spaces != "" && Blank(spaces)
    ensures Filter(NonEmpty, [entry, spaces]) == [entry, spaces]
    ensures Filter(Latex.Kept, [entry, spaces]) == [entry]
  {
    assert [entry, spaces][1..] == [spaces];
    assert Filter(NonEmpty, [spaces]) == [spaces];
    assert Filter(Latex.Kept, [spaces]) == [];
  }

  /**
   * The form a page opens with gives the front matter and the bibliography
   * heading only: no chapter, section or subsection heading, no paragraph
   * for the empty subsection and no bibliography paragraph.
   */
  lemma EmptyDocument<K>(c: K, sec: K, sub: K)
    ensures var f := InitialForm(c, sec, sub);
      Generate(f) == FrontMatter(f) + [Heading(Heading1, BibliographyHeading)]
  {
    var f := InitialForm(c, sec, sub);
    EmptyChapterBlocks(c, sec, sub);
    NoBibliography();
    DropEmptyBlocks(FrontMatter(f), ChaptersBlocks(f.chapters), [Heading(Heading1, BibliographyHeading)], BibBlocks(f.bibliography));
  }

  lemma DropEmptyBlocks(a: seq<Block>, b: seq<Block>, h: seq<Block>, c: seq<Block>)
    requires b == [] && c == []
    ensures a + b + h + c == a + h
  {
  }

  /** A new chapter gives no block. */
  lemma EmptyChapterBlocks<K>(c: K, sec: K, sub: K)
    ensures ChaptersBlocks([EmptyChapter(c, sec, sub)]) == []
  {
    var chapters := [EmptyChapter(c, sec, sub)];
    EmptyChapterOutline([], c, sec, sub);
    assert [] + chapters == chapters;
    BlocksAreOutline(chapters);
    var nodes := Outline(chapters);
    assert nodes == [ChapterNode(""), SectionNode(""), SubsectionNode("", "")];
    SubsectionNodeBlocks("", "");
    ConcatOfEmpties(OutlineBlocks(nodes));
  }

  /** An empty bibliography gives no paragraph. */
  lemma NoBibliography()
    ensures BibBlocks("") == []
  {
    assert Split("", '\n') == [""];
    assert Filter(NonEmpty, [""]) == [];
  }

  /**
   * A blank line between two lines is dropped from the bibliography, by both
   * exports, but kept as an empty paragraph in subsection text.
   */
  lemma BlankLineAsymmetry(a: string, b: string)
    requires !Blank(a) && !Blank(b) && '\n' !in a && '\n' !in b
    requires !IsMarkdownTable(a + "\n\n" + b)
    ensures BibBlocks(a + "\n\n" + b) == [Para(a), Para(b)]
    ensures Latex.BibEntries(a + "\n\n" + b) == [a, b]
    ensures ContentBlocks(a + "\n\n" + b) == [Para(a), Para(""), Para(b)]
  {
    BibBlankLine(a, b);
    Latex.TwoEntries(Latex.Concatenated, a, b);
    ContentBlankLine(a, b);
  }

  lemma BibBlankLine(a: string, b: string)
    requires a != [] && b != [] && '\n' !in a && '\n' !in b
    ensures BibBlocks(a + "\n\n" + b) == [Para(a), Para(b)]
  {
    assert a + "\n\n" + b == a + ['\n'] + [] + ['\n'] + b;
    Latex.SplitThree(a, [], b, '\n');
    KeepNonEmptyOuter(a, b);
    ParagraphsOfTwo(a, b);
  }

  lemma ContentBlankLine(a: string, b: string)
    requires '\n' !in a && '\n' !in b && !IsMarkdownTable(a + "\n\n" + b)
    ensures ContentBlocks(a + "\n\n" + b) == [Para(a), Para(""), Para(b)]
  {
    var md := a + "\n\n" + b;
    LinesAroundBlank(a, b);
    assert ContentBlocks(md) == LineParagraphs(md);
  }

  /** Two lines around an empty one give three paragraphs, the middle one empty. */
  lemma LinesAroundBlank(a: string, b: string)
    requires '\n' !in a && '\n' !in b
    ensures Paragraphs(Split(a + "\n\n" + b, '\n')) == [Para(a), Para(""), Para(b)]
  {
    assert a + "\n\n" + b == a + ['\n'] + [] + ['\n'] + b;
    Latex.SplitThree(a, [], b, '\n');
    ParagraphsOfThree(a, "", b);
  }

  lemma KeepNonEmptyOuter(a: string, b: string)
    requires a != [] && b != []
    ensures Filter(NonEmpty, [a, [], b]) == [a, b]
  {
    assert [a, [], b][1..] == [[], b];
    assert [[], b][1..] == [b];
    assert Filter(NonEmpty, [b]) == [b];
  }

  lemma ParagraphsOfTwo(a: string, b: string)
    ensures Paragraphs([a, b]) == [Para(a), Para(b)]
  {
  }

  lemma ParagraphsOfThree(a: string, b: string, c: string)
    ensures Paragraphs([a, b, c]) == [Para(a), Para(b), Para(c)]
  {
  }
}
