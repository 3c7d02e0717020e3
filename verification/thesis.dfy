/**
 * The thesis being edited: front-matter fields, a three-level tree of
 * chapters, sections and subsections, and a bibliography text. Both editor
 * pages share this shape (src/ThesisForm.jsx:14-29, src/9ThesisForm.jsx:10-27,
 * 48-59). The id-keyed editor gives every node a numeric id; the index-based
 * editor gives none, so the node key `K` is a parameter (`nat` there, `()`
 * here).
 */
module Thesis {
  import opened Seqs

  /** The university pre-filled into a new form. */
  const DefaultUniversity: string := "國立中央大學"

  datatype Subsection<K> = Subsection(id: K, title: string, content: string)
  datatype Section<K> = Section(id: K, title: string, subsections: seq<Subsection<K>>)
  datatype Chapter<K> = Chapter(id: K, title: string, sections: seq<Section<K>>)

  /** The form state; `abstractText` is the field the source calls `abstract`. */
  datatype Form<K> = Form(
    title: string,
    author: string,
    advisor: string,
    university: string,
    year: string,
    department: string,
    abstractText: string,
    keywords: string,
    chapters: seq<Chapter<K>>,
    bibliography: string)

  /** The top-level text fields a `setField` can name. */
  datatype FormField =
    | TitleField | AuthorField | AdvisorField | UniversityField | YearField
    | DepartmentField | AbstractField | KeywordsField | BibliographyField

  /** The subsection fields the subsection editor writes. */
  datatype SubsectionField = SubsectionTitle | SubsectionContent

  function Get<K>(f: Form<K>, field: FormField): string {
    match field
    case TitleField => f.title
    case AuthorField => f.author
    case AdvisorField => f.advisor
    case UniversityField => f.university
    case YearField => f.year
    case DepartmentField => f.department
    case AbstractField => f.abstractText
    case KeywordsField => f.keywords
    case BibliographyField => f.bibliography
  }

  /** `{ ...f, [field]: value }`: the named field takes the value, nothing else changes. */
  function SetField<K>(f: Form<K>, field: FormField, value: string): (r: Form<K>)
    ensures Get(r, field) == value
    ensures forall other :: other != field ==> Get(r, other) == Get(f, other)
    ensures r.chapters == f.chapters
  {
    match field
    case TitleField => f.(title := value)
    case AuthorField => f.(author := value)
    case AdvisorField => f.(advisor := value)
    case UniversityField => f.(university := value)
    case YearField => f.(year := value)
    case DepartmentField => f.(department := value)
    case AbstractField => f.(abstractText := value)
    case KeywordsField => f.(keywords := value)
    case BibliographyField => f.(bibliography := value)
  }

  function GetSubsection<K>(sub: Subsection<K>, field: SubsectionField): string {
    match field
    case SubsectionTitle => sub.title
    case SubsectionContent => sub.content
  }

  /** `{ ...sub, [field]: value }` on a subsection. */
  function SetSubsection<K>(sub: Subsection<K>, field: SubsectionField, value: string): (r: Subsection<K>)
    ensures GetSubsection(r, field) == value
    ensures forall other :: other != field ==> GetSubsection(r, other) == GetSubsection(sub, other)
    ensures r.id == sub.id
  {
    match field
    case SubsectionTitle => sub.(title := value)
    case SubsectionContent => sub.(content := value)
  }

  /** A new subsection: both texts empty. */
  function EmptySubsection<K>(id: K): (r: Subsection<K>)
    ensures r.id == id && r.title == "" && r.content == ""
  {
    Subsection(id, "", "")
  }

  /** A new section: an empty title over exactly one new subsection. */
  function EmptySection<K>(id: K, subsectionId: K): (r: Section<K>)
    ensures r.id == id && r.title == "" && r.subsections == [EmptySubsection(subsectionId)]
  {
    Section(id, "", [EmptySubsection(subsectionId)])
  }

  /** A new chapter: an empty title over exactly one new section. */
  function EmptyChapter<K>(id: K, sectionId: K, subsectionId: K): (r: Chapter<K>)
    ensures r.id == id && r.title == "" && r.sections == [EmptySection(sectionId, subsectionId)]
  {
    Chapter(id, "", [EmptySection(sectionId, subsectionId)])
  }

  /** The form a page opens with: every text empty but the university, and one new chapter. */
  function InitialForm<K>(chapterId: K, sectionId: K, subsectionId: K): (r: Form<K>)
    ensures forall field :: field != UniversityField ==> Get(r, field) == ""
    ensures r.university == DefaultUniversity
    ensures r.chapters == [EmptyChapter(chapterId, sectionId, subsectionId)]
  {
    Form("", "", "", DefaultUniversity, "", "", "", "", [EmptyChapter(chapterId, sectionId, subsectionId)], "")
  }

  /**
   * One node of the tree as the exporters see it, without its children:
   * the exporters walk the tree depth first and treat each node on its own.
   */
  datatype Node =
    | ChapterNode(title: string)
    | SectionNode(title: string)
    | SubsectionNode(title: string, content: string)

  /** The tree flattened depth first: each chapter, then its sections, each followed by its subsections. */
  function Outline<K>(chapters: seq<Chapter<K>>): (r: seq<Node>)
    ensures |r| == NodeCount(chapters)
  {
    if |chapters| == 0 then []
    else [ChapterNode(chapters[0].title)] + SectionsOutline(chapters[0].sections) + Outline(chapters[1..])
  }

  function SectionsOutline<K>(sections: seq<Section<K>>): (r: seq<Node>)
    ensures |r| == SectionNodeCount(sections)
  {
    if |sections| == 0 then []
    else [SectionNode(sections[0].title)] + SubsectionsOutline(sections[0].subsections) + SectionsOutline(sections[1..])
  }

  function SubsectionsOutline<K>(subsections: seq<Subsection<K>>): (r: seq<Node>)
    ensures |r| == |subsections|
    ensures forall i :: 0 <= i < |r| ==> r[i] == SubsectionNode(subsections[i].title, subsections[i].content)
  {
    Map((sub: Subsection<K>) => SubsectionNode(sub.title, sub.content), subsections)
  }

  /** How many chapters, sections and subsections the tree holds. */
  function NodeCount<K>(chapters: seq<Chapter<K>>): nat {
    if |chapters| == 0 then 0 else 1 + SectionNodeCount(chapters[0].sections) + NodeCount(chapters[1..])
  }

  function SectionNodeCount<K>(sections: seq<Section<K>>): nat {
    if |sections| == 0 then 0 else 1 + |sections[0].subsections| + SectionNodeCount(sections[1..])
  }

  /** Every title and every content in the tree is empty. */
  predicate AllEmpty(nodes: seq<Node>) {
    forall i :: 0 <= i < |nodes| ==> nodes[i].title == "" && (nodes[i].SubsectionNode? ==> nodes[i].content == "")
  }

  lemma {:induction false} OutlineAppend<K>(a: seq<Chapter<K>>, b: seq<Chapter<K>>)
    ensures Outline(a + b) == Outline(a) + Outline(b)
  {
    if |a| == 0 {
      assert a + b == b;
    } else {
      assert (a + b)[1..] == a[1..] + b;
      OutlineAppend(a[1..], b);
    }
  }

  lemma {:induction false} SectionsOutlineAppend<K>(a: seq<Section<K>>, b: seq<Section<K>>)
    ensures SectionsOutline(a + b) == SectionsOutline(a) + SectionsOutline(b)
  {
    if |a| == 0 {
      assert a + b == b;
    } else {
      assert (a + b)[1..] == a[1..] + b;
      SectionsOutlineAppend(a[1..], b);
    }
  }

  /** A new chapter adds three nodes, all empty, at the end of the outline. */
  lemma EmptyChapterOutline<K>(chapters: seq<Chapter<K>>, c: K, s: K, sub: K)
    ensures Outline(chapters + [EmptyChapter(c, s, sub)])
      == Outline(chapters) + [ChapterNode(""), SectionNode(""), SubsectionNode("", "")]
  {
    OutlineAppend(chapters, [EmptyChapter(c, s, sub)]);
    var sec := EmptySection(s, sub);
    assert SectionsOutline([sec]) == [SectionNode("")] + SubsectionsOutline(sec.subsections) + SectionsOutline([sec][1..]);
    assert [EmptyChapter(c, s, sub)][1..] == [];
  }
}
