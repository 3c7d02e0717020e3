/**
 * The id-keyed editor's state machine (`reducer` in src/ThesisForm.jsx): each
 * action names its target by id and returns a new form. The global counter
 * that hands out ids is replaced by the fresh ids an add action carries.
 */
module Reducer {
  import opened Seqs
  import opened Thesis

  type Id = nat
  type State = Form<Id>

  /**
   * The actions the editor dispatches. An add action carries the ids its new
   * nodes receive, in the order the counter would hand them out: chapter,
   * then section, then subsection. `Other` is any action of another type.
   */
  datatype Action =
    | SetField(field: FormField, value: string)
    | AddChapter(newChapter: Id, newSection: Id, newSubsection: Id)
    | RemoveChapter(chapterId: Id)
    | SetChapterTitle(chapterId: Id, value: string)
    | AddSection(chapterId: Id, newSection: Id, newSubsection: Id)
    | RemoveSection(chapterId: Id, sectionId: Id)
    | SetSectionTitle(chapterId: Id, sectionId: Id, value: string)
    | AddSubsection(chapterId: Id, sectionId: Id, newSubsection: Id)
    | RemoveSubsection(chapterId: Id, sectionId: Id, subsectionId: Id)
    | SetSubsectionField(chapterId: Id, sectionId: Id, subsectionId: Id, subsectionField: SubsectionField, value: string)
    | Other(actionType: string)

  /**
   * `r` is `s` without the elements whose key is `id`: every copy of every
   * other element stays, in its original order, and nothing else is left.
   */
  ghost predicate Without<T(!new)>(r: seq<T>, s: seq<T>, key: T -> Id, id: Id) {
    && IsSubsequence(r, s)
    && forall x :: multiset(r)[x] == if key(x) == id then 0 else multiset(s)[x]
  }

  /** `list.filter(x => x.id !== id)`: every element with the id goes, the rest stay in order. */
  function RemoveById<T(!new)>(s: seq<T>, key: T -> Id, id: Id): (r: seq<T>)
    ensures Without(r, s, key, id)
    ensures forall i :: 0 <= i < |r| ==> key(r[i]) != id
    ensures forall i :: 0 <= i < |s| && key(s[i]) != id ==> s[i] in r
    ensures (forall i :: 0 <= i < |s| ==> key(s[i]) != id) ==> r == s
  {
    FilterIsSubsequence((x: T) => key(x) != id, s);
    FilterCount((x: T) => key(x) != id, s);
    Filter((x: T) => key(x) != id, s)
  }

  /** With distinct ids, removing by the id at position `i` removes exactly position `i`. */
  lemma RemoveUniqueId<T(!new)>(s: seq<T>, key: T -> Id, i: int)
    requires 0 <= i < |s|
    requires forall j :: 0 <= j < |s| && j != i ==> key(s[j]) != key(s[i])
    ensures RemoveById(s, key, key(s[i])) == s[..i] + s[i + 1..]
  {
    FilterOutOne((x: T) => key(x) != key(s[i]), s, i);
  }

  /** `list.map(x => x.id === id ? g(x) : x)`: every element with the id is rewritten in place. */
  function UpdateById<T>(s: seq<T>, key: T -> Id, id: Id, g: T -> T): (r: seq<T>)
    ensures |r| == |s|
    ensures forall i :: 0 <= i < |s| ==> r[i] == if key(s[i]) == id then g(s[i]) else s[i]
  {
    Map((x: T) => if key(x) == id then g(x) else x, s)
  }

  function ChapterId(ch: Chapter<Id>): Id { ch.id }
  function SectionId(sec: Section<Id>): Id { sec.id }
  function SubsectionId(sub: Subsection<Id>): Id { sub.id }

  /**
   * The ids of the tree with its shape: per chapter its id and per section
   * its id and its subsections' ids. Only add and remove actions change it.
   */
  function Skeleton(chapters: seq<Chapter<Id>>): seq<(Id, seq<(Id, seq<Id>)>)> {
    Map((ch: Chapter<Id>) => (ch.id, Map(SectionSkeleton, ch.sections)), chapters)
  }

  function SectionSkeleton(sec: Section<Id>): (Id, seq<Id>) {
    (sec.id, Map(SubsectionId, sec.subsections))
  }

  /** `addChapter`: one new empty chapter at the end. */
  function DoAddChapter(s: State, c: Id, sec: Id, sub: Id): (r: State)
    ensures r == s.(chapters := r.chapters)
    ensures |r.chapters| == |s.chapters| + 1
    ensures r.chapters[..|s.chapters|] == s.chapters
    ensures r.chapters[|s.chapters|] == EmptyChapter(c, sec, sub)
  {
    var chapters := s.chapters + [EmptyChapter(c, sec, sub)];
    assert chapters[..|s.chapters|] == s.chapters;
    s.(chapters := chapters)
  }

  /** `removeChapter`: every chapter with the id goes; the others stay in order. */
  function DoRemoveChapter(s: State, id: Id): (r: State)
    ensures r == s.(chapters := r.chapters)
    ensures Without(r.chapters, s.chapters, ChapterId, id)
    ensures forall i :: 0 <= i < |r.chapters| ==> r.chapters[i].id != id
    ensures forall i :: 0 <= i < |s.chapters| && s.chapters[i].id != id ==> s.chapters[i] in r.chapters
    ensures (forall i :: 0 <= i < |s.chapters| ==> s.chapters[i].id != id) ==> r == s
  {
    s.(chapters := RemoveById(s.chapters, ChapterId, id))
  }

  /** `setChapterField` with the one field the chapter editor writes, its title. */
  function DoSetChapterTitle(s: State, id: Id, value: string): (r: State)
    ensures r == s.(chapters := r.chapters)
    ensures |r.chapters| == |s.chapters|
    ensures forall i :: 0 <= i < |s.chapters| ==>
      && r.chapters[i].id == s.chapters[i].id
      && r.chapters[i].sections == s.chapters[i].sections
      && r.chapters[i].title == if s.chapters[i].id == id then value else s.chapters[i].title
  {
    s.(chapters := UpdateById(s.chapters, ChapterId, id, (ch: Chapter<Id>) => ch.(title := value)))
  }

  /** `addSection`: one new empty section at the end of each chapter with the id. */
  function DoAddSection(s: State, chapterId: Id, sec: Id, sub: Id): (r: State)
    ensures r == s.(chapters := r.chapters)
    ensures |r.chapters| == |s.chapters|
    ensures forall i :: 0 <= i < |s.chapters| ==>
      && r.chapters[i].id == s.chapters[i].id
      && r.chapters[i].title == s.chapters[i].title
      && r.chapters[i].sections ==
         if s.chapters[i].id == chapterId then s.chapters[i].sections + [EmptySection(sec, sub)]
         else s.chapters[i].sections
  {
    s.(chapters := UpdateById(s.chapters, ChapterId, chapterId,
      (ch: Chapter<Id>) => ch.(sections := ch.sections + [EmptySection(sec, sub)])))
  }

  /** `removeSection`: in each chapter with the id, every section with the section id goes. */
  function DoRemoveSection(s: State, chapterId: Id, sectionId: Id): (r: State)
    ensures r == s.(chapters := r.chapters)
    ensures |r.chapters| == |s.chapters|
    ensures forall i :: 0 <= i < |s.chapters| ==>
      && r.chapters[i].id == s.chapters[i].id
      && r.chapters[i].title == s.chapters[i].title
      && (s.chapters[i].id != chapterId ==> r.chapters[i] == s.chapters[i])
    ensures forall i :: 0 <= i < |s.chapters| && s.chapters[i].id == chapterId ==>
      var before, after := s.chapters[i].sections, r.chapters[i].sections;
      && Without(after, before, SectionId, sectionId)
      && (forall j :: 0 <= j < |after| ==> after[j].id != sectionId)
      && (forall j :: 0 <= j < |before| && before[j].id != sectionId ==> before[j] in after)
      && ((forall j :: 0 <= j < |before| ==> before[j].id != sectionId) ==> after == before)
  {
    s.(chapters := UpdateById(s.chapters, ChapterId, chapterId,
      (ch: Chapter<Id>) => ch.(sections := RemoveById(ch.sections, SectionId, sectionId))))
  }

  /** Removing a section id that no chapter with the chapter id holds changes nothing. */
  lemma RemoveAbsentSection(s: State, chapterId: Id, sectionId: Id)
    requires forall i, j ::
               && 0 <= i < |s.chapters| && s.chapters[i].id == chapterId && 0 <= j < |s.chapters[i].sections|
               ==> s.chapters[i].sections[j].id != sectionId
    ensures DoRemoveSection(s, chapterId, sectionId) == s
  {
    var r := DoRemoveSection(s, chapterId, sectionId);
    forall i | 0 <= i < |s.chapters|
      ensures r.chapters[i] == s.chapters[i]
    {
    }
    assert r.chapters == s.chapters;
  }

  /** The sections of one chapter with the titles of those with the id replaced. */
  function RetitleSections(sections: seq<Section<Id>>, sectionId: Id, value: string): (r: seq<Section<Id>>)
    ensures |r| == |sections|
    ensures forall j :: 0 <= j < |sections| ==>
      && r[j].id == sections[j].id
      && r[j].subsections == sections[j].subsections
      && r[j].title == if sections[j].id == sectionId then value else sections[j].title
  {
    UpdateById(sections, SectionId, sectionId, (sec: Section<Id>) => sec.(title := value))
  }

  /** `setSectionField` with the section title: only sections on the id path change. */
  function DoSetSectionTitle(s: State, chapterId: Id, sectionId: Id, value: string): (r: State)
    ensures r == s.(chapters := r.chapters)
    ensures |r.chapters| == |s.chapters|
    ensures forall i :: 0 <= i < |s.chapters| ==>
      && r.chapters[i].id == s.chapters[i].id
      && r.chapters[i].title == s.chapters[i].title
      && (s.chapters[i].id != chapterId ==> r.chapters[i] == s.chapters[i])
      && (s.chapters[i].id == chapterId ==> r.chapters[i].sections == RetitleSections(s.chapters[i].sections, sectionId, value))
  {
    s.(chapters := UpdateById(s.chapters, ChapterId, chapterId,
      (ch: Chapter<Id>) => ch.(sections := RetitleSections(ch.sections, sectionId, value))))
  }

  /** The sections of one chapter, with a new empty subsection in each section with the id. */
  function GrowSections(sections: seq<Section<Id>>, sectionId: Id, sub: Id): (r: seq<Section<Id>>)
    ensures |r| == |sections|
    ensures forall j :: 0 <= j < |sections| ==>
      && r[j].id == sections[j].id
      && r[j].title == sections[j].title
      && r[j].subsections ==
         if sections[j].id == sectionId then sections[j].subsections + [EmptySubsection(sub)]
         else sections[j].subsections
  {
    UpdateById(sections, SectionId, sectionId,
      (sec: Section<Id>) => sec.(subsections := sec.subsections + [EmptySubsection(sub)]))
  }

  /** `addSubsection`: one new empty subsection at the end of each section on the id path. */
  function DoAddSubsection(s: State, chapterId: Id, sectionId: Id, sub: Id): (r: State)
    ensures r == s.(chapters := r.chapters)
    ensures |r.chapters| == |s.chapters|
    ensures forall i :: 0 <= i < |s.chapters| ==>
      && r.chapters[i].id == s.chapters[i].id
      && r.chapters[i].title == s.chapters[i].title
      && (s.chapters[i].id != chapterId ==> r.chapters[i] == s.chapters[i])
      && (s.chapters[i].id == chapterId ==> r.chapters[i].sections == GrowSections(s.chapters[i].sections, sectionId, sub))
  {
    s.(chapters := UpdateById(s.chapters, ChapterId, chapterId,
      (ch: Chapter<Id>) => ch.(sections := GrowSections(ch.sections, sectionId, sub))))
  }

  /** The sections of one chapter, with the subsections with the id removed from each section with the id. */
  function PruneSections(sections: seq<Section<Id>>, sectionId: Id, subsectionId: Id): (r: seq<Section<Id>>)
    ensures |r| == |sections|
    ensures forall j :: 0 <= j < |sections| ==>
      && r[j].id == sections[j].id
      && r[j].title == sections[j].title
      && (sections[j].id != sectionId ==> r[j] == sections[j])
    ensures forall j :: 0 <= j < |sections| && sections[j].id == sectionId ==>
      var before, after := sections[j].subsections, r[j].subsections;
      && Without(after, before, SubsectionId, subsectionId)
      && (forall k :: 0 <= k < |after| ==> after[k].id != subsectionId)
      && (forall k :: 0 <= k < |before| && before[k].id != subsectionId ==> before[k] in after)
      && ((forall k :: 0 <= k < |before| ==> before[k].id != subsectionId) ==> after == before)
    ensures (forall j, k :: 0 <= j < |sections| && sections[j].id == sectionId && 0 <= k < |sections[j].subsections|
               ==> sections[j].subsections[k].id != subsectionId) ==> r == sections
  {
    UpdateById(sections, SectionId, sectionId,
      (sec: Section<Id>) => sec.(subsections := RemoveById(sec.subsections, SubsectionId, subsectionId)))
  }

  /** `removeSubsection`: only the sections on the id path lose subsections. */
  function DoRemoveSubsection(s: State, chapterId: Id, sectionId: Id, subsectionId: Id): (r: State)
    ensures r == s.(chapters := r.chapters)
    ensures |r.chapters| == |s.chapters|
    ensures forall i :: 0 <= i < |s.chapters| ==>
      && r.chapters[i].id == s.chapters[i].id
      && r.chapters[i].title == s.chapters[i].title
      && (s.chapters[i].id != chapterId ==> r.chapters[i] == s.chapters[i])
      && (s.chapters[i].id == chapterId ==> r.chapters[i].sections == PruneSections(s.chapters[i].sections, sectionId, subsectionId))
  {
    s.(chapters := UpdateById(s.chapters, ChapterId, chapterId,
      (ch: Chapter<Id>) => ch.(sections := PruneSections(ch.sections, sectionId, subsectionId))))
  }

  /** Removing a subsection id that no section on the id path holds changes nothing. */
  lemma RemoveAbsentSubsection(s: State, chapterId: Id, sectionId: Id, subsectionId: Id)
    requires forall i, j, k ::
               && 0 <= i < |s.chapters| && s.chapters[i].id == chapterId
               && 0 <= j < |s.chapters[i].sections| && s.chapters[i].sections[j].id == sectionId
               && 0 <= k < |s.chapters[i].sections[j].subsections|
               ==> s.chapters[i].sections[j].subsections[k].id != subsectionId
    ensures DoRemoveSubsection(s, chapterId, sectionId, subsectionId) == s
  {
    var r := DoRemoveSubsection(s, chapterId, sectionId, subsectionId);
    forall i | 0 <= i < |s.chapters|
      ensures r.chapters[i] == s.chapters[i]
    {
    }
    assert r.chapters == s.chapters;
  }

  /** The sections of one chapter, with one field of the subsections on the id path set. */
  function EditSections(sections: seq<Section<Id>>, sectionId: Id, subsectionId: Id, field: SubsectionField, value: string)
    : (r: seq<Section<Id>>)
    ensures |r| == |sections|
    ensures forall j :: 0 <= j < |sections| ==>
      && r[j].id == sections[j].id
      && r[j].title == sections[j].title
      && |r[j].subsections| == |sections[j].subsections|
      && (sections[j].id != sectionId ==> r[j] == sections[j])
    ensures forall j, k :: 0 <= j < |sections| && 0 <= k < |sections[j].subsections| ==>
      var before, after := sections[j].subsections[k], r[j].subsections[k];
      && after.id == before.id
      && (sections[j].id == sectionId && before.id == subsectionId ==> after == SetSubsection(before, field, value))
      && (sections[j].id != sectionId || before.id != subsectionId ==> after == before)
  {
    UpdateById(sections, SectionId, sectionId,
      (sec: Section<Id>) => sec.(subsections := UpdateById(sec.subsections, SubsectionId, subsectionId,
        (sub: Subsection<Id>) => SetSubsection(sub, field, value))))
  }

  /** `setSubsectionField`: only the subsections on the id path change, and only in that field. */
  function DoSetSubsectionField(s: State, chapterId: Id, sectionId: Id, subsectionId: Id, field: SubsectionField, value: string)
    : (r: State)
    ensures r == s.(chapters := r.chapters)
    ensures |r.chapters| == |s.chapters|
    ensures forall i :: 0 <= i < |s.chapters| ==>
      && r.chapters[i].id == s.chapters[i].id
      && r.chapters[i].title == s.chapters[i].title
      && (s.chapters[i].id != chapterId ==> r.chapters[i] == s.chapters[i])
      && (s.chapters[i].id == chapterId ==>
           r.chapters[i].sections == EditSections(s.chapters[i].sections, sectionId, subsectionId, field, value))
  {
    s.(chapters := UpdateById(s.chapters, ChapterId, chapterId,
      (ch: Chapter<Id>) => ch.(sections := EditSections(ch.sections, sectionId, subsectionId, field, value))))
  }

  /** One step of the editor: the new form after `a`. */
  function Step(s: State, a: Action): (r: State)
    ensures a.Other? ==> r == s
    ensures !a.SetField? ==> r == s.(chapters := r.chapters)
    ensures a.SetField? ==> r.chapters == s.chapters
  {
    match a
    case SetField(field, value) => Thesis.SetField(s, field, value)
    case AddChapter(c, sec, sub) => DoAddChapter(s, c, sec, sub)
    case RemoveChapter(id) => DoRemoveChapter(s, id)
    case SetChapterTitle(id, value) => DoSetChapterTitle(s, id, value)
    case AddSection(c, sec, sub) => DoAddSection(s, c, sec, sub)
    case RemoveSection(c, sec) => DoRemoveSection(s, c, sec)
    case SetSectionTitle(c, sec, value) => DoSetSectionTitle(s, c, sec, value)
    case AddSubsection(c, sec, sub) => DoAddSubsection(s, c, sec, sub)
    case RemoveSubsection(c, sec, sub) => DoRemoveSubsection(s, c, sec, sub)
    case SetSubsectionField(c, sec, sub, field, value) => DoSetSubsectionField(s, c, sec, sub, field, value)
    case Other(_) => s
  }

  /** Actions that edit text only. */
  predicate IsEdit(a: Action) {
    a.SetField? || a.SetChapterTitle? || a.SetSectionTitle? || a.SetSubsectionField?
  }

  /** Editing text never changes the shape of the tree or any id in it. */
  lemma EditKeepsSkeleton(s: State, a: Action)
    requires IsEdit(a)
    ensures Skeleton(Step(s, a).chapters) == Skeleton(s.chapters)
  {
    var r := Step(s, a);
    match a
    case SetField(_, _) =>
    case SetChapterTitle(_, _) =>
      assert forall i :: 0 <= i < |s.chapters| ==> Map(SectionSkeleton, r.chapters[i].sections) == Map(SectionSkeleton, s.chapters[i].sections);
    case SetSectionTitle(c, sec, value) =>
      forall i | 0 <= i < |s.chapters|
        ensures Map(SectionSkeleton, r.chapters[i].sections) == Map(SectionSkeleton, s.chapters[i].sections)
      {
        if s.chapters[i].id == c {
          SectionsSkeletonPointwise(r.chapters[i].sections, s.chapters[i].sections);
        }
      }
    case SetSubsectionField(c, sec, sub, field, value) =>
      forall i | 0 <= i < |s.chapters|
        ensures Map(SectionSkeleton, r.chapters[i].sections) == Map(SectionSkeleton, s.chapters[i].sections)
      {
        if s.chapters[i].id == c {
          var after, before := r.chapters[i].sections, s.chapters[i].sections;
          forall j | 0 <= j < |before|
            ensures Map(SubsectionId, after[j].subsections) == Map(SubsectionId, before[j].subsections)
          {
          }
          SectionsSkeletonPointwise(after, before);
        }
      }
  }

  lemma SectionsSkeletonPointwise(after: seq<Section<Id>>, before: seq<Section<Id>>)
    requires |after| == |before|
    requires forall j :: 0 <= j < |before| ==>
      after[j].id == before[j].id && Map(SubsectionId, after[j].subsections) == Map(SubsectionId, before[j].subsections)
    ensures Map(SectionSkeleton, after) == Map(SectionSkeleton, before)
  {
  }

  /** Adding a chapter puts three empty nodes at the end of the outline the exporters walk. */
  lemma AddChapterOutline(s: State, c: Id, sec: Id, sub: Id)
    ensures Outline(Step(s, AddChapter(c, sec, sub)).chapters)
      == Outline(s.chapters) + [ChapterNode(""), SectionNode(""), SubsectionNode("", "")]
  {
    EmptyChapterOutline(s.chapters, c, sec, sub);
  }
}
