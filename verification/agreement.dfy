/**
 * The two editor pages do the same edits, one naming nodes by id and the
 * other by position. With the ids erased, an id-keyed action on the node at
 * some position gives the same form as the position-based helper, as long as
 * the ids at that level are distinct (which the id counter ensures).
 */
module Agreement {
  import opened Options
  import opened Seqs
  import opened Thesis
  import R = Reducer
  import I = IndexEdit

  function ForgetSubsection(sub: Subsection<R.Id>): Subsection<()> {
    Subsection((), sub.title, sub.content)
  }

  function ForgetSection(sec: Section<R.Id>): Section<()> {
    Section((), sec.title, Map(ForgetSubsection, sec.subsections))
  }

  function ForgetChapter(ch: Chapter<R.Id>): Chapter<()> {
    Chapter((), ch.title, Map(ForgetSection, ch.sections))
  }

  /** The form with every id erased. */
  function Forget(s: R.State): (r: I.Page)
    ensures forall field :: Get(r, field) == Get(s, field)
    ensures |r.chapters| == |s.chapters|
    ensures forall i :: 0 <= i < |s.chapters| ==> r.chapters[i].title == s.chapters[i].title
  {
    Form(s.title, s.author, s.advisor, s.university, s.year, s.department, s.abstractText, s.keywords,
      Map(ForgetChapter, s.chapters), s.bibliography)
  }

  /** The exporters walk the same outline whether or not ids are present. */
  lemma {:induction false} ForgetKeepsOutline(chapters: seq<Chapter<R.Id>>)
    ensures Outline(Map(ForgetChapter, chapters)) == Outline(chapters)
  {
    if |chapters| > 0 {
      ForgetKeepsOutline(chapters[1..]);
      assert Map(ForgetChapter, chapters)[1..] == Map(ForgetChapter, chapters[1..]);
      ForgetKeepsSectionsOutline(chapters[0].sections);
    }
  }

  lemma {:induction false} ForgetKeepsSectionsOutline(sections: seq<Section<R.Id>>)
    ensures SectionsOutline(Map(ForgetSection, sections)) == SectionsOutline(sections)
  {
    if |sections| > 0 {
      ForgetKeepsSectionsOutline(sections[1..]);
      assert Map(ForgetSection, sections)[1..] == Map(ForgetSection, sections[1..]);
    }
  }

  /** No two chapters share an id. */
  predicate DistinctChapterIds(s: R.State) {
    forall i, j :: 0 <= i < j < |s.chapters| ==> s.chapters[i].id != s.chapters[j].id
  }

  lemma MapDrop<A, B>(f: A -> B, s: seq<A>, i: int)
    requires 0 <= i < |s|
    ensures Map(f, s[..i] + s[i + 1..]) == Map(f, s)[..i] + Map(f, s)[i + 1..]
  {
  }

  lemma ForgetEmptySection(sec: R.Id, sub: R.Id)
    ensures ForgetSection(EmptySection(sec, sub)) == I.NewSection()
  {
    assert Map(ForgetSubsection, [EmptySubsection(sub)]) == [I.NewSubsection()];
  }

  lemma ForgetEmptyChapter(c: R.Id, sec: R.Id, sub: R.Id)
    ensures ForgetChapter(EmptyChapter(c, sec, sub)) == I.NewChapter()
  {
    ForgetEmptySection(sec, sub);
    assert Map(ForgetSection, [EmptySection(sec, sub)]) == [I.NewSection()];
  }

  /** `setField` does the same on both pages. */
  lemma SetFieldAgrees(s: R.State, field: FormField, value: string)
    ensures Forget(R.Step(s, R.SetField(field, value))) == SetField(Forget(s), field, value)
  {
  }

  /** `addChapter` does the same on both pages, whatever ids the new nodes get. */
  lemma AddChapterAgrees(s: R.State, c: R.Id, sec: R.Id, sub: R.Id)
    ensures Forget(R.Step(s, R.AddChapter(c, sec, sub))) == I.AddChapter(Forget(s))
  {
    var r := R.Step(s, R.AddChapter(c, sec, sub));
    ForgetEmptyChapter(c, sec, sub);
    MapAppend(ForgetChapter, s.chapters, [EmptyChapter(c, sec, sub)]);
  }

  /** Removing the chapter with a given id is removing the chapter at its position. */
  lemma RemoveChapterAgrees(s: R.State, i: int)
    requires DistinctChapterIds(s) && 0 <= i < |s.chapters|
    ensures Forget(R.Step(s, R.RemoveChapter(s.chapters[i].id))) == I.RemoveChapter(Forget(s), i)
  {
    R.RemoveUniqueId(s.chapters, R.ChapterId, i);
    MapDrop(ForgetChapter, s.chapters, i);
  }

  /** Retitling the chapter with a given id is retitling the chapter at its position. */
  lemma SetChapterTitleAgrees(s: R.State, i: int, value: string)
    requires DistinctChapterIds(s) && 0 <= i < |s.chapters|
    ensures I.SetChapterTitle(Forget(s), i, value) == Some(Forget(R.Step(s, R.SetChapterTitle(s.chapters[i].id, value))))
  {
    var r := R.Step(s, R.SetChapterTitle(s.chapters[i].id, value));
    var g := I.SetChapterTitle(Forget(s), i, value).value;
    assert g.chapters == Forget(r).chapters;
  }

  /** Adding a section to the chapter with a given id is adding one to the chapter at its position. */
  lemma AddSectionAgrees(s: R.State, i: int, sec: R.Id, sub: R.Id)
    requires DistinctChapterIds(s) && 0 <= i < |s.chapters|
    ensures I.AddSection(Forget(s), i) == Some(Forget(R.Step(s, R.AddSection(s.chapters[i].id, sec, sub))))
  {
    var r := R.Step(s, R.AddSection(s.chapters[i].id, sec, sub));
    var g := I.AddSection(Forget(s), i).value;
    ForgetEmptySection(sec, sub);
    MapAppend(ForgetSection, s.chapters[i].sections, [EmptySection(sec, sub)]);
    forall j | 0 <= j < |s.chapters|
      ensures g.chapters[j] == Forget(r).chapters[j]
    {
      if j != i {
        assert s.chapters[j].id != s.chapters[i].id;
      }
    }
    assert g.chapters == Forget(r).chapters;
  }

  /** No two sections of a chapter share an id. */
  predicate DistinctSectionIds(sections: seq<Section<R.Id>>) {
    forall a, b :: 0 <= a < b < |sections| ==> sections[a].id != sections[b].id
  }

  /** No two subsections of a section share an id. */
  predicate DistinctSubsectionIds(subsections: seq<Subsection<R.Id>>) {
    forall a, b :: 0 <= a < b < |subsections| ==> subsections[a].id != subsections[b].id
  }

  /**
   * An action that rewrites only the chapters with the id of chapter `i`, and
   * a position-based edit of chapter `i` alone, agree once chapter `i` agrees.
   */
  lemma ChaptersAgree(s: R.State, r: R.State, g: I.Page, i: int)
    requires DistinctChapterIds(s) && 0 <= i < |s.chapters|
    requires r == s.(chapters := r.chapters) && |r.chapters| == |s.chapters|
    requires forall j :: 0 <= j < |s.chapters| && s.chapters[j].id != s.chapters[i].id ==> r.chapters[j] == s.chapters[j]
    requires g == Forget(s).(chapters := g.chapters) && |g.chapters| == |s.chapters|
    requires forall j :: 0 <= j < |s.chapters| && j != i ==> g.chapters[j] == ForgetChapter(s.chapters[j])
    requires g.chapters[i] == ForgetChapter(r.chapters[i])
    ensures g == Forget(r)
  {
    forall j | 0 <= j < |s.chapters|
      ensures g.chapters[j] == Forget(r).chapters[j]
    {
      if j != i {
        assert s.chapters[j].id != s.chapters[i].id;
      }
    }
    assert g.chapters == Forget(r).chapters;
  }

  /** Retitling the section with given ids is retitling the section at its positions. */
  lemma SetSectionTitleAgrees(s: R.State, i: int, k: int, value: string)
    requires DistinctChapterIds(s) && 0 <= i < |s.chapters|
    requires DistinctSectionIds(s.chapters[i].sections) && 0 <= k < |s.chapters[i].sections|
    ensures I.SetSectionTitle(Forget(s), i, k, value)
      == Some(Forget(R.Step(s, R.SetSectionTitle(s.chapters[i].id, s.chapters[i].sections[k].id, value))))
  {
    var ch := s.chapters[i];
    var r := R.Step(s, R.SetSectionTitle(ch.id, ch.sections[k].id, value));
    var g := I.SetSectionTitle(Forget(s), i, k, value).value;
    var after := r.chapters[i].sections;
    forall m | 0 <= m < |ch.sections|
      ensures g.chapters[i].sections[m] == ForgetSection(after[m])
    {
      if m != k {
        assert ch.sections[m].id != ch.sections[k].id;
      }
    }
    assert g.chapters[i].sections == Map(ForgetSection, after);
    ChaptersAgree(s, r, g, i);
  }

  /** Adding a subsection under given ids is adding one under the section at its positions. */
  lemma AddSubsectionAgrees(s: R.State, i: int, k: int, sub: R.Id)
    requires DistinctChapterIds(s) && 0 <= i < |s.chapters|
    requires DistinctSectionIds(s.chapters[i].sections) && 0 <= k < |s.chapters[i].sections|
    ensures I.AddSubsection(Forget(s), i, k)
      == Some(Forget(R.Step(s, R.AddSubsection(s.chapters[i].id, s.chapters[i].sections[k].id, sub))))
  {
    var ch := s.chapters[i];
    var sec := ch.sections[k];
    var r := R.Step(s, R.AddSubsection(ch.id, sec.id, sub));
    var g := I.AddSubsection(Forget(s), i, k).value;
    var after := r.chapters[i].sections;
    MapAppend(ForgetSubsection, sec.subsections, [EmptySubsection(sub)]);
    assert Map(ForgetSubsection, [EmptySubsection(sub)]) == [I.NewSubsection()];
    forall m | 0 <= m < |ch.sections|
      ensures g.chapters[i].sections[m] == ForgetSection(after[m])
    {
      if m != k {
        assert ch.sections[m].id != sec.id;
      }
    }
    assert g.chapters[i].sections == Map(ForgetSection, after);
    ChaptersAgree(s, r, g, i);
  }

  /** Removing the section with given ids is removing the section at its positions. */
  lemma RemoveSectionAgrees(s: R.State, i: int, k: int)
    requires DistinctChapterIds(s) && 0 <= i < |s.chapters|
    requires DistinctSectionIds(s.chapters[i].sections) && 0 <= k < |s.chapters[i].sections|
    ensures I.RemoveSection(Forget(s), i, k)
      == Some(Forget(R.Step(s, R.RemoveSection(s.chapters[i].id, s.chapters[i].sections[k].id))))
  {
    var ch := s.chapters[i];
    var r := R.DoRemoveSection(s, ch.id, ch.sections[k].id);
    assert R.Step(s, R.RemoveSection(ch.id, ch.sections[k].id)) == r;
    assert r.chapters[i].sections == R.RemoveById(ch.sections, R.SectionId, ch.sections[k].id);
    var g := I.RemoveSection(Forget(s), i, k).value;
    assert g.chapters[i].sections == DropAt(Map(ForgetSection, ch.sections), k);
    SectionsDropAgree(ch.sections, k);
    ChaptersAgree(s, r, g, i);
  }

  /** Among sections with distinct ids, removing by the id at `k` is dropping position `k`, ids erased or not. */
  lemma SectionsDropAgree(sections: seq<Section<R.Id>>, k: int)
    requires DistinctSectionIds(sections) && 0 <= k < |sections|
    ensures Map(ForgetSection, R.RemoveById(sections, R.SectionId, sections[k].id)) == DropAt(Map(ForgetSection, sections), k)
  {
    R.RemoveUniqueId(sections, R.SectionId, k);
    MapDrop(ForgetSection, sections, k);
  }

  /** Removing the subsection with given ids is removing the subsection at its positions. */
  lemma RemoveSubsectionAgrees(s: R.State, i: int, k: int, n: int)
    requires DistinctChapterIds(s) && 0 <= i < |s.chapters|
    requires DistinctSectionIds(s.chapters[i].sections) && 0 <= k < |s.chapters[i].sections|
    requires DistinctSubsectionIds(s.chapters[i].sections[k].subsections)
    requires 0 <= n < |s.chapters[i].sections[k].subsections|
    ensures I.RemoveSubsection(Forget(s), i, k, n)
      == Some(Forget(R.Step(s, R.RemoveSubsection(s.chapters[i].id, s.chapters[i].sections[k].id,
        s.chapters[i].sections[k].subsections[n].id))))
  {
    var ch := s.chapters[i];
    var sec := ch.sections[k];
    var r := R.Step(s, R.RemoveSubsection(ch.id, sec.id, sec.subsections[n].id));
    var g := I.RemoveSubsection(Forget(s), i, k, n).value;
    PrunedByIds(s, i, k, n);
    DroppedAtPositions(s, i, k, n);
    PrunedSectionsAgree(ch.sections, k, n, g.chapters[i].sections);
    ChaptersAgree(s, r, g, i);
  }

  /** What removing a subsection by ids does to the state, seen from chapter `i`. */
  lemma PrunedByIds(s: R.State, i: int, k: int, n: int)
    requires 0 <= i < |s.chapters| && 0 <= k < |s.chapters[i].sections|
    requires 0 <= n < |s.chapters[i].sections[k].subsections|
    ensures var ch := s.chapters[i];
      var sec := ch.sections[k];
      var r := R.Step(s, R.RemoveSubsection(ch.id, sec.id, sec.subsections[n].id));
      && r == s.(chapters := r.chapters) && |r.chapters| == |s.chapters|
      && (forall j :: 0 <= j < |s.chapters| && s.chapters[j].id != ch.id ==> r.chapters[j] == s.chapters[j])
      && r.chapters[i] == Chapter(ch.id, ch.title, R.PruneSections(ch.sections, sec.id, sec.subsections[n].id))
  {
  }

  /** What removing a subsection at positions does to the page with ids erased. */
  lemma DroppedAtPositions(s: R.State, i: int, k: int, n: int)
    requires 0 <= i < |s.chapters| && 0 <= k < |s.chapters[i].sections|
    requires 0 <= n < |s.chapters[i].sections[k].subsections|
    ensures var ch := s.chapters[i];
      var sec := ch.sections[k];
      var subs := Map(ForgetSubsection, sec.subsections);
      var g := I.RemoveSubsection(Forget(s), i, k, n);
      && g.Some?
      && g.value == Forget(s).(chapters := g.value.chapters) && |g.value.chapters| == |s.chapters|
      && (forall j :: 0 <= j < |s.chapters| && j != i ==> g.value.chapters[j] == ForgetChapter(s.chapters[j]))
      && g.value.chapters[i] == Chapter((), ch.title, g.value.chapters[i].sections)
      && |g.value.chapters[i].sections| == |ch.sections|
      && (forall m :: 0 <= m < |ch.sections| && m != k ==> g.value.chapters[i].sections[m] == ForgetSection(ch.sections[m]))
      && g.value.chapters[i].sections[k] == Section((), sec.title, subs[..n] + subs[n + 1..])
  {
  }

  /**
   * Among sections and subsections with distinct ids, pruning by the ids at
   * `k` and `n` is dropping subsection `n` of section `k`, ids erased or not.
   */
  lemma PrunedSectionsAgree(sections: seq<Section<R.Id>>, k: int, n: int, gs: seq<Section<()>>)
    requires DistinctSectionIds(sections) && 0 <= k < |sections|
    requires DistinctSubsectionIds(sections[k].subsections) && 0 <= n < |sections[k].subsections|
    requires |gs| == |sections|
    requires forall m :: 0 <= m < |sections| && m != k ==> gs[m] == ForgetSection(sections[m])
    requires gs[k] == Section((), sections[k].title,
      Map(ForgetSubsection, sections[k].subsections)[..n] + Map(ForgetSubsection, sections[k].subsections)[n + 1..])
    ensures gs == Map(ForgetSection, R.PruneSections(sections, sections[k].id, sections[k].subsections[n].id))
  {
    var sec := sections[k];
    var after := R.PruneSections(sections, sec.id, sec.subsections[n].id);
    R.RemoveUniqueId(sec.subsections, R.SubsectionId, n);
    assert after[k].subsections == sec.subsections[..n] + sec.subsections[n + 1..];
    MapDrop(ForgetSubsection, sec.subsections, n);
    forall m | 0 <= m < |sections|
      ensures gs[m] == ForgetSection(after[m])
    {
      if m != k {
        assert sections[m].id != sec.id;
      } else {
        assert after[k].title == sec.title;
      }
    }
  }

  /** Setting a field of the subsection with given ids is setting it at its positions. */
  lemma SetSubsectionFieldAgrees(s: R.State, i: int, k: int, n: int, field: SubsectionField, value: string)
    requires DistinctChapterIds(s) && 0 <= i < |s.chapters|
    requires DistinctSectionIds(s.chapters[i].sections) && 0 <= k < |s.chapters[i].sections|
    requires DistinctSubsectionIds(s.chapters[i].sections[k].subsections)
    requires 0 <= n < |s.chapters[i].sections[k].subsections|
    ensures I.SetSubsectionField(Forget(s), i, k, n, field, value)
      == Some(Forget(R.Step(s, R.SetSubsectionField(s.chapters[i].id, s.chapters[i].sections[k].id,
        s.chapters[i].sections[k].subsections[n].id, field, value))))
  {
    var ch := s.chapters[i];
    var sec := ch.sections[k];
    var r := R.Step(s, R.SetSubsectionField(ch.id, sec.id, sec.subsections[n].id, field, value));
    var g := I.SetSubsectionField(Forget(s), i, k, n, field, value).value;
    var after := r.chapters[i].sections;
    forall q | 0 <= q < |sec.subsections|
      ensures g.chapters[i].sections[k].subsections[q] == ForgetSubsection(after[k].subsections[q])
    {
      if q != n {
        assert sec.subsections[q].id != sec.subsections[n].id;
      }
    }
    assert g.chapters[i].sections[k].subsections == Map(ForgetSubsection, after[k].subsections);
    forall m | 0 <= m < |ch.sections|
      ensures g.chapters[i].sections[m] == ForgetSection(after[m])
    {
      if m != k {
        assert ch.sections[m].id != sec.id;
      }
    }
    assert g.chapters[i].sections == Map(ForgetSection, after);
    ChaptersAgree(s, r, g, i);
  }
}
