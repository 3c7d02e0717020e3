/**
 * The position-based editor (the add/remove/set helpers of src/9ThesisForm.jsx):
 * nodes carry no id and are named by their indices. A helper that writes
 * through an index with nothing there (`chapters[i].sections`, with `i` out of
 * range) throws a TypeError and leaves the form as it was; that outcome is
 * `None`. An out-of-range index of the removed element itself changes nothing;
 * an out-of-range chapter or section index on the path throws, modelled as `None`.
 */
module IndexEdit {
  import opened Options
  import opened Seqs
  import opened Thesis

  type Page = Form<()>

  predicate InRange<T>(s: seq<T>, i: int) {
    0 <= i < |s|
  }

  function NewChapter(): Chapter<()> { EmptyChapter((), (), ()) }
  function NewSection(): Section<()> { EmptySection((), ()) }
  function NewSubsection(): Subsection<()> { EmptySubsection(()) }

  /** `addChapter`: one new empty chapter at the end. */
  function AddChapter(f: Page): (r: Page)
    ensures r == f.(chapters := r.chapters)
    ensures |r.chapters| == |f.chapters| + 1
    ensures r.chapters[..|f.chapters|] == f.chapters
    ensures r.chapters[|f.chapters|] == NewChapter()
  {
    var chapters := f.chapters + [NewChapter()];
    assert chapters[..|f.chapters|] == f.chapters;
    f.(chapters := chapters)
  }

  /** `removeChapter`: the chapter at `idx` goes, the rest keep their order; no chapter there, no change. */
  function RemoveChapter(f: Page, idx: int): (r: Page)
    ensures r == f.(chapters := r.chapters)
    ensures InRange(f.chapters, idx) ==> r.chapters == f.chapters[..idx] + f.chapters[idx + 1..]
    ensures !InRange(f.chapters, idx) ==> r == f
  {
    f.(chapters := DropAt(f.chapters, idx))
  }

  /** `setChapterField` with the chapter title: only the chapter at `idx` changes. */
  function SetChapterTitle(f: Page, idx: int, value: string): (r: Option<Page>)
    ensures r.None? <==> !InRange(f.chapters, idx)
    ensures r.Some? ==>
      && r.value == f.(chapters := r.value.chapters)
      && |r.value.chapters| == |f.chapters|
      && (forall i :: 0 <= i < |f.chapters| && i != idx ==> r.value.chapters[i] == f.chapters[i])
      && r.value.chapters[idx] == f.chapters[idx].(title := value)
  {
    if InRange(f.chapters, idx) then Some(f.(chapters := f.chapters[idx := f.chapters[idx].(title := value)]))
    else None
  }

  /** `addSection`: one new empty section at the end of the chapter at `cidx`. */
  function AddSection(f: Page, cidx: int): (r: Option<Page>)
    ensures r.None? <==> !InRange(f.chapters, cidx)
    ensures r.Some? ==>
      && r.value == f.(chapters := r.value.chapters)
      && |r.value.chapters| == |f.chapters|
      && (forall i :: 0 <= i < |f.chapters| && i != cidx ==> r.value.chapters[i] == f.chapters[i])
      && r.value.chapters[cidx] == f.chapters[cidx].(sections := f.chapters[cidx].sections + [NewSection()])
  {
    if InRange(f.chapters, cidx) then
      var ch := f.chapters[cidx];
      Some(f.(chapters := f.chapters[cidx := ch.(sections := ch.sections + [NewSection()])]))
    else None
  }

  /** `removeSection`: in the chapter at `cidx`, the section at `sidx` goes, if there is one. */
  function RemoveSection(f: Page, cidx: int, sidx: int): (r: Option<Page>)
    ensures r.None? <==> !InRange(f.chapters, cidx)
    ensures r.Some? ==>
      && r.value == f.(chapters := r.value.chapters)
      && |r.value.chapters| == |f.chapters|
      && (forall i :: 0 <= i < |f.chapters| && i != cidx ==> r.value.chapters[i] == f.chapters[i])
      && r.value.chapters[cidx].title == f.chapters[cidx].title
      && var before, after := f.chapters[cidx].sections, r.value.chapters[cidx].sections;
         && (InRange(before, sidx) ==> after == before[..sidx] + before[sidx + 1..])
         && (!InRange(before, sidx) ==> after == before)
  {
    if InRange(f.chapters, cidx) then
      var ch := f.chapters[cidx];
      Some(f.(chapters := f.chapters[cidx := ch.(sections := DropAt(ch.sections, sidx))]))
    else None
  }

  /** Whether `chapters[cidx].sections[sidx]` exists. */
  predicate SectionExists(f: Page, cidx: int, sidx: int) {
    InRange(f.chapters, cidx) && InRange(f.chapters[cidx].sections, sidx)
  }

  /** Replaces the section at `sidx` of the chapter at `cidx`. */
  function WithSection(f: Page, cidx: int, sidx: int, sec: Section<()>): (r: Page)
    requires SectionExists(f, cidx, sidx)
    ensures r == f.(chapters := r.chapters)
    ensures |r.chapters| == |f.chapters|
    ensures forall i :: 0 <= i < |f.chapters| && i != cidx ==> r.chapters[i] == f.chapters[i]
    ensures r.chapters[cidx].title == f.chapters[cidx].title
    ensures |r.chapters[cidx].sections| == |f.chapters[cidx].sections|
    ensures forall j :: 0 <= j < |f.chapters[cidx].sections| && j != sidx ==>
      r.chapters[cidx].sections[j] == f.chapters[cidx].sections[j]
    ensures r.chapters[cidx].sections[sidx] == sec
  {
    var ch := f.chapters[cidx];
    f.(chapters := f.chapters[cidx := ch.(sections := ch.sections[sidx := sec])])
  }

  /** `setSectionField` with the section title: only the section at (`cidx`, `sidx`) changes. */
  function SetSectionTitle(f: Page, cidx: int, sidx: int, value: string): (r: Option<Page>)
    ensures r.None? <==> !SectionExists(f, cidx, sidx)
    ensures r.Some? ==> r.value == WithSection(f, cidx, sidx, f.chapters[cidx].sections[sidx].(title := value))
  {
    if SectionExists(f, cidx, sidx) then
      Some(WithSection(f, cidx, sidx, f.chapters[cidx].sections[sidx].(title := value)))
    else None
  }

  /** `addSubsection`: one new empty subsection at the end of the section at (`cidx`, `sidx`). */
  function AddSubsection(f: Page, cidx: int, sidx: int): (r: Option<Page>)
    ensures r.None? <==> !SectionExists(f, cidx, sidx)
    ensures r.Some? ==>
      var sec := f.chapters[cidx].sections[sidx];
      r.value == WithSection(f, cidx, sidx, sec.(subsections := sec.subsections + [NewSubsection()]))
  {
    if SectionExists(f, cidx, sidx) then
      var sec := f.chapters[cidx].sections[sidx];
      Some(WithSection(f, cidx, sidx, sec.(subsections := sec.subsections + [NewSubsection()])))
    else None
  }

  /** `removeSubsection`: in the section at (`cidx`, `sidx`), the subsection at `subidx` goes, if there is one. */
  function RemoveSubsection(f: Page, cidx: int, sidx: int, subidx: int): (r: Option<Page>)
    ensures r.None? <==> !SectionExists(f, cidx, sidx)
    ensures r.Some? ==>
      var sec := f.chapters[cidx].sections[sidx];
      && |r.value.chapters| == |f.chapters|
      && |r.value.chapters[cidx].sections| == |f.chapters[cidx].sections|
      && r.value == WithSection(f, cidx, sidx, r.value.chapters[cidx].sections[sidx])
      && r.value.chapters[cidx].sections[sidx].title == sec.title
      && var after := r.value.chapters[cidx].sections[sidx].subsections;
         && (InRange(sec.subsections, subidx) ==> after == sec.subsections[..subidx] + sec.subsections[subidx + 1..])
         && (!InRange(sec.subsections, subidx) ==> after == sec.subsections)
  {
    if SectionExists(f, cidx, sidx) then
      var sec := f.chapters[cidx].sections[sidx];
      Some(WithSection(f, cidx, sidx, sec.(subsections := DropAt(sec.subsections, subidx))))
    else None
  }

  /** Whether `chapters[cidx].sections[sidx].subsections[subidx]` exists. */
  predicate SubsectionExists(f: Page, cidx: int, sidx: int, subidx: int) {
    SectionExists(f, cidx, sidx) && InRange(f.chapters[cidx].sections[sidx].subsections, subidx)
  }

  /** `setSubsectionField`: only the one field of the subsection at the three indices changes. */
  function SetSubsectionField(f: Page, cidx: int, sidx: int, subidx: int, field: SubsectionField, value: string)
    : (r: Option<Page>)
    ensures r.None? <==> !SubsectionExists(f, cidx, sidx, subidx)
    ensures r.Some? ==>
      && |r.value.chapters| == |f.chapters|
      && |r.value.chapters[cidx].sections| == |f.chapters[cidx].sections|
    ensures r.Some? ==>
      var sec := f.chapters[cidx].sections[sidx];
      var after := r.value.chapters[cidx].sections[sidx];
      && r.value == WithSection(f, cidx, sidx, after)
      && after.title == sec.title
      && |after.subsections| == |sec.subsections|
      && (forall k :: 0 <= k < |sec.subsections| && k != subidx ==> after.subsections[k] == sec.subsections[k])
      && after.subsections[subidx] == SetSubsection(sec.subsections[subidx], field, value)
  {
    if SubsectionExists(f, cidx, sidx, subidx) then
      var sec := f.chapters[cidx].sections[sidx];
      var sub := SetSubsection(sec.subsections[subidx], field, value);
      Some(WithSection(f, cidx, sidx, sec.(subsections := sec.subsections[subidx := sub])))
    else None
  }

  /** Adding a chapter and then removing the last one gives back the form. */
  lemma AddThenRemoveChapter(f: Page)
    ensures RemoveChapter(AddChapter(f), |f.chapters|) == f
  {
    var g := AddChapter(f);
    assert g.chapters[..|f.chapters|] + g.chapters[|f.chapters| + 1..] == f.chapters;
  }

  /** Adding a section and then removing the last section of that chapter gives back the form. */
  lemma AddThenRemoveSection(f: Page, cidx: int)
    requires InRange(f.chapters, cidx)
    ensures var g := AddSection(f, cidx).value;
      RemoveSection(g, cidx, |f.chapters[cidx].sections|) == Some(f)
  {
    var g := AddSection(f, cidx).value;
    var before := f.chapters[cidx].sections;
    var grown := g.chapters[cidx].sections;
    assert grown[..|before|] + grown[|before| + 1..] == before;
    var r := RemoveSection(g, cidx, |before|).value;
    assert r.chapters == f.chapters;
  }

  /** Setting a subsection field twice keeps only the second value. */
  lemma SetSubsectionFieldTwice(f: Page, cidx: int, sidx: int, subidx: int, field: SubsectionField, v1: string, v2: string)
    requires SubsectionExists(f, cidx, sidx, subidx)
    ensures var g := SetSubsectionField(f, cidx, sidx, subidx, field, v1).value;
      SetSubsectionField(g, cidx, sidx, subidx, field, v2) == SetSubsectionField(f, cidx, sidx, subidx, field, v2)
  {
    var g := SetSubsectionField(f, cidx, sidx, subidx, field, v1).value;
    var a := SetSubsectionField(g, cidx, sidx, subidx, field, v2).value;
    var b := SetSubsectionField(f, cidx, sidx, subidx, field, v2).value;
    assert a.chapters[cidx].sections[sidx] == b.chapters[cidx].sections[sidx];
    assert a.chapters[cidx].sections == b.chapters[cidx].sections;
    assert a.chapters == b.chapters;
  }
}
