# Thesis formatter: a Dafny model of its exporters and editors

The program is a one-page web editor for a thesis. It has two parts:

- **The form.** It holds the front matter: title, author, advisor, university, year, department, abstract and keywords. It also holds a three-level tree of chapters, sections and subsections, and a free-text bibliography.
- **Two exporters.**
  - A LaTeX exporter renders the form as text.
  - A word-processing exporter builds a list of document blocks: headings, paragraphs, tables and a table of contents. Subsection text that looks like a Markdown pipe table becomes a real table.

The repository holds two editor pages:

- `src/ThesisForm.jsx` names tree nodes by numeric id. It changes the form through a reducer.
- `src/9ThesisForm.jsx` names tree nodes by position. It changes the form through index-based helpers.

Each page has its own `renderLatex`. The two differ only in a few line breaks and in the bibliography line ending.

This project models the following, as pure functions over immutable data:

- the pipe-table detector and parser;
- the block list of the word-processing export;
- both LaTeX renderers;
- both families of editing operations.

It proves the properties each of these promises, and proves that the two editors agree.

Modules:

- `Options`: the optional value (`null` in the source).
- `Seqs`: `filter`, `map` and flattening on sequences, and the filter-by-index.
- `Text`: the JavaScript string primitives involved:
  - `trim`, over the full ECMAScript white-space and line-terminator set;
  - `split` on one character, with `Join` as its inverse;
  - `includes` and `startsWith`.
- `MarkdownTable`: `isMarkdownTable` and `parseMarkdownTable`.
  - The parser returns the rows of cell texts that the table is built from.
  - `TableRows` is an independent line-by-line reading of the parser, proved equal to its filter-map-filter pipeline.
- `TableExamples`: worked instances of the detector and parser. The cell texts are symbolic.
- `Thesis`: the form, the tree and its constructors, and the depth-first `Outline` of nodes. The outline is the reference that both exporters are proved to walk.
- `Latex`: `renderLatex` in both variants, `Concatenated` and `Templated`.
- `Docx`: the block list of `generateDocx`, up to the construction of the document.
- `Reducer`: the id-keyed `reducer` of `src/ThesisForm.jsx`.
- `IndexEdit`: the position-based helpers of `src/9ThesisForm.jsx`.
- `Agreement`: with the ids erased, each reducer action on the node at a position gives the same form as the position-based helper.

Behaviour worth knowing. The model follows the code in these places:

- **A single pipe line is not a table.** The line `| a |` has no `|---` marker, so the detector rejects it (`TableExamples.NoRuleIsNoTable`).
- **When the parser declines.** The parser counts non-empty lines before it discards lines that do not start with a pipe. So it declines exactly the texts whose trimmed form has no line break (`MarkdownTable.ParseMarkdownTable`).
  - A detected text that the parser declines is dropped from the document. There is no fallback to plain paragraphs (`Docx.ContentBlocks`).
  - A table row followed by a line of prose parses to a one-row table (`TableExamples.RowThenProse`).
- **The first and last field of every row are dropped** by `slice(1, -1)`, whether or not they are empty. A row whose last cell has no closing pipe loses that cell.
- **Bibliography lines of spaces.** The word-processing export drops only the empty string from the bibliography, so a line of spaces becomes a paragraph. The LaTeX export drops every line that is blank after trimming (`Docx.SpaceLineKeptOnlyHere`).
- **The `Templated` bibliography line ending.** This variant ends each bibliography line with a single backslash, where the other variant uses two. LaTeX reads a backslash followed by a line break as a control space, not a line break. The model keeps the single backslash.

## Model

| member | source | states |
|---|---|---|
| Text.Trim | src/utils/docx.js:4 | trimming leaves a string that neither starts nor ends with white space, and that is empty exactly when the input is all white space |
| Text.TrimSlice | src/utils/docx.js:4 | the trimmed text is the slice of the input from its first non-space character, followed only by white space |
| Text.TrimIdempotent | src/utils/docx.js:4 | trimming an already trimmed line changes nothing |
| Text.TrimKeeps | src/utils/docx.js:11 | trimming never introduces a character, so a trimmed field holds no pipe |
| Text.Split | src/utils/docx.js:8 | splitting on one character gives one more piece than there are separators, no piece holds the separator, and joining the pieces with the separator gives back the text |
| Text.SplitJoin | src/utils/docx.js:53 | splitting the join of separator-free pieces gives back exactly those pieces |
| Text.ContainsIff | src/utils/docx.js:4 | the substring test holds iff the marker occurs at some position of the text |
| MarkdownTable.IsMarkdownTable | src/utils/docx.js:3-5 | definition of the detector: the first line of the trimmed text, itself trimmed, starts with a pipe and the text contains the separator marker; its first-character reading is in `MarkdownTable.DetectorFirstChar` |
| MarkdownTable.DetectorFirstChar | src/utils/docx.js:3-5 | the detector accepts exactly the texts whose first non-space character is a pipe and which contain the separator marker, a pipe followed by three dashes, somewhere |
| MarkdownTable.Inner | src/utils/docx.js:11 | `slice(1, -1)` keeps all fields but the first and the last, in order, and nothing when there are fewer than two |
| MarkdownTable.Cells | src/utils/docx.js:11 | cell i is the trimmed field i + 1 of the line split on pipes; a line with n >= 1 pipes has n - 1 cells, and no cell holds a pipe or starts or ends with white space |
| MarkdownTable.SeparatorRowEdges | src/utils/docx.js:12 | the row with no cells counts as a separator row and is dropped, while a row holding an empty cell is kept |
| MarkdownTable.ParseMarkdownTable | src/utils/docx.js:7-12 | the parser declines iff the trimmed text has no line break; otherwise no resulting row is a separator row and every cell is free of pipes and surrounding white space |
| MarkdownTable.TwoLinesIffNewline | src/utils/docx.js:8-9 | the trimmed text has at least two non-empty lines iff it holds a line break |
| MarkdownTable.PipelineIsTableRows | src/utils/docx.js:10-12 | the filter-map-filter pipeline equals the line-by-line reading: per line, its cells if it starts with a pipe and is no separator row, in line order |
| MarkdownTable.ParseIsTableRows | src/utils/docx.js:7-12 | a text with a line break parses to the line-by-line reading of its trimmed lines |
| TableExamples.BlankIsNoTable | src/utils/docx.js:3-5 | blank content is never a table |
| TableExamples.ProseIsNoTable | src/utils/docx.js:3-5 | content whose first visible character is not a pipe is never a table |
| TableExamples.NoRuleIsNoTable | src/utils/docx.js:4 | text without a dash, such as a lone pipe line with one cell, is never a table |
| TableExamples.OneLineParsesToNothing | src/utils/docx.js:8-9 | text without a line break never parses |
| TableExamples.PaddedRowKept | src/utils/docx.js:10-12 | a line of two padded cells x and y, whose first cell is no rule cell, contributes the row `[x, y]` |
| TableExamples.RuleRowDropped | src/utils/docx.js:12 | a rule line whose cells are all dashes and colons contributes no row |
| TableExamples.TwoByTwo | src/utils/docx.js:7-12 | a header line, a rule line and a body line parse to exactly the header row and the body row |
| TableExamples.DashedTwoByTwo | src/utils/docx.js:7-12 | a header line of cells a and b, the rule line of two triple-dash cells and a body line of cells c and d parse to `[[a, b], [c, d]]` |
| TableExamples.RowThenProse | src/utils/docx.js:8-12 | a table row followed by a line of prose parses to a one-row table, because lines are counted before the pipe filter |
| Thesis.SetField | src/ThesisForm.jsx:33-34 | `setField` gives the named field the value and leaves every other field and the tree unchanged |
| Thesis.SetSubsection | src/ThesisForm.jsx:126-130 | setting a subsection field changes that field only and keeps the id |
| Thesis.EmptySubsection | src/ThesisForm.jsx:14 | a new subsection has the given id and empty title and content |
| Thesis.EmptySection | src/ThesisForm.jsx:15 | a new section has an empty title and exactly one new subsection |
| Thesis.EmptyChapter | src/ThesisForm.jsx:16 | a new chapter has an empty title and exactly one new section |
| Thesis.InitialForm | src/ThesisForm.jsx:18-29 | the opening form has every text empty but the university, which is the default one, and exactly one new chapter |
| Thesis.EmptyChapterOutline | src/9ThesisForm.jsx:10-27 | a new chapter adds one chapter, one section and one subsection node, all empty, at the end of the outline |
| Latex.ChaptersTex | src/ThesisForm.jsx:162-171 | definition of the chapter loop, with the extra line break before a chapter heading in the second variant (src/9ThesisForm.jsx:130-139); that it walks the outline is in `Latex.BodyIsOutline` |
| Latex.SectionsTex | src/ThesisForm.jsx:164-170 | definition of the section loop; property in `Latex.SectionsTexVariant` and `Latex.BodyIsOutline` |
| Latex.SubsectionsTex | src/ThesisForm.jsx:166-169 | definition of the subsection loop; property in `Latex.BodyIsOutline` |
| Latex.BodyIsOutline | src/ThesisForm.jsx:162-171 | the nested loops emit, node by node in depth-first order, a heading for each titled node and the text of each non-empty subsection, children of untitled nodes included |
| Latex.SectionsTexVariant | src/9ThesisForm.jsx:130-139 | below the chapter level the two variants emit the same text |
| Latex.EmptyTreeEmptyBody | src/ThesisForm.jsx:162-171 | a tree with all titles and texts empty renders to an empty body |
| Latex.BibEntries | src/ThesisForm.jsx:173-175 | the surviving bibliography lines are exactly the lines with a non-space character: each copy of each such line, in their original order, and no other line |
| Latex.BibLine | src/9ThesisForm.jsx:141-143 | definition of one bibliography line: the `\noindent` command, the line, then two backslashes (src/ThesisForm.jsx:174) or one in the second variant; property in `Latex.TwoEntries` |
| Latex.BibTex | src/ThesisForm.jsx:173-175 | definition of the bibliography loop: one line per entry of `Latex.BibEntries`, in order; property in `Latex.TwoEntries` and `Latex.EmptyDocument` |
| Latex.TwoEntries | src/ThesisForm.jsx:173-175 | two entries separated by an empty line give exactly two bibliography lines |
| Latex.Render | src/ThesisForm.jsx:146-178 | the document starts with the document-class line and ends with the closing commands |
| Latex.EmptyDocument | src/ThesisForm.jsx:146-178 | the opening form renders to the preamble, the bibliography heading and the closing commands, with no heading and no bibliography line |
| Docx.FrontMatter | src/utils/docx.js:22-41 | the eleven fixed blocks begin with the title and end with the contents heading and the table of contents, with the abstract heading and text at positions 6 and 7 |
| Docx.ContentBlocks | src/utils/docx.js:48-54 | empty text gives nothing; text that is not a table gives one paragraph per line, empty lines included, which join back into the text; a detected table gives the parsed table, or nothing when the parser declines |
| Docx.TableBlocks | src/utils/docx.js:49-51 | a detected text gives no block iff the parser declines, and otherwise exactly one table of the parsed rows |
| Docx.LineParagraphs | src/utils/docx.js:53 | one paragraph per line, each without a line break, whose texts joined by line breaks are the content |
| Docx.ParagraphsRoundTrip | src/utils/docx.js:53 | reading the texts back from the paragraphs gives the lines |
| Docx.ChaptersBlocks | src/utils/docx.js:42-58 | definition of the chapter loop; that it walks the outline is in `Docx.BlocksAreOutline` |
| Docx.SectionsBlocks | src/utils/docx.js:44-57 | definition of the section loop; property in `Docx.BlocksAreOutline` |
| Docx.SubsectionsBlocks | src/utils/docx.js:46-56 | definition of the subsection loop; property in `Docx.BlocksAreOutline` |
| Docx.BlocksAreOutline | src/utils/docx.js:42-58 | the nested loops emit exactly the node-by-node blocks of the depth-first outline |
| Docx.NodeHeadings | src/utils/docx.js:43-47 | a node yields a heading at a level iff it sits at that depth and its title is non-empty |
| Docx.HeadingsAreTitles | src/utils/docx.js:42-58 | the headings at each level are exactly the non-empty titles at that depth, in depth-first order |
| Docx.BibBlocks | src/utils/docx.js:60 | the bibliography paragraphs are exactly the non-empty lines: each copy of each such line, in their original order, and no other line |
| Docx.Generate | src/utils/docx.js:20-61 | the list is the eleven front-matter blocks, the chapter blocks, the bibliography heading right after them, then the bibliography paragraphs |
| Docx.DocumentHeadings | src/utils/docx.js:35-60 | the level-1 headings are the abstract and contents headings, the non-empty chapter titles in order, then the bibliography heading; levels 2 and 3 hold exactly the section and subsection titles |
| Docx.SpaceLineKeptOnlyHere | src/utils/docx.js:60 | a line of spaces in the bibliography becomes a paragraph here but is dropped from the LaTeX text |
| Docx.BlankLineAsymmetry | src/utils/docx.js:48-60 | an empty line is dropped from the bibliography by both exports but kept as an empty paragraph in subsection text |
| Docx.EmptyDocument | src/utils/docx.js:20-61 | the opening form gives the front matter and the bibliography heading only |
| Seqs.FilterIsSubsequence | src/ThesisForm.jsx:38 | filtering keeps the survivors in their original relative order |
| Seqs.DropAt | src/9ThesisForm.jsx:67 | filtering out one index removes exactly that element if it exists, and otherwise changes nothing |
| Reducer.RemoveById | src/ThesisForm.jsx:38 | removing by id leaves no element with the id and keeps every copy of every other element, in order; it is the identity when the id is absent |
| Reducer.RemoveUniqueId | src/ThesisForm.jsx:38 | with distinct ids, removing the id found at a position removes exactly that position |
| Reducer.UpdateById | src/ThesisForm.jsx:42-44 | updating by id rewrites exactly the elements with the id, in place |
| Reducer.DoAddChapter | src/ThesisForm.jsx:35-36 | one new empty chapter is appended and nothing else changes |
| Reducer.DoRemoveChapter | src/ThesisForm.jsx:37-38 | every chapter with the id goes, every copy of every other chapter stays, in order, nothing else changes, and an absent id changes nothing |
| Reducer.DoSetChapterTitle | src/ThesisForm.jsx:39-45 | only the titles of chapters with the id change; ids and sections are kept |
| Reducer.DoAddSection | src/ThesisForm.jsx:46-54 | one new empty section is appended to each chapter with the id; all other chapters are unchanged |
| Reducer.DoRemoveSection | src/ThesisForm.jsx:55-63 | in the chapter with the id, every section with the section id goes and every copy of every other section stays, in order; other chapters are unchanged, and an absent section id changes nothing |
| Reducer.RemoveAbsentSection | src/ThesisForm.jsx:55-63 | removing a section id that no chapter with the chapter id holds gives back the same form |
| Reducer.DoSetSectionTitle | src/ThesisForm.jsx:64-77 | only sections on the id path are retitled; all lengths and ids are kept |
| Reducer.DoAddSubsection | src/ThesisForm.jsx:78-93 | one new empty subsection is appended to each section on the id path; nothing else changes |
| Reducer.DoRemoveSubsection | src/ThesisForm.jsx:94-114 | in the section on the id path, every subsection with the id goes and every copy of every other subsection stays, in order; nothing else changes, and an absent subsection id changes nothing |
| Reducer.RemoveAbsentSubsection | src/ThesisForm.jsx:94-114 | removing a subsection id that no section on the id path holds gives back the same form |
| Reducer.DoSetSubsectionField | src/ThesisForm.jsx:115-137 | only the one field of the subsections on the id path changes; all lengths and ids are kept |
| Reducer.Step | src/ThesisForm.jsx:31-141 | an action of another type leaves the state unchanged; only `setField` touches the front matter, and it leaves the tree alone |
| Reducer.EditKeepsSkeleton | src/ThesisForm.jsx:39-137 | the set-field actions never change the shape of the tree or any id in it |
| Reducer.AddChapterOutline | src/ThesisForm.jsx:35-36 | adding a chapter appends three empty nodes to the outline the exporters walk |
| IndexEdit.AddChapter | src/9ThesisForm.jsx:63-65 | one new empty chapter is appended and nothing else changes |
| IndexEdit.RemoveChapter | src/9ThesisForm.jsx:66-68 | the chapter at the index goes and the rest keep their order; an index with no chapter changes nothing |
| IndexEdit.SetChapterTitle | src/9ThesisForm.jsx:69-73 | only the chapter at the index is retitled; no chapter there is an error |
| IndexEdit.AddSection | src/9ThesisForm.jsx:74-78 | one new empty section is appended to the chapter at the index; no chapter there is an error |
| IndexEdit.RemoveSection | src/9ThesisForm.jsx:79-83 | the section at the index goes from the chapter at the index, if there is one; no chapter there is an error |
| IndexEdit.SetSectionTitle | src/9ThesisForm.jsx:84-88 | only the section at the two indices is retitled; no section there is an error |
| IndexEdit.AddSubsection | src/9ThesisForm.jsx:89-93 | one new empty subsection is appended to the section at the two indices; no section there is an error |
| IndexEdit.RemoveSubsection | src/9ThesisForm.jsx:94-98 | the subsection at the index goes from the section at the two indices, if there is one; no section there is an error |
| IndexEdit.SetSubsectionField | src/9ThesisForm.jsx:99-103 | only the one field of the subsection at the three indices changes; no subsection there is an error |
| IndexEdit.AddThenRemoveChapter | src/9ThesisForm.jsx:63-68 | adding a chapter and then removing the last one gives back the form |
| IndexEdit.AddThenRemoveSection | src/9ThesisForm.jsx:74-83 | adding a section and then removing that chapter's last section gives back the form |
| IndexEdit.SetSubsectionFieldTwice | src/9ThesisForm.jsx:99-103 | setting a subsection field twice keeps only the second value |
| Agreement.ForgetKeepsOutline | src/9ThesisForm.jsx:130-139 | erasing ids does not change the outline the exporters walk |
| Agreement.SetFieldAgrees | src/ThesisForm.jsx:33-34 | `setField` does the same on both pages |
| Agreement.AddChapterAgrees | src/9ThesisForm.jsx:63-65 | the reducer's `addChapter` matches the position-based helper, whatever ids the new nodes get |
| Agreement.RemoveChapterAgrees | src/9ThesisForm.jsx:66-68 | with distinct chapter ids, removing by the id at a position is removing at that position |
| Agreement.SetChapterTitleAgrees | src/9ThesisForm.jsx:69-73 | with distinct chapter ids, retitling by id is retitling at the position |
| Agreement.AddSectionAgrees | src/9ThesisForm.jsx:74-78 | with distinct chapter ids, adding a section by id is adding one at the position |
| Agreement.RemoveSectionAgrees | src/9ThesisForm.jsx:79-83 | with distinct ids, removing a section by ids is removing it at its positions |
| Agreement.SetSectionTitleAgrees | src/9ThesisForm.jsx:84-88 | with distinct ids, retitling a section by ids is retitling it at its positions |
| Agreement.AddSubsectionAgrees | src/9ThesisForm.jsx:89-93 | with distinct ids, adding a subsection by ids is adding one at the positions |
| Agreement.RemoveSubsectionAgrees | src/9ThesisForm.jsx:94-98 | with distinct ids, removing a subsection by ids is removing it at its positions |
| Agreement.SetSubsectionFieldAgrees | src/9ThesisForm.jsx:99-103 | with distinct ids, setting a subsection field by ids is setting it at its positions |

## Left out

- JSX rendering, the UI components and the chapter, section and subsection editors: markup and callback wiring only.
- The download step of `generateDocx` (src/utils/docx.js:61-68): packing into a blob, the object URL, the link click and the delayed revoke are browser I/O.
- The internals of the `docx` library. Paragraphs, tables, table rows and cells and the table of contents are abstract blocks. A table is given by its rows of cell texts.
- Run styling (sizes, bold, spacing, alignment): it does not change which blocks are emitted.
- The global id counter (src/ThesisForm.jsx:11-12). The ids it would hand out are parameters of the add actions. The agreement lemmas take distinct ids as a hypothesis, because the counter only ever produces fresh ones.
- The React hooks and the asynchrony of `setForm`. The position-based helpers mutate nested objects in place and read the `form` of the last render. They are modelled as pure updates of the form they are applied to.
- Field keys other than the ones the editors pass. Chapters and sections only get their `title` set; subsections only get `title` or `content`.
- `Docx.FrontMatter`: `form.abstract || ""` is modelled as the abstract itself. The two differ only for a missing abstract, and the form always holds a string.
- An out-of-range index in the position-based helpers throws a TypeError in the source. Here it is the error value `None`. An out-of-range index of the removed element itself changes nothing; an out-of-range chapter or section index on the path throws, modelled as `None`.
- `Text.Trim`: strings are sequences of code points. JavaScript works on UTF-16 code units. Every character the exporters test, the white space of `trim` (U+00A0, U+FEFF, U+2028, U+2029, U+3000 and the rest) included, is a single code unit of the Basic Multilingual Plane, so the difference does not show.
- The detector, parser and block builder duplicated in src/9ThesisForm.jsx:29-45 and 148-209 are the same code as src/utils/docx.js. One model covers both copies.
