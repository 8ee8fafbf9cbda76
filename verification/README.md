# CV builder core in Dafny

A model of the logic at the heart of the CV builder, a single-page résumé
editor. A résumé is a list of sections:

- each section has an id, a kind (the source's `type`), a title, a Markdown
  body, a numeric `order`, a `required` flag and an optional `placement`;
- Markdown text is split into sections at `# ` and `## ` headings, and a
  section list is written back as Markdown;
- the section editor drags, edits, deletes and adds sections;
- the application state holds the sections, the contact details, the chosen
  template and the look-and-feel settings, changed by one handler each;
- every multi-column template sorts the sections by `order` and deals them
  into regions; six of them go first by placement or kind, then by
  substring tests on the kind for what no region claimed, while
  HybridHeaderDual and GoogleSRETwoColumn go by fixed kind lists alone and
  do not show a section of any other kind;
- the export panel derives the download file names from the person's name;
- the Creative template draws a monogram from the name and lists all
  sections in its main column.

Modules, one per file:

| module | file | what it holds |
|---|---|---|
| `Seqs` | seqs.dfy | generic sequence identities, `splice`-style remove, insert and move |
| `Wrappers` | wrappers.dfy | `Option` for optional fields |
| `Text` | text.dfy | the JavaScript string operations the code uses: `\s`, `trim`, `toLowerCase`, `split`, `join`, `includes`, `replace(/\s+/g, c)`, decimal rendering |
| `Sections` | sections.dfy | the section record, ids, `filter`, the stable sort by `order` |
| `MarkdownParser` | markdown_parser.dfy | `extractSectionsFromMarkdown` (a loop, and its declarative reading as heading groups) and `sectionsToMarkdown` |
| `MarkdownRoundTrip` | markdown_roundtrip.dfy | extract after serialize, and where that fails |
| `SectionEditor` | section_editor.dfy | drag, field update, delete, add, the delete button guard |
| `AppState` | app_state.dfy | default sections, initial state, upload and the four change handlers |
| `Layout` | layout.dfy | the region assignment every multi-column template shares, as data |
| `Templates` | templates.dfy | the eight multi-column templates as instances of `Layout` |
| `ExportNames` | export_names.dfy | the PDF, HTML and Word file names |
| `CreativeTemplate` | creative_template.dfy | the avatar initials and the main column |

How the templates are modelled:

- A template is a list of rules, one per region. Each rule has the
  placements and the kinds that region claims.
- The template also says whether it reads `placement` at all. It has a list
  of (substring, region) steers and a last-resort region for sections that
  no rule claims.
- `Layout.Arrange` computes every region the way the source does: the
  region's own matches in `order`, then the unclaimed sections that the
  steers send there, also in `order`.
- The source's `includes(section)` tests object identity. Here it is the
  claim predicate, which gives the same answer on equal values.

One premise of the Markdown round trip is that no content line opens a
heading. The extractor does not always meet it: it trims the body, which
can bring an indented `# ` to the front. `MarkdownRoundTrip.IndentedHeading`
proves this, with a concrete instance in `IndentedHeadingExample`.

## Model

| member | source | states |
|---|---|---|
| Text.Trim | src/utils/markdownParser.ts:19 | the result is the input's text between an all-whitespace leading margin and an all-whitespace trailing margin, and has no whitespace at either end |
| Text.TrimMargins | src/utils/markdownParser.ts:19 | whitespace wrapped around whitespace-free-ended text is exactly what `trim` removes, whatever the margins |
| Text.Lower | src/utils/markdownParser.ts:24 | no upper-case ASCII letter remains, whitespace stays exactly where it was, and every result character is already lower-case, so lower-casing is idempotent |
| Text.LowerProperties | src/utils/markdownParser.ts:24 | lower-casing a lower-cased string gives the same string |
| Text.Split | src/utils/markdownParser.ts:9 | at least one piece, and no piece contains the separator |
| Text.SplitThenJoin | src/utils/markdownParser.ts:9 | joining the pieces of a split with the separator gives back the text |
| Text.JoinThenSplit | src/utils/markdownParser.ts:9 | splitting a join of separator-free pieces gives back the pieces |
| Text.SplitLength | src/components/templates/CreativeTemplate.tsx:33 | a split has one more piece than the text has separators |
| Text.ReplaceSpaceRuns | src/utils/markdownParser.ts:24 | no longer than the input, non-empty for non-empty input, whitespace-free when the replacement is, identity on whitespace-free text |
| Text.RunBecomesOne | src/components/ExportPanel.tsx:13 | a non-empty all-whitespace text becomes exactly one replacement character |
| Text.ReplaceRunsConcat | src/utils/markdownParser.ts:24 | the replacement distributes over a concatenation whose seam is not inside a whitespace run |
| Text.TrailingRunBecomesRep | src/utils/markdownParser.ts:24 | a text ending in whitespace ends in the replacement character afterwards |
| Text.ContainsIffOccurs | src/components/templates/GoogleStandardTwoColumnTemplate.tsx:39 | `includes` holds exactly when the needle occurs at some index |
| Text.NatToStringInjective | src/utils/markdownParser.ts:23 | different numbers render as different decimal strings |
| Sections.SectionIdInjective | src/utils/markdownParser.ts:23 | equal ids `section-<ts>-<order>` come from equal timestamp and order |
| Sections.Filter | src/components/templates/GoogleStandardTwoColumnTemplate.tsx:20-30 | keeps only elements that pass, all taken from the input and no more of them; a sorted input gives a sorted result |
| Sections.FilterConcat | src/components/templates/GoogleStandardTwoColumnTemplate.tsx:20-30 | filtering distributes over concatenation, so the survivors keep their input sequence, ties in `order` included |
| Sections.FilterCount | src/components/templates/GoogleStandardTwoColumnTemplate.tsx:20-30 | each element occurs as often as in the input if it passes, else not at all |
| Sections.SortByOrder | src/utils/markdownParser.ts:66 | a permutation of the input (same multiset) in ascending `order` |
| Sections.SortIsStable | src/utils/markdownParser.ts:66 | sections with equal `order` keep their relative sequence |
| Sections.SortOfSorted | src/utils/markdownParser.ts:66 | an already sorted list is returned unchanged |
| Sections.SortOfDense | src/components/templates/GoogleStandardTwoColumnTemplate.tsx:17 | a list with orders 0..N-1 in place is returned unchanged |
| MarkdownParser.HeadingTitleIsStartsWith | src/utils/markdownParser.ts:15-42 | a line is a heading by `startsWith('# ')` first, then `startsWith('## ')`, and the title is the rest after the marker |
| MarkdownParser.HeadingMarkers | src/utils/markdownParser.ts:15-51 | `# t` and `## t` open a section titled `t` (untrimmed); `### t`, an indented marker and the empty line do not |
| MarkdownParser.HashWithoutSpace | src/utils/markdownParser.ts:15-51 | `#` followed by a non-space, non-`#` character is body text |
| MarkdownParser.Slug | src/utils/markdownParser.ts:24-41 | the kind contains no whitespace and is no longer than the title |
| MarkdownParser.SlugOfWord | src/utils/markdownParser.ts:24-41 | a title without whitespace gives its lower-cased self as kind |
| MarkdownParser.SlugTrailingDash | src/utils/markdownParser.ts:24-42 | a title ending in whitespace (a blank or a `\r`) gives a kind ending in `-` |
| MarkdownParser.AssembleFacts | src/utils/markdownParser.ts:12-59 | orders 0..N-1, distinct ids, id from clock reading and order, title from the heading, kind = slug, `required` iff the kind is contact, experience or education, content = trimmed join of the body, no placement |
| MarkdownParser.ExtractSections | src/utils/markdownParser.ts:7-62 | the extraction's sections have dense orders, distinct ids, slug kinds, the `required` rule and trimmed content |
| MarkdownParser.Extract | src/utils/markdownParser.ts:7-62 | the line-by-line loop of the source computes exactly the declarative extraction |
| MarkdownParser.ExtractFollowsHeadings | src/utils/markdownParser.ts:14-52 | one section per heading line, in sequence, with that heading's title and the trimmed join of the heading-free lines up to the next heading; none exactly when no line is a heading |
| MarkdownParser.NoSectionsIffNoHeading | src/utils/markdownParser.ts:8-61 | the extraction is empty exactly when no line opens a section |
| MarkdownParser.ExtractIgnoresPreamble | src/utils/markdownParser.ts:31-51 | heading-free lines before the first heading change nothing |
| MarkdownParser.HeadingThenHeading | src/utils/markdownParser.ts:16-38 | a first heading directly followed by another heading yields a section with empty content |
| MarkdownParser.SectionsToMarkdown | src/utils/markdownParser.ts:64-69 | the empty list gives `""`; otherwise the text opens with `## ` |
| MarkdownRoundTrip.ExtractEmpty | src/utils/markdownParser.ts:8-61 | `""` yields no section |
| MarkdownRoundTrip.RoundTrip | src/utils/markdownParser.ts:7-69 | for titles without newline and trimmed, heading-free contents: extracting the serialization gives the sections in sorted sequence with the same titles and contents, orders 0..N-1 and slug kinds |
| MarkdownRoundTrip.RoundTripDense | src/utils/markdownParser.ts:7-69 | a list with orders 0..N-1 comes back position by position |
| MarkdownRoundTrip.SerializeIsStable | src/utils/markdownParser.ts:64-69 | serializing what was extracted from a serialization reproduces the text exactly |
| MarkdownRoundTrip.IndentedHeading | src/utils/markdownParser.ts:15-51 | an indented heading line is body text, but after trimming the section's content is that heading |
| MarkdownRoundTrip.ReserializedSplits | src/utils/markdownParser.ts:64-69 | such a section, serialized and extracted again, comes back as two sections |
| MarkdownRoundTrip.IndentedHeadingExample | src/utils/markdownParser.ts:7-62 | `## A` followed by `  # B` gives one section titled `A` whose content is `# B` |
| SectionEditor.Renumber | src/components/SectionEditor.tsx:23-26 | same length, orders become 0..N-1, every other field unchanged |
| SectionEditor.DenseShapeUnique | src/components/SectionEditor.tsx:23-26 | two lists with orders 0..N-1 that agree on everything but `order` are equal |
| SectionEditor.RenumberOfDense | src/components/SectionEditor.tsx:23-26 | renumbering a list already numbered 0..N-1 changes nothing |
| SectionEditor.Reorder | src/components/SectionEditor.tsx:15-29 | no destination: unchanged; otherwise same length, orders 0..N-1, the dragged section sits at the destination and the others keep their sequence |
| SectionEditor.ReorderShape | src/components/SectionEditor.tsx:18-26 | apart from `order`, a drag is the splice-out/splice-in move |
| SectionEditor.ReorderPermutes | src/components/SectionEditor.tsx:18-20 | apart from `order`, a drag is a permutation |
| SectionEditor.ReorderUndo | src/components/SectionEditor.tsx:15-29 | dragging back from destination to source restores the renumbered list |
| SectionEditor.ReorderInPlace | src/components/SectionEditor.tsx:15-29 | a drop at the source index only renumbers |
| SectionEditor.SetField | src/components/SectionEditor.tsx:33 | the written field holds the new value |
| SectionEditor.UpdateSection | src/components/SectionEditor.tsx:31-36 | same length; matching sections get the value in that field only; all other sections unchanged |
| SectionEditor.UpdateKeepsInvariants | src/components/SectionEditor.tsx:31-36 | dense orders, distinct ids and sortedness survive an edit |
| SectionEditor.UpdateLastWins | src/components/SectionEditor.tsx:31-36 | two writes to one field leave the second value |
| SectionEditor.UpdatesCommute | src/components/SectionEditor.tsx:31-36 | writes to different fields or ids commute |
| SectionEditor.UpdateSameValue | src/components/SectionEditor.tsx:31-36 | writing a field's current value changes nothing |
| SectionEditor.DeleteSection | src/components/SectionEditor.tsx:38-41 | no survivor carries the id, and every survivor comes from the input |
| SectionEditor.DeleteCounts | src/components/SectionEditor.tsx:38-41 | sections with the id vanish; every other section keeps its multiplicity |
| SectionEditor.DeleteConcat | src/components/SectionEditor.tsx:38-41 | deletion works piecewise, so the survivors keep their sequence |
| SectionEditor.DeleteAbsent | src/components/SectionEditor.tsx:38-41 | deleting an absent id changes nothing |
| SectionEditor.DeleteIdempotent | src/components/SectionEditor.tsx:38-41 | deleting twice equals deleting once |
| SectionEditor.DeleteFirst | src/components/SectionEditor.tsx:38-41 | with distinct ids, deleting the first section's id drops exactly it |
| SectionEditor.DeleteButton | src/components/SectionEditor.tsx:106-113 | the delete control acts exactly when the section is not required |
| SectionEditor.RequiredSurvive | src/components/SectionEditor.tsx:106-113 | with distinct ids, no delete through the control removes a required section |
| SectionEditor.AddSection | src/components/SectionEditor.tsx:43-53 | the old list is an unchanged prefix; one section of kind `custom`, empty content, not required, no placement, titled `New Section`, with id `section-<now>` and order = old length is appended |
| SectionEditor.AddKeepsDense | src/components/SectionEditor.tsx:43-53 | adding to a list numbered 0..N-1 keeps it so |
| SectionEditor.DeleteThenAddRepeatsOrder | src/components/SectionEditor.tsx:38-53 | after deleting the first of a dense list and adding, the last two sections share an order |
| SectionEditor.DeleteThenAddMisorders | src/components/SectionEditor.tsx:38-53 | deleting the first two of four and adding one lists the new section last in the editor but before the last survivor in `order` |
| SectionEditor.DeleteSectionRenumbered | src/components/SectionEditor.tsx:38-41 | the corrected delete: orders 0..N-1, otherwise the survivors of the source's delete |
| SectionEditor.DeleteRenumberedThenAdd | src/components/SectionEditor.tsx:38-53 | after the corrected delete, an added section keeps the list dense and sorting leaves it unchanged |
| SectionEditor.ApplyEdit | src/components/SectionEditor.tsx:15-53 | each editor action, with the corrected delete, keeps orders 0..N-1 |
| SectionEditor.SessionKeepsPreviewOrder | src/components/SectionEditor.tsx:15-53 | any valid sequence of such actions keeps the list dense, so the sort-by-order preview shows it as edited |
| AppState.DefaultSectionsWith | src/App.tsx:73-122 | six sections carrying the six given texts in sequence |
| AppState.DefaultSectionsWellFormed | src/App.tsx:73-122 | the fixture has orders 0..5, distinct ids and no placements |
| AppState.DefaultRequiredFlags | src/App.tsx:80-120 | summary, experience, skills and education are required and projects and achievements are not, though the extractor's rule would not mark summary or skills |
| AppState.InitialStateFacts | src/App.tsx:125-144 | the initial state has the dense fixture, empty contact fields, template `google-standard` and exactly the five customization keys |
| AppState.HandleFileUpload | src/App.tsx:171-179 | either the state is unchanged or only `sections` is replaced by the non-empty extraction |
| AppState.UploadIffHeading | src/App.tsx:171-179 | the sections are replaced by the extracted ones when the text has a heading line, otherwise the state is unchanged; on a non-empty list this is an if-and-only-if and the list stays non-empty; a heading always yields a non-empty list |
| AppState.UploadKeepsSections | src/App.tsx:171-179 | an upload never empties a non-empty list and keeps it dense with distinct ids |
| AppState.SetSections | src/App.tsx:181-186 | replaces `sections` only |
| AppState.SetPersonalInfo | src/App.tsx:188-193 | replaces `personalInfo` only |
| AppState.SetTemplate | src/App.tsx:195-200 | replaces `template` only |
| AppState.SetCustomization | src/App.tsx:202-210 | sets the one key; every other key keeps presence and value; nothing else changes |
| AppState.ActionsCommute | src/App.tsx:171-210 | handlers writing different parts of the state commute |
| AppState.LastWriteWins | src/App.tsx:181-210 | two writes to the same part leave the second |
| AppState.CustomizeCommutes | src/App.tsx:202-210 | settings of different keys commute |
| AppState.CustomizeSameValue | src/App.tsx:202-210 | setting a key to its current value changes nothing |
| Layout.FirstClaim | src/components/templates/TripleSectionTemplate.tsx:20-55 | the first region whose own filter takes the section: it takes it and no earlier region does; none exactly when no region's filter takes it |
| Layout.SteerOf | src/components/templates/TripleSectionTemplate.tsx:58-66 | the fallback region is the last-resort one or a steer whose word the kind contains |
| Layout.Region | src/components/templates/GoogleStandardTwoColumnTemplate.tsx:17-44 | a region is its own matches, then the unclaimed sections steered to it, each part in ascending `order` |
| Layout.RegionCount | src/components/templates/GoogleStandardTwoColumnTemplate.tsx:20-44 | a section's multiplicity in a region: as in the input if claimed or steered there, else zero |
| Layout.Arrange | src/components/templates/GoogleStandardTwoColumnTemplate.tsx:17-44 | one list per region, each own-matches-then-fallbacks in `order`, all drawn from the input |
| Layout.ClaimsDisjoint | src/components/templates/TripleSectionTemplate.tsx:20-46 | in a well-formed template no section is claimed by two regions |
| Layout.ClaimedRegion | src/components/templates/TripleSectionTemplate.tsx:20-46 | a claimed section lands in the claiming region |
| Layout.KindDecides | src/components/templates/GoogleStandardTwoColumnTemplate.tsx:23-29 | a section with no placement whose kind a region lists lands there |
| Layout.PlacementDecides | src/components/templates/GoogleStandardTwoColumnTemplate.tsx:21-28 | a listed placement decides the region whatever the kind |
| Layout.UnknownPlacementFallsBack | src/components/templates/GoogleStandardTwoColumnTemplate.tsx:21-44 | a placement no region lists skips the kind lists and goes by the fallback |
| Layout.UnlistedKindDropped | src/components/templates/HybridHeaderDualTemplate.tsx:20-34 | without fallback, a kind no region lists is drawn nowhere |
| Layout.RegionHoldsItsArea | src/components/templates/GoogleStandardTwoColumnTemplate.tsx:20-44 | a region holds every copy of the sections routed to it and nothing else |
| Layout.ArrangePartitions | src/components/templates/GoogleStandardTwoColumnTemplate.tsx:17-44 | over all regions, a routed section occurs as often as in the input, an unrouted one never |
| Layout.ShownIffRouted | src/components/templates/TripleSectionTemplate.tsx:176 | a region is non-empty exactly when some section is routed to it |
| Layout.UnsteeredRegionIsOwn | src/components/templates/TShapedTemplate.tsx:20-50 | a region no fallback targets is exactly its own filter of the sorted list |
| Layout.PlacementIgnored | src/components/templates/GoogleSRETwoColumnTemplate.tsx:19-25 | a template that does not read placement routes a section the same whatever its placement |
| Templates.GoogleStandardTwoColumnWellFormed | src/components/templates/GoogleStandardTwoColumnTemplate.tsx:20-30 | the two columns' placement and kind lists are disjoint and every fallback target is a column |
| Templates.GoogleStandardTwoColumnFallback | src/components/templates/GoogleStandardTwoColumnTemplate.tsx:33-44 | an unclaimed section goes left iff its kind contains `skill`, `education` or `certification`, else right; so every section is placed |
| Templates.GoogleStandardTwoColumnPartitions | src/components/templates/GoogleStandardTwoColumnTemplate.tsx:17-44 | every section appears in exactly one column, once per input copy |
| Templates.GoogleTechnicalTwoColumnWellFormed | src/components/templates/GoogleTechnicalTwoColumnTemplate.tsx:19-30 | the columns' lists, with `awards` left and `publications` right, are disjoint |
| Templates.GoogleTechnicalTwoColumnFallback | src/components/templates/GoogleTechnicalTwoColumnTemplate.tsx:32-43 | an unclaimed section goes left iff its kind contains `skill`, `education` or `certification`, else right |
| Templates.GoogleTechnicalTwoColumnPartitions | src/components/templates/GoogleTechnicalTwoColumnTemplate.tsx:16-43 | every section appears in exactly one column |
| Templates.GoogleExecutiveWellFormed | src/components/templates/GoogleExecutiveTemplate.tsx:19-30 | the sidebar and main lists are disjoint |
| Templates.GoogleExecutiveFallback | src/components/templates/GoogleExecutiveTemplate.tsx:32-43 | an unclaimed section goes to the sidebar iff its kind contains `skill`, `education` or `certification`, else main |
| Templates.GoogleExecutivePartitions | src/components/templates/GoogleExecutiveTemplate.tsx:16-43 | every section appears in exactly one of sidebar and main |
| Templates.GoogleExecutiveEducation | src/components/templates/GoogleExecutiveTemplate.tsx:22-43 | a placement-less `education` section is on neither list and reaches the sidebar only by the fallback |
| Templates.TShapedWellFormed | src/components/templates/TShapedTemplate.tsx:20-35 | header, sidebar and main lists are pairwise disjoint |
| Templates.TShapedFallback | src/components/templates/TShapedTemplate.tsx:38-50 | an unclaimed section goes to the sidebar iff its kind contains `skill` or `education`, else main |
| Templates.TShapedPartitions | src/components/templates/TShapedTemplate.tsx:17-50 | every section appears in exactly one of header, sidebar and main |
| Templates.TShapedHeaderIsOwn | src/components/templates/TShapedTemplate.tsx:20-50 | the header is exactly its own filter and never receives fallback sections |
| Templates.AsymmetricalWellFormed | src/components/templates/AsymmetricalTemplate.tsx:20-31 | the main and sidebar lists are disjoint |
| Templates.AsymmetricalFallback | src/components/templates/AsymmetricalTemplate.tsx:33-43 | an unclaimed section goes to the sidebar iff its kind contains `skill` or `education`, else main |
| Templates.AsymmetricalPartitions | src/components/templates/AsymmetricalTemplate.tsx:17-43 | every section appears in exactly one of main and sidebar |
| Templates.TripleSectionApart | src/components/templates/TripleSectionTemplate.tsx:20-46 | the five regions' placement lists and kind lists are pairwise disjoint |
| Templates.TripleSectionWellFormed | src/components/templates/TripleSectionTemplate.tsx:20-46 | the template is well formed: disjoint lists, no blank placement, fallbacks target existing regions |
| Templates.TripleSectionFallback | src/components/templates/TripleSectionTemplate.tsx:49-66 | an unclaimed section goes left if its kind contains `skill`, else right if it contains `education`, else middle |
| Templates.TripleSectionPartitions | src/components/templates/TripleSectionTemplate.tsx:17-66 | every section appears in exactly one of banner, left, middle, right and bottom |
| Templates.TripleSectionBannerIsOwn | src/components/templates/TripleSectionTemplate.tsx:20-66 | the banner is exactly its own filter, with no fallbacks |
| Templates.TripleSectionBottomIsOwn | src/components/templates/TripleSectionTemplate.tsx:43-66 | the bottom is exactly its own filter, with no fallbacks |
| Templates.TripleSectionBottomShown | src/components/templates/TripleSectionTemplate.tsx:43-176 | the bottom band is drawn exactly when some section is routed to it; by `TripleSectionBottomIsOwn` those are the sections its own filter takes |
| Templates.TripleSectionIgnoresSidebar | src/components/templates/TripleSectionTemplate.tsx:20-66 | placement `sidebar` is on no list here, so such a section goes by the fallback on its kind |
| Templates.HybridHeaderDualApart | src/components/templates/HybridHeaderDualTemplate.tsx:20-34 | the four kind lists are pairwise disjoint |
| Templates.HybridHeaderDualWellFormed | src/components/templates/HybridHeaderDualTemplate.tsx:20-34 | the template is well formed |
| Templates.HybridHeaderDualDropsAdded | src/components/templates/HybridHeaderDualTemplate.tsx:20-34 | a section added in the editor (kind `custom`) is drawn in no region |
| Templates.HybridHeaderDualFooterShown | src/components/templates/HybridHeaderDualTemplate.tsx:32-129 | the footer is drawn exactly when some section is routed to it |
| Templates.GoogleSRETwoColumnWellFormed | src/components/templates/GoogleSRETwoColumnTemplate.tsx:19-25 | the two kind lists are disjoint |
| Templates.GoogleSRETwoColumnDropsAdded | src/components/templates/GoogleSRETwoColumnTemplate.tsx:19-25 | a `custom` section appears in neither column |
| ExportNames.FileStem | src/components/ExportPanel.tsx:13 | the stem is non-empty and has no whitespace |
| ExportNames.FallbackIffBlank | src/components/ExportPanel.tsx:13 | the stem is `resume` exactly when the name is missing or empty; otherwise it is the run-replaced name |
| ExportNames.BlankNameIsUnderscore | src/components/ExportPanel.tsx:13 | a whitespace-only name gives `_`, not `resume` |
| ExportNames.PlainNameKept | src/components/ExportPanel.tsx:13 | a name without whitespace is kept unchanged |
| ExportNames.WordsJoinedByUnderscore | src/components/ExportPanel.tsx:13 | two words separated by any whitespace run are joined by exactly one `_` |
| ExportNames.FileName | src/components/ExportPanel.tsx:13-52 | each download name ends in its format's suffix: `_CV.pdf`, `_CV.html` or `_CV.doc` |
| ExportNames.SharedStem | src/components/ExportPanel.tsx:13-52 | the names for any two formats begin with the same whitespace-free stem |
| CreativeTemplate.Heads | src/components/templates/CreativeTemplate.tsx:33 | at most one character per piece |
| CreativeTemplate.Initials | src/components/templates/CreativeTemplate.tsx:33 | the monogram never contains a space |
| CreativeTemplate.HeadsAreWordStarts | src/components/templates/CreativeTemplate.tsx:33 | first characters of the space-split pieces are exactly the non-space characters that start the text or follow a space; empty pieces add nothing |
| CreativeTemplate.InitialsAreWordStarts | src/components/templates/CreativeTemplate.tsx:33 | the monogram of a non-empty name is that scan |
| CreativeTemplate.BlankInitials | src/components/templates/CreativeTemplate.tsx:33 | an empty name gives `YN`; a name of spaces only gives the empty monogram |
| CreativeTemplate.InitialsBound | src/components/templates/CreativeTemplate.tsx:33 | at most one initial more than there are spaces |
| CreativeTemplate.OneWordOneInitial | src/components/templates/CreativeTemplate.tsx:33 | a name without `' '` gives its first character alone, even if it holds tabs |
| CreativeTemplate.MainColumn | src/components/templates/CreativeTemplate.tsx:17-89 | every section exactly as often as in the input, in ascending `order` |
| CreativeTemplate.MainColumnStable | src/components/templates/CreativeTemplate.tsx:17-89 | sections with equal `order` keep their input sequence |
| CreativeTemplate.MainColumnOfSorted | src/components/templates/CreativeTemplate.tsx:17-89 | a list already in `order` is shown as it stands |

## Left out

- `parseMarkdown` (src/utils/markdownParser.ts:3-5): it only calls the external `marked` library.
- PDF, HTML and Word export mechanics (html2pdf, Blob, DOM, downloads): I/O. Only the file names are modelled.
- localStorage persistence, JSON parsing and debounce timers in App.tsx: I/O and timers.
- ATS scoring: a floating-point heuristic run on a timer.
- The text-formatting and customization panels: floating-point font scaling, CSS generation and DOM selection.
- The single-column templates and the CVPreview switch: their only logic is the sort by `order`, modelled once in `Sections.SortByOrder`.
- Header contact lines (`filter(Boolean).join(...)`) and the other presentational components (file reader, sample text, forms, template picker): presentation and I/O.
- `Date.now()`: the extractor takes a clock function (one reading per heading) and `AddSection` takes the timestamp as a parameter.
- AppState.DefaultSectionsWith: the six long sample texts of the fixture are a parameter. `AppState.SampleContent` spells them out, but the lemmas hold for any texts.
- SectionEditor.UpdateSection: only the `title` and `content` fields are modelled, because those are the only fields the editor's inputs write. A write to any other key is not modelled.
- SectionEditor.Reorder: drag indices are assumed to lie within the list, which the drag library guarantees. An out-of-range index is not modelled.
- Text.Lower: `toLowerCase` is modelled for ASCII letters only. Other letters are left as they are.
- Text.IsSpace and the strings: characters stand for UTF-16 code units. There is no surrogate-pair or Unicode case handling.
- MarkdownRoundTrip.RoundTrip: it needs trimmed, heading-free contents and newline-free titles, and the extractor's own output does not always meet this premise (see `IndentedHeading`).
- Object identity in the templates' `includes(section)` is replaced by the claim predicate. The two agree whenever equal sections are treated alike, which every filter here does.
- AppState.SetCustomization: a customization value is a string or a real number, and the model does not interpret it. The source accepts any value.
- Sorting mutates the `sections` prop in place in the source. The model sorts a copy, and nothing in the model observes the mutation.

## Findings

| source | as written | input that shows it | evidently intended | confidence | as-written member | corrected member |
|---|---|---|---|---|---|---|
| src/components/SectionEditor.tsx:38-53 | `deleteSection` keeps the survivors' `order` values, and `addSection` gives the new section `order = sections.length` | four sections with orders 0..3: delete the first two, then add one; the list is [c(2), d(3), new(2)] | orders stay 0..N-1 after a delete, as after a drag, so the preview, which sorts by `order`, shows the editor's sequence | not executed | SectionEditor.DeleteThenAddMisorders | SectionEditor.DeleteRenumberedThenAdd |

`SectionEditor.DeleteThenAddRepeatsOrder` shows the collision in general: after any deletion of the first section, the added section shares its `order` with the last survivor. `SectionEditor.DeleteSectionRenumbered` is the corrected delete. `SectionEditor.ApplyEdit` and `SessionKeepsPreviewOrder` use it.
