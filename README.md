# gen-apidocs document writers, modelled in Dafny

gen-apidocs turns the Kubernetes API configuration into reference
documentation. `GenerateFiles` walks the configuration and drives a document
writer. The writer is the TeX/HTML writer or the Markdown writer. It calls, in
a fixed order:

1. the overview;
2. the API groups page;
3. every resource category with its resources;
4. the definitions overview and every plain definition;
5. the old-versions overview and every old-version resource;
6. `Finalize`.

Each writer keeps a table of contents. It is a list of level-1 sections plus a
`CurrentSection` field. Every section-producing call appends one section and
makes it current. `WriteDefinition` appends a child to the current
section. `WriteResource` builds a three-deep subtree: the resource, then its
non-empty operation categories, then their operations. At the end the TeX
writer walks the table in pre-order and writes one `\include` line per file
that exists.

This project models:

- both writers' table-of-contents state machines, as classes whose
  `sections: seq<TocItem>` field and `current` index the methods reassign;
- the page fragments the writers emit (version lists, appears-in lists, field
  rows, parameter and response tables, example buttons and panels), as
  chunks appended to an append-only sink;
- the TeX master document (`generateDocument`);
- the Markdown groups page, the in-place response sort and the `_index.md`
  substitution;
- every name and anchor: `getLink`, `definitionFileName`, `conceptFileName`,
  and the inline category and operation ids;
- the driver `GenerateFiles`, as the sequence of writer calls it makes, plus
  main's format check;
- `writeStaticFile`, as an update of a map from path to content.

Modules:

- `Text` holds the ASCII string operations of Go's `strings` package that the
  source uses.
- `Api` holds the configuration records.
- `Output` holds the sink.
- `Naming`, `Toc`, `Tex`, `Md`, `StaticFile` and `Generate` follow the
  source files.

## Model

| member | source | states |
|---|---|---|
| Naming.GetLink | gen-apidocs/generators/writer.go:145-148 | the link has the input's length, and each character is the input's with `.` and space turned into `-` and then lower-cased |
| Naming.GetLinkClean | gen-apidocs/generators/writer.go:145-148 | a link holds no dot, no space and no upper-case ASCII letter |
| Naming.GetLinkIdempotent | gen-apidocs/generators/writer.go:145-148 | applying getLink to a link gives the link back |
| Naming.NameStemDots | gen-apidocs/generators/writer.go:136 | after replacing the first 50 dots and lower-casing, no dot is left when the name had at most 50; otherwise exactly count-50 are left |
| Naming.FileNamesNeverCollide | gen-apidocs/generators/writer.go:135-143 | no definition file name equals any concept file name, whatever the two definitions |
| Naming.PathJoin | gen-apidocs/generators/writer.go:151-152 | filepath.Join of a directory and a name is the name alone for an empty directory, otherwise directory, `/`, name |
| Naming.SlugEitherOrder | gen-apidocs/generators/tex.go:93 | replacing spaces before lower-casing gives the same id as the writers' lower-case-then-replace slug |
| Naming.SlugIsLinkWithoutDots | gen-apidocs/generators/tex.go:383 | for a name without dots the category slug equals getLink of the name |
| Naming.ExampleParts | gen-apidocs/generators/tex.go:235-265 | an example written "key:tab" and "key:tool_lang" splits into tab and language the way both writers take it apart |
| Naming.LeadingTabsOk | gen-apidocs/generators/tex.go:234-235 | counts the examples before the first whose tab has no colon, the one where the split's index 1 panics |
| Naming.LeadingWellFormed | gen-apidocs/generators/tex.go:250-265 | counts the examples before the first whose tab, kind or language part is missing, the one where a split panics |
| Toc.OperationItems | gen-apidocs/generators/tex.go:389-397 | one item per operation |
| Toc.OperationItemsAt | gen-apidocs/generators/tex.go:389-397 | the i-th item is the i-th operation's, at level 2 with nothing below it, linked by its slug, a dash and the definition's link id |
| Toc.CategoryItemsSelectNonEmpty | gen-apidocs/generators/tex.go:375-388 | the category items are exactly one per category with operations, in category order; empty categories add nothing |
| Toc.NonEmptyPositionsExact | gen-apidocs/generators/tex.go:375-378 | the selected positions ascend and are exactly the categories whose operation list is non-empty |
| Toc.CategoryItemsShaped | gen-apidocs/generators/tex.go:383-398 | every category item is level 2 and holds only level-2 leaves |
| Toc.WithSubSections | gen-apidocs/generators/tex.go:387 | replacing the current section's children keeps the length and every earlier section |
| Toc.AppendToLastSub | gen-apidocs/generators/tex.go:397 | appending under the last category item keeps the section's own fields and its other children |
| Toc.AppendToLastSubTwice | gen-apidocs/generators/tex.go:389-397 | appending two runs of operations one after the other equals appending them together |
| Toc.PreorderAppend | gen-apidocs/generators/tex.go:457-489 | the pre-order of a list with one more item is the old pre-order, the item, then the item's own pre-order |
| Toc.ReadableFilesAppend | gen-apidocs/generators/tex.go:457-489 | the files kept from a concatenation are those kept from each part |
| Tex.TexWriter.constructor | gen-apidocs/generators/tex.go:50-60 | a new writer has an empty table, no current section, and the given title and copyright |
| Tex.TexWriter.WriteOverview | gen-apidocs/generators/tex.go:66-77 | appends exactly the overview section at the end, keeps earlier sections, makes it current |
| Tex.TexWriter.WriteResourceCategory | gen-apidocs/generators/tex.go:79-90 | appends exactly the category section at the end, keeps earlier sections, makes it current |
| Tex.CategorySectionNames | gen-apidocs/generators/tex.go:81-86 | a category section's title is the name in capitals; its link is a lower-case, space-free slug between "-strong-" markers |
| Tex.TexWriter.WriteDefinitionsOverview | gen-apidocs/generators/tex.go:155-165 | appends exactly the definitions section, keeps earlier sections, makes it current |
| Tex.TexWriter.WriteOldVersionsOverview | gen-apidocs/generators/tex.go:424-434 | appends exactly the old-versions section, keeps earlier sections, makes it current |
| Tex.TexWriter.WriteDefinition | gen-apidocs/generators/tex.go:167-198 | the section count and the current index stay; only the current section changes, by one more child, the definition's item |
| Tex.DefinitionItemNames | gen-apidocs/generators/tex.go:168-197 | the definition item is a level-2 leaf titled "Name Version Group", linked by getLink of the title, and its file never equals any resource's file |
| Tex.TexWriter.WriteResource | gen-apidocs/generators/tex.go:323-422 | appends exactly the resource section, whose children are one item per non-empty category, each holding one item per operation; keeps earlier sections; makes it current |
| Tex.TexWriter.AddCategoryItem | gen-apidocs/generators/tex.go:381-387 | the current section gains exactly the category's item at the end; nothing else changes |
| Tex.TexWriter.AddOperationItems | gen-apidocs/generators/tex.go:389-397 | the last category item of the current section gains exactly one item per operation, in order |
| Tex.TexWriter.GenerateDocument | gen-apidocs/generators/tex.go:436-492 | the master document is the fixed preamble, the section walk's include lines, then `\end{document}` |
| Tex.TexWriter.Finalize | gen-apidocs/generators/tex.go:494-497 | Finalize writes exactly what generateDocument writes |
| Tex.WriteSectionIncludes | gen-apidocs/generators/tex.go:457-489 | the loop over sections writes exactly the section walk's include lines |
| Tex.WriteSubIncludes | gen-apidocs/generators/tex.go:466-488 | the loop over sub-items writes exactly their include lines, skipping empty files |
| Tex.WriteSubSubIncludes | gen-apidocs/generators/tex.go:477-487 | the loop over sub-sub-items writes exactly their include lines, skipping empty files |
| Tex.IncludesOf | gen-apidocs/generators/tex.go:462-483 | one include line per file, in order |
| Tex.IncludesOfAppend | gen-apidocs/generators/tex.go:457-489 | the include lines of two file lists concatenate |
| Tex.SubSubIncludesArePreorder | gen-apidocs/generators/tex.go:477-487 | for leaves, the innermost loop writes the pre-order includes |
| Tex.SubIncludesArePreorder | gen-apidocs/generators/tex.go:466-488 | for sub-items, the two inner loops write the pre-order includes |
| Tex.SectionIncludesArePreorder | gen-apidocs/generators/tex.go:457-489 | for any well-shaped table, the three nested loops write one include per readable file in pre-order: section, its sub-items, their sub-items |
| Tex.StaticHeadingAsWritten | gen-apidocs/generators/tex.go:92-95 | the default page as written labels the title itself between "-strong-" markers and names the section by the title's slug |
| Tex.StaticHeadingAsWrittenMismatch | gen-apidocs/generators/tex.go:92-95 | for a title starting with a capital, the label is not the category's link and the section name is not the title |
| Tex.DefinitionsLabelMismatch | gen-apidocs/generators/tex.go:92-95 | for "Definitions" the label differs from the definitions section's link |
| Tex.DefaultStaticContent | gen-apidocs/generators/tex.go:92-95 | the default page is the section heading and label built from the corrected heading |
| Tex.StaticLabelMatchesToc | gen-apidocs/generators/tex.go:79-95 | the corrected heading names the section by its title and labels it with exactly the category section's link |
| Tex.WriteOperationSample | gen-apidocs/generators/tex.go:228-273 | completes exactly when every example is well formed; writes exactly the output the source writes, up to the panic when there is one |
| Tex.SampleOutputWellFormed | gen-apidocs/generators/tex.go:228-273 | with every example well formed, the output is one button per example, then one panel per example, in the same order |
| Tex.SampleOutputComplete | gen-apidocs/generators/tex.go:228-273 | the output holds at most two chunks per example, and exactly two per example when and only when no example makes the source panic |
| Tex.SampleButtons | gen-apidocs/generators/tex.go:234-248 | the i-th button is the i-th example's |
| Tex.SamplePanels | gen-apidocs/generators/tex.go:250-272 | the i-th panel is the i-th example's |
| Tex.WriteSampleButtons | gen-apidocs/generators/tex.go:234-248 | the first loop writes the buttons of the examples before the first tab without a colon, and stops there |
| Tex.ButtonFor | gen-apidocs/generators/tex.go:235-247 | for a tab holding a colon, a button targets "req-" or "res-", the tab, a dash and the operation, captioned with the tab and "request" or "response" |
| Tex.WriteSamplePanels | gen-apidocs/generators/tex.go:250-272 | the second loop writes the panels of the examples before the first malformed one, and stops there |
| Tex.PanelFor | gen-apidocs/generators/tex.go:251-271 | a panel carries the sample id, the caption rewritten for curl with "proxy" and kubectl with "Command", the tab, the language and the text |
| Tex.SamplesPairUp | gen-apidocs/generators/tex.go:234-272 | there are as many buttons as panels, and the i-th button targets the i-th panel's id |
| Tex.SampleIdsDistinct | gen-apidocs/generators/tex.go:239-256 | request and response ids never coincide; for one operation, ids coincide exactly when the tabs do |
| Tex.CurlCaptionMentionsProxy | gen-apidocs/generators/tex.go:260 | the curl replacement caption still contains "proxy" |
| Tex.PanelHeadingIdempotent | gen-apidocs/generators/tex.go:258-263 | rewriting an already rewritten caption changes nothing |
| Tex.OtherVersionsBlock | gen-apidocs/generators/tex.go:97-110 | nothing for no other versions; otherwise an opening, one item per version in order, a closing |
| Tex.WriteOtherVersions | gen-apidocs/generators/tex.go:97-110 | writes exactly the other-versions block |
| Tex.WriteVersionItems | gen-apidocs/generators/tex.go:103-108 | the loop writes exactly one item per version |
| Tex.AppearsInBlock | gen-apidocs/generators/tex.go:112-123 | nothing for no references; otherwise an opening, one item per reference in order, a closing |
| Tex.WriteAppearsIn | gen-apidocs/generators/tex.go:112-123 | writes exactly the appears-in block |
| Tex.WriteAppearsInItems | gen-apidocs/generators/tex.go:117-121 | the loop writes exactly one item per reference |
| Tex.ParamRows | gen-apidocs/generators/tex.go:278-284 | one row per parameter, in order |
| Tex.WriteParams | gen-apidocs/generators/tex.go:275-286 | writes the heading, the table head, one row per parameter, the table close |
| Tex.WriteRequestParams | gen-apidocs/generators/tex.go:288-303 | writes exactly the request-parameter tables |
| Tex.RequestParamsLayout | gen-apidocs/generators/tex.go:288-303 | headings are the non-empty groups among path, query and body, in that order; the rows are the path, query then body parameters; nothing at all when all three are empty |
| Tex.ParamsGroupParts | gen-apidocs/generators/tex.go:290-302 | an empty group contributes no heading and no row; a non-empty one its title and exactly its rows |
| Tex.ResponseParams | gen-apidocs/generators/tex.go:305-320 | nothing for no responses; otherwise heading, table head, one row per response, close |
| Tex.WriteResponseParams | gen-apidocs/generators/tex.go:305-320 | writes exactly the response block |
| Tex.ResponseRows | gen-apidocs/generators/tex.go:312-318 | one row per response, in order |
| Md.MarkdownWriter.constructor | gen-apidocs/generators/md.go:38-48 | a new writer has an empty table, no current section, and the given configuration, copyright and title |
| Md.DefaultStaticContent | gen-apidocs/generators/md.go:54-56 | the title reads back from the default page, between the heading marker and the blank line |
| Md.MarkdownWriter.WriteOverview | gen-apidocs/generators/md.go:58-69 | appends exactly the overview section, keeps earlier sections, makes it current |
| Md.MarkdownWriter.WriteAPIGroupVersions | gen-apidocs/generators/md.go:71-112 | appends exactly the groups section and writes the groups page |
| Md.GroupVersionsPage | gen-apidocs/generators/md.go:71-112 | the page is the fixed head, one row per group in sorted order, the fixed close |
| Md.GroupRows | gen-apidocs/generators/md.go:85-101 | the i-th row is the i-th sorted group with its sorted versions joined by ", " |
| Md.WriteGroupRows | gen-apidocs/generators/md.go:85-101 | the loop writes exactly the group rows |
| Md.GroupRowsOnePerGroup | gen-apidocs/generators/md.go:85-101 | every group gets a row and no group gets two |
| Md.GroupRowListsVersions | gen-apidocs/generators/md.go:91-100 | with a version sort that only reorders, the i-th row is the i-th group with a reordering of exactly its own versions, joined by ", " |
| Md.MarkdownWriter.WriteResourceCategory | gen-apidocs/generators/md.go:114-126 | appends exactly the category section, keeps earlier sections, makes it current |
| Md.CategorySectionNames | gen-apidocs/generators/md.go:116-121 | the title is the name in capitals; the link is a lower-case, space-free slug of the same length, without "-strong-" markers |
| Md.FieldRowOf | gen-apidocs/generators/md.go:131-141 | a field row shows the name and the description; the link, patch strategy and patch merge key appear exactly when non-empty |
| Md.FieldsTable | gen-apidocs/generators/md.go:128-143 | the header, then exactly one row per field, in order |
| Md.WriteFields | gen-apidocs/generators/md.go:128-143 | writes exactly the fields table |
| Md.WriteFieldRows | gen-apidocs/generators/md.go:131-142 | the loop writes exactly one row per field |
| Md.LinkList | gen-apidocs/generators/md.go:145-163 | nothing for an empty list; otherwise the heading, one item per link in order, the end |
| Md.WriteOtherVersions | gen-apidocs/generators/md.go:145-153 | writes exactly the other-versions list |
| Md.WriteAppearsIn | gen-apidocs/generators/md.go:155-163 | writes exactly the appears-in list |
| Md.WriteLinkItems | gen-apidocs/generators/md.go:148-151 | the loop writes exactly one item per link |
| Md.MarkdownWriter.WriteDefinitionsOverview | gen-apidocs/generators/md.go:165-175 | appends exactly the definitions section, keeps earlier sections, makes it current |
| Md.MarkdownWriter.WriteDefinition | gen-apidocs/generators/md.go:177-208 | the section count and the current index stay; only the current section changes, by one more child, the definition's item |
| Md.DefinitionItemNames | gen-apidocs/generators/md.go:180-206 | the item is a level-2 leaf titled "Name (Group/Version)", linked by getLink of the title, in the file of the name with its first 50 dots turned into dashes, lower-cased, then "-version-group.md" |
| Md.MarkdownWriter.WriteResource | gen-apidocs/generators/md.go:210-318 | appends exactly the resource section, whose children are one item per non-empty category, each holding one item per operation; keeps earlier sections; makes it current |
| Md.CategoryAnchors | gen-apidocs/generators/md.go:278 | the Markdown category id is the slug, a dash and the link id, with no markers; the TeX id is the same between "-strong-" markers |
| Md.MarkdownWriter.AddCategoryItem | gen-apidocs/generators/md.go:279-285 | the current section gains exactly the category's item at the end; nothing else changes |
| Md.MarkdownWriter.AddOperationItems | gen-apidocs/generators/md.go:287-297 | the last category item of the current section gains exactly one item per operation, in order |
| Md.WriteOperationSample | gen-apidocs/generators/md.go:320-341 | completes exactly when every example is well formed; writes exactly the output the source writes, up to the panic when there is one |
| Md.WriteSample | gen-apidocs/generators/md.go:321-340 | succeeds exactly for a well-formed example, which gives a header and a code block; a tab without a colon writes nothing, a kind without the language part writes only the header |
| Md.SampleOutputWellFormed | gen-apidocs/generators/md.go:320-341 | with every example well formed, the output is, per example in order, its header and its code block |
| Md.SampleOutputComplete | gen-apidocs/generators/md.go:320-341 | the output holds at most two chunks per example, and exactly two per example when and only when no example makes the source panic |
| Md.SampleBlocksAt | gen-apidocs/generators/md.go:321-340 | the header is the tab with " request" or " response"; the code block is tagged with the language after the underscore |
| Md.SampleBlocksIgnoreMsg | gen-apidocs/generators/md.go:322-330 | the output does not depend on the examples' messages, so the rewritten message is never emitted |
| Md.ParamsTable | gen-apidocs/generators/md.go:343-354 | the heading, the table head, one row per parameter, the close |
| Md.WriteParams | gen-apidocs/generators/md.go:343-354 | writes exactly the parameter table |
| Md.WriteParamRows | gen-apidocs/generators/md.go:346-352 | the loop writes exactly one row per parameter |
| Md.ParamRowOf | gen-apidocs/generators/md.go:347-351 | a row shows the name and the description, with the full link exactly when the field has a link |
| Md.WriteRequestParams | gen-apidocs/generators/md.go:356-371 | writes exactly the request-parameter tables |
| Md.RequestParamsLayout | gen-apidocs/generators/md.go:356-371 | headings are the non-empty groups among path, query and body, in that order; the rows are the path, query then body parameters; nothing when all three groups are empty; each non-empty group adds its size plus three; the first heading is the first non-empty group |
| Md.ParamsGroupParts | gen-apidocs/generators/md.go:357-370 | an empty group contributes no heading and no row; a non-empty one its title and exactly its rows |
| Md.SortResponses | gen-apidocs/generators/md.go:380-382 | the responses end sorted by name and are a permutation of the old ones |
| Md.InsertIntoPrefix | gen-apidocs/generators/md.go:380-382 | one insertion step extends the sorted prefix by one and keeps the multiset |
| Md.Swap | gen-apidocs/generators/md.go:380-382 | exchanges two responses and leaves the rest in place |
| Md.SortedByNamePairwise | gen-apidocs/generators/md.go:380-382 | adjacent order implies every earlier response's name is at most every later one's |
| Md.WriteResponseParams | gen-apidocs/generators/md.go:373-392 | nothing is written and nothing reordered when there are no responses; otherwise the responses are sorted in place, as a permutation, and the block lists them in that order |
| Md.ResponseParams | gen-apidocs/generators/md.go:373-392 | nothing for no responses; otherwise heading, table head, one row per response, close |
| Md.WriteResponseRows | gen-apidocs/generators/md.go:383-389 | the loop writes exactly one row per response |
| Md.ResponseRowsAscending | gen-apidocs/generators/md.go:380-389 | the written rows ascend by name |
| Md.MarkdownWriter.WriteOldVersionsOverview | gen-apidocs/generators/md.go:394-405 | appends exactly the old-versions section, keeps earlier sections, makes it current |
| Md.MarkdownWriter.Finalize | gen-apidocs/generators/md.go:477-494 | the index page: template, every TIMESTAMP and every RELEASE replaced; none where the source panics on the release slice |
| Md.Release | gen-apidocs/generators/md.go:489-490 | the release exists exactly when the last dot is past the first character, and is the text from index 1 up to that dot |
| Md.ReleaseOf | gen-apidocs/generators/md.go:489-490 | for one character, a release, a dot and a dot-free tail, the release is recovered |
| Md.ReleaseExample | gen-apidocs/generators/md.go:489-490 | "v1.10.0" gives "1.10" |
| Md.IndexPagePlaceholders | gen-apidocs/generators/md.go:480-491 | the page exists exactly when the release does; it is the template cut at each TIMESTAMP and at each RELEASE and rejoined, and no remaining piece holds a placeholder |
| Md.IndexPageWithoutPlaceholders | gen-apidocs/generators/md.go:480-491 | a template without placeholders is kept as is, and a missing index.md gives an empty page |
| StaticFile.StaticFileEffect | gen-apidocs/generators/writer.go:150-177 | only the target may change, and a panic or a failed link changes nothing |
| StaticFile.FileSystem.WriteStaticFile | gen-apidocs/generators/writer.go:150-177 | the outcome and the new files are exactly the stat, link (with its error ignored), create and open branches of the source |
| StaticFile.SourceExistsIsLinked | gen-apidocs/generators/writer.go:153-158 | an existing hand-written page is linked: a failed link leaves the files as they were; otherwise the target holds the page unless the target already existed; the default content is not written |
| StaticFile.SourceAbsentIsCreated | gen-apidocs/generators/writer.go:160-176 | a missing page with no failure gives a target holding exactly the default content |
| StaticFile.StatErrorPanics | gen-apidocs/generators/writer.go:160-162 | any other stat error panics and changes nothing |
| StaticFile.TargetExistsUnlessPanicked | gen-apidocs/generators/writer.go:150-177 | the program panics exactly on a stat error or a failing create; otherwise the target is missing afterwards only when a failed link left it missing |
| StaticFile.StaticFileIdempotent | gen-apidocs/generators/writer.go:150-177 | writing the same static page twice leaves the files of writing it once |
| Generate.CheckFormat | gen-apidocs/main.go:28-35 | the format is accepted exactly when it is "html" or "markdown" |
| Generate.Run | gen-apidocs/main.go:28-35 | main reaches the driver exactly for an accepted format, and then makes the driver's calls |
| Generate.SelectWriter | gen-apidocs/generators/writer.go:67-72 | the HTML writer exactly for "html", the Markdown writer otherwise |
| Generate.Copyright | gen-apidocs/generators/writer.go:52-60 | the HTML template for "html", the Markdown template otherwise: its head, then exactly the year, then its tail |
| Generate.CopyrightFormats | gen-apidocs/generators/writer.go:52-60 | every non-html format gives the same line, which is never the HTML one |
| Generate.GenerateFiles | gen-apidocs/generators/writer.go:46-124 | the writer, copyright and title chosen, and the writer calls made, are exactly those of the plan |
| Generate.WriteCategories | gen-apidocs/generators/writer.go:79-88 | the category loop makes exactly the category calls |
| Generate.WriteResources | gen-apidocs/generators/writer.go:81-87 | the resource loop makes exactly one call per resource |
| Generate.ResourceCall | gen-apidocs/generators/writer.go:82-86 | a resource is written exactly when it has a definition; otherwise only the warning is given |
| Generate.CategoryCalls | gen-apidocs/generators/writer.go:79-88 | the category block holds only category and resource calls |
| Generate.Select | gen-apidocs/generators/writer.go:92-99 | the filtering loop keeps exactly the definitions the predicate accepts, in order |
| Generate.KeepCount | gen-apidocs/generators/writer.go:93-99 | a kept definition occurs as often as in the input, a rejected one never |
| Generate.WriteDefinitions | gen-apidocs/generators/writer.go:101-103 | one WriteDefinition per definition, in order |
| Generate.WriteOldVersions | gen-apidocs/generators/writer.go:114-121 | one resource call per old version that is not inlined, in order |
| Generate.OldVersionCalls | gen-apidocs/generators/writer.go:114-121 | every call writes a resource built from the definition and its name, and exactly the non-inlined definitions get one |
| Generate.PlainAndOldDisjoint | gen-apidocs/generators/writer.go:95-110 | no definition is both in the definitions list and in the old-versions list |
| Generate.KeptAndSorted | gen-apidocs/generators/writer.go:92-113 | after filtering and sorting, a definition occurs exactly as often as in the input when it passes the filter, never otherwise |
| Generate.DefinitionsWritten | gen-apidocs/generators/writer.go:89-103 | WriteDefinition is called for a definition exactly when it is neither in the table of contents, inlined nor an old version |
| Generate.OldVersionsWritten | gen-apidocs/generators/writer.go:105-121 | an old-version resource is written exactly for the definitions that are old versions and not inlined |
| Generate.AssembleLayout | gen-apidocs/generators/writer.go:73-123 | the call list is overview, groups, category block, definitions overview, definitions, old-versions overview, old versions, Finalize |
| Generate.AssembleOrder | gen-apidocs/generators/writer.go:73-123 | each block of the call list holds only calls of its own kind |
| Generate.PlanOrder | gen-apidocs/generators/writer.go:73-123 | the calls come in the order overview, groups, categories and resources, definitions overview, definitions, old-versions overview, old versions, Finalize |
| Generate.DefinitionsFollowTheirOverview | gen-apidocs/generators/writer.go:90-103 | every WriteDefinition comes after the definitions overview with only definitions between, so a current section is always set |
| Generate.ResourcesHaveDefinitions | gen-apidocs/generators/writer.go:82-86 | every WriteResource call gets a resource with a definition |
| Generate.CategoryCallsCover | gen-apidocs/generators/writer.go:79-88 | every resource of every category is handled by the category block |
| Generate.EveryResourceHandled | gen-apidocs/generators/writer.go:79-88 | every resource in the configuration is written when it has a definition, and warned about otherwise |

## Left out

- File-system and process effects are not modelled in the writers: os.Create, os.MkdirAll, ioutil.ReadFile and WriteFile, os.Exit, stderr, and the progress prints. Output is an append-only sink of chunks. File existence for the master document is a set of readable names.
- Clocks are parameters: time.Now() for the copyright year and the index timestamp.
- ensureIncludeDir and PrintInfo are left out; they only create directories and print.
- The api package is not part of this model. Its accessors become fields of the records in `Api`: LinkID, GroupDisplayName, MdLink, FullLink, example requests and responses, Description. The configuration is given, not loaded.
- The group order and the version sort of WriteAPIGroupVersions are parameters. So is SortDefinitionsByName. Of SortDefinitionsByName and the version sort only being a permutation is assumed (Generate.SortsByPermutation, Md.SortsVersions); the order the api package's version comparison gives is not modelled. Sort stability is not modelled.
- The Definitions.All map has no iteration order in Go. It is a sequence here.
- html.EscapeString is not modelled; neither is the HTML writer, which is not part of this model. Only its selection is modelled.
- Byte-exact markup is not modelled. Fixed markup is one tag per piece; fields, links and captions become chunk fields.
- The TeX writeFields and writeSample are not modelled: the longtable layout and the sample lookup. The page bodies of both writers' WriteDefinition and WriteResource are not modelled either; only their table-of-contents effect is. This includes the resource heading, the group/version/kind table, warnings, inline definitions, operation descriptions, and the samples and parameters of each operation. Those fragments are modelled on their own, as the writer methods above.
- Md.MarkdownWriter.WriteResource: does not model that its response sort reorders the configuration's response lists, which the Go code shares by reference. Md.WriteResponseParams models that sort on an array it is given.
- The Markdown Finalize table-of-contents print loop is not modelled: it only prints. generateNavContent is not modelled either: its body is commented out and it returns "".
- Md.WriteOperationSample: the caption rewrite the Go code computes and never uses is not computed; Md.SampleBlocksIgnoreMsg shows the output does not depend on it. A malformed example ends the operation with completed false, where the Go program panics; what happens after the panic is not modelled.
- Naming.PathJoin: does not model filepath.Join's cleaning of `.`, `..` and doubled slashes.
- Text.ToLower and Text.ToUpper map ASCII letters only; Unicode case mapping is not modelled.
- StaticFile.FileSystem.WriteStaticFile does not model several things:
  - the unused title parameter;
  - defaultContent being used as a Printf format, which matters only for content holding `%`;
  - the hard link aliasing later writes (the link is a copy of the content here);
  - the "Creating file" print.
- Four spots in the Go code do not compile as written. The model follows the evident intent:
  - TexWriter has no WriteAPIGroupVersions, and GenerateFiles never selects it;
  - md.go uses ioutil with its import commented out;
  - md.go's Finalize uses OK and NOT_FOUND before it declares them;
  - md.go's Finalize passes the string buf to ioutil.WriteFile, which takes bytes (md.go:496), with file mode 0. Md.MarkdownWriter.Finalize returns the page instead of writing it; the write and its mode are not modelled.
- Overflow does not arise: the source computes only lengths and indices.

## Findings

| source | as written | input that shows it | evidently intended | confidence | as-written member | corrected member |
|---|---|---|---|---|---|---|
| gen-apidocs/generators/tex.go:92-95 | DefaultStaticContent names the section by the lower-cased slug of the title and labels it "-strong-" + title + "-strong-", the title unchanged | title "Definitions": the label "-strong-Definitions-strong-" differs from the section's link "-strong-definitions-strong-", and the section is named "definitions" | name the section by its title and label it with the slug, as WriteResourceCategory links the section | not executed | Tex.StaticHeadingAsWrittenMismatch | Tex.StaticLabelMatchesToc |
