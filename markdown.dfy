/**
 * The Markdown writer (MarkdownWriter, gen-apidocs/generators/md.go): its
 * table of contents, the API groups page, the helpers that write field
 * tables, version lists, examples and parameter tables, the in-place sort
 * of an operation's responses, and the index page Finalize fills in.
 */
module Md {
  import opened Text
  import opened Api
  import opened Naming
  import opened Toc
  import opened Output
  import opened Wrappers

  /** The fixed pieces of markup the writer emits, each standing for its text. */
  datatype Fixed =
    | GroupsFrontMatter
    | GroupsIntro
    | GroupsTableHead
    | GroupsTableClose
    | FieldsHeader
    | OtherVersionsHeading
    | AppearsInHeading
    | ListEnd
    | ParamsTableHead
    | TableClose
    | ResponseHeading
    | ResponseTableHead

  /** The text of each fixed piece, byte for byte. */
  function FixedText(f: Fixed): string
  {
    match f
    case GroupsFrontMatter => "---\ntitle: API Groups and Versions\nweight:20\n---\n\n"
    case GroupsIntro => "The API Groups and their versions are summarized in the following table.\n\n"
    case GroupsTableHead => "<TABLE class=\"col-md-8\">\n<THEAD><TR><TH>Group</TH><TH>Version</TH></TR></THEAD>\n<TBODY>\n"
    case GroupsTableClose => "</TBODY>\n</TABLE>\n\n"
    case FieldsHeader => "Field        | Description\n------------ | -----------\n"
    case OtherVersionsHeading => "### Other API versions:\n\n"
    case AppearsInHeading => "### Appears In:\n\n\n"
    case ListEnd => "\n"
    case ParamsTableHead => "<TABLE>\n<THEAD><TR><TH>Parameter</TH><TH>Description</TH></TR></THEAD>\n<TBODY>\n"
    case TableClose => "</TBODY>\n</TABLE>\n\n"
    case ResponseHeading => "#### Response\n\n"
    case ResponseTableHead => "<TABLE>\n<THEAD><TR><TH>Code</TH><TH>Description</TH></TR></THEAD>\n<TBODY>\n"
  }

  /**
   * One element written to a file. Fixed markup is kept as its tag; an
   * element that interpolates values keeps the values: GroupRow is a row
   * of the groups table, FieldRow a row of a field table whose optional
   * parts are present or absent, ListItem a "- " line holding a Markdown
   * link, SampleHeader the bold caption of an example and CodeBlock its
   * fenced text.
   */
  datatype Chunk =
    | Markup(fixed: Fixed)
    | GroupRow(group: string, versions: string)
    | FieldRow(name: string, link: Option<string>, patchStrategy: Option<string>, patchMergeKey: Option<string>, description: string)
    | ListItem(mdLink: string)
    | SampleHeader(caption: string)
    | CodeBlock(lang: string, text: string)
    | ParamsHeading(title: string)
    | ParamRow(name: string, link: Option<string>, description: string)
    | ResponseRow(name: string, link: Option<string>, description: string)

  /** Extension */
  const Extension: string := ".md"

  /** DefaultStaticContent: a level-2 heading holding the title, which reads back from the page. */
  function DefaultStaticContent(title: string): (r: string)
    ensures 5 <= |r| && r[3..|r| - 2] == title
  {
    "## " + title + "\n\n"
  }

  // ---------------------------------------------------------------------
  // Table-of-contents items

  function OverviewItem(sectionsDir: string): TocItem
  {
    TocItem(1, "Overview", "overview", PathJoin(sectionsDir, "overview.md"), [])
  }

  function GroupVersionsItem(): TocItem
  {
    TocItem(1, "API Groups", "api-groups", "group_versions.md", [])
  }

  function CategorySection(sectionsDir: string, name: string, file: string): TocItem
  {
    TocItem(1, ToUpper(name), Slug(name), PathJoin(sectionsDir, file + ".md"), [])
  }

  function DefinitionsItem(): TocItem
  {
    TocItem(1, "DEFINITIONS", "definitions", "definitions.md", [])
  }

  function OldVersionsItem(): TocItem
  {
    TocItem(1, "Old API Versions", "old-versions", "oldversions.md", [])
  }

  /** "Name (Group/Version)", the heading of a definition or a resource. */
  function Heading(name: string, d: Definition): string
  {
    name + " (" + d.groupDisplayName + "/" + d.version + ")"
  }

  function DefinitionItem(d: Definition): TocItem
  {
    TocItem(2, Heading(d.name, d), GetLink(Heading(d.name, d)), MarkdownFileName(d), [])
  }

  /** The section for a resource, with its operation categories and operations below it. */
  function ResourceItem(name: string, d: Definition): TocItem
  {
    TocItem(1, Heading(name, d), GetLink(Heading(name, d)), MarkdownFileName(d),
      CategoryItems(Markdown, d.operationCategories, d.linkId))
  }

  /**
   * A category section is titled by the name in capitals and linked by
   * its slug: lower case, spaces turned into dashes, the same length, no
   * "-strong-" markers around it.
   */
  lemma CategorySectionNames(sectionsDir: string, name: string, file: string)
    ensures |CategorySection(sectionsDir, name, file).title| == |name|
    ensures forall i :: 0 <= i < |name| ==> !IsLowerAscii(CategorySection(sectionsDir, name, file).title[i])
    ensures var l := CategorySection(sectionsDir, name, file).link;
      |l| == |name| && ' ' !in l && forall i :: 0 <= i < |l| ==> !IsUpperAscii(l[i])
  {
  }

  /**
   * A definition's entry: a level-2 leaf titled "Name (Group/Version)",
   * linked by the link of that title (no dots, no spaces, the same length),
   * in a file named after the definition with up to 50 of its name's dots
   * turned into dashes.
   */
  lemma DefinitionItemNames(d: Definition)
    ensures Leaf(DefinitionItem(d))
    ensures DefinitionItem(d).title == d.name + " (" + d.groupDisplayName + "/" + d.version + ")"
    ensures |DefinitionItem(d).link| == |DefinitionItem(d).title|
    ensures '.' !in DefinitionItem(d).link && ' ' !in DefinitionItem(d).link
    ensures DefinitionItem(d).file == NameStem(d.name, '-') + "-" + d.version + "-" + d.group + ".md"
    ensures Count(d.name, '.') <= 50 ==> '.' !in NameStem(d.name, '-')
  {
    GetLinkClean(Heading(d.name, d));
    NameStemDots(d.name, '-');
  }

  /**
   * The category anchors differ from the TeX writer's: the slug of the
   * name, a dash and the definition's link id, without markers.
   */
  lemma CategoryAnchors(c: OperationCategory, linkId: string)
    ensures CategoryItem(Markdown, c, linkId).link == Slug(c.name) + "-" + linkId
    ensures CategoryItem(Markdown, c, linkId).link == OperationLink(c.name, linkId)
    ensures CategoryItem(TeX, c, linkId).link == "-strong-" + CategoryItem(Markdown, c, linkId).link + "-strong-"
  {
  }

  // ---------------------------------------------------------------------
  // The writer

  class MarkdownWriter {
    const config: Config
    const copyright: string
    const title: string
    /** api.SectionsDir */
    const sectionsDir: string
    /** TOC.Sections */
    var sections: seq<TocItem>
    /** CurrentSection, as an index into `sections`; -1 while it is nil. */
    var current: int

    /** CurrentSection is always the last section, and the table is at most three deep. */
    ghost predicate Valid()
      reads this
    {
      current == |sections| - 1 && Shaped(sections)
    }

    /** NewMarkdownWriter */
    constructor (config: Config, copyright: string, title: string, sectionsDir: string)
      ensures Valid()
      ensures this.config == config && this.copyright == copyright && this.title == title && this.sectionsDir == sectionsDir
      ensures sections == [] && current == -1
    {
      this.config := config;
      this.copyright := copyright;
      this.title := title;
      this.sectionsDir := sectionsDir;
      sections := [];
      current := -1;
    }

    /** Adds one level-1 section at the end and makes it current. */
    method AddSection(item: TocItem)
      requires Valid() && Section(item)
      modifies this
      ensures Valid()
      ensures sections == old(sections) + [item] && current == |old(sections)|
    {
      sections := sections + [item];
      current := |sections| - 1;
    }

    method WriteOverview()
      requires Valid()
      modifies this
      ensures Valid()
      ensures sections == old(sections) + [OverviewItem(sectionsDir)] && current == |old(sections)|
    {
      var fn := PathJoin(sectionsDir, "overview.md");
      AddSection(TocItem(1, "Overview", "overview", fn, []));
    }

    /**
     * Writes the groups page (one row per group, in the sorted order of
     * the groups, each listing the group's versions sorted and joined by
     * ", ") and adds its section. `groups` stands for the map's keys after
     * sort.Sort, `sortVersions` for the sort of one version list.
     */
    method WriteAPIGroupVersions(out: Sink<Chunk>, gvs: map<string, seq<string>>, groups: seq<string>,
                                 sortVersions: seq<string> -> seq<string>)
      requires Valid() && GroupOrder(gvs, groups)
      modifies this, out
      ensures Valid()
      ensures sections == old(sections) + [GroupVersionsItem()] && current == |old(sections)|
      ensures out.chunks == old(out.chunks) + GroupVersionsPage(gvs, groups, sortVersions)
    {
      ghost var start := out.chunks;
      out.Write(Markup(GroupsFrontMatter));
      out.Write(Markup(GroupsIntro));
      out.Write(Markup(GroupsTableHead));
      assert out.chunks == start + [Markup(GroupsFrontMatter), Markup(GroupsIntro), Markup(GroupsTableHead)];
      WriteGroupRows(out, gvs, groups, sortVersions);
      out.Write(Markup(GroupsTableClose));
      AppendThree(start, [Markup(GroupsFrontMatter), Markup(GroupsIntro), Markup(GroupsTableHead)], GroupRows(gvs, groups, sortVersions),
        [Markup(GroupsTableClose)]);
      AddSection(TocItem(1, "API Groups", "api-groups", "group_versions.md", []));
    }

    method WriteResourceCategory(name: string, file: string)
      requires Valid()
      modifies this
      ensures Valid()
      ensures sections == old(sections) + [CategorySection(sectionsDir, name, file)] && current == |old(sections)|
    {
      var fn := PathJoin(sectionsDir, file + ".md");
      var link := ReplaceChar(ToLower(name), ' ', '-');
      AddSection(TocItem(1, ToUpper(name), link, fn, []));
    }

    method WriteDefinitionsOverview()
      requires Valid()
      modifies this
      ensures Valid()
      ensures sections == old(sections) + [DefinitionsItem()] && current == |old(sections)|
    {
      AddSection(DefinitionsItem());
    }

    method WriteOldVersionsOverview()
      requires Valid()
      modifies this
      ensures Valid()
      ensures sections == old(sections) + [OldVersionsItem()] && current == |old(sections)|
    {
      AddSection(OldVersionsItem());
    }

    /**
     * Adds the definition's entry under the current section; the number of
     * sections and every other section stay as they were. The source
     * dereferences CurrentSection, so there must be one.
     */
    method WriteDefinition(d: Definition)
      requires Valid() && current >= 0
      modifies this
      ensures Valid() && current == old(current)
      ensures sections == old(sections)[..current]
        + [old(sections)[current].(subSections := old(sections)[current].subSections + [DefinitionItem(d)])]
    {
      var defname := ToLower(ReplaceFirst(d.name, '.', '-', 50));
      var fn := defname + "-" + d.version + "-" + d.group + ".md";
      var nvg := d.name + " (" + d.groupDisplayName + "/" + d.version + ")";
      var linkID := GetLink(nvg);
      var item := TocItem(2, nvg, linkID, fn, []);
      sections := WithSubSections(sections, current, sections[current].subSections + [item]);
      assert sections == old(sections)[..current] + [sections[current]];
    }

    /**
     * Adds the resource's section at the end and makes it current; below it
     * one item per non-empty operation category, below each category one
     * item per operation. The source dereferences r.Definition, so it must
     * not be nil.
     */
    method WriteResource(r: Resource)
      requires Valid() && r.definition.Some?
      modifies this
      ensures Valid()
      ensures sections == old(sections) + [ResourceItem(r.name, r.definition.value)] && current == |old(sections)|
    {
      var d := r.definition.value;
      var defname := ToLower(ReplaceFirst(d.name, '.', '-', 50));
      var fn := defname + "-" + d.version + "-" + d.group + ".md";
      var dvg := r.name + " (" + d.groupDisplayName + "/" + d.version + ")";
      var linkID := GetLink(dvg);
      ghost var before := sections;
      sections := sections + [TocItem(1, dvg, linkID, fn, [])];
      current := |sections| - 1;
      CategoryItemsShaped(Markdown, d.operationCategories, d.linkId);
      if |d.operationCategories| == 0 {
        return;
      }
      var cats := d.operationCategories;
      var i := 0;
      while i < |cats|
        invariant 0 <= i <= |cats|
        invariant current == |before|
        invariant sections == before + [TocItem(1, dvg, linkID, fn, CategoryItems(Markdown, cats[..i], d.linkId))]
      {
        var c := cats[i];
        CategoryItemsPrefix(Markdown, cats, i, d.linkId);
        if |c.operations| == 0 {
          i := i + 1;
          continue;
        }
        AddCategoryItem(c, d.linkId);
        i := i + 1;
      }
      assert cats[..i] == cats;
    }

    /**
     * The body of WriteResource's loop for a category with operations: its
     * item, with one item per operation below it, is appended to the
     * current section.
     */
    method AddCategoryItem(c: OperationCategory, linkId: string)
      requires 0 <= current == |sections| - 1
      modifies this
      ensures current == old(current)
      ensures sections == old(sections)[..current]
        + [old(sections)[current].(subSections := old(sections)[current].subSections + [CategoryItem(Markdown, c, linkId)])]
    {
      ghost var sec0 := sections[current];
      ghost var init := sections[..current];
      var catID := ReplaceChar(ToLower(c.name), ' ', '-') + "-" + linkId;
      var ocItem := TocItem(2, c.name, catID, "", []);
      sections := WithSubSections(sections, current, sections[current].subSections + [ocItem]);
      assert sections == init + [sec0.(subSections := sec0.subSections + [ocItem])];
      AddOperationItems(c.operations, linkId);
      AppendToLastSubOfAppended(sec0.(subSections := sec0.subSections + [ocItem]), OperationItems(c.operations, linkId));
      assert [] + OperationItems(c.operations, linkId) == OperationItems(c.operations, linkId);
      assert (sec0.subSections + [ocItem])[..|sec0.subSections|] == sec0.subSections;
      assert catID == CategoryLink(Markdown, c.name, linkId);
    }

    /**
     * The loop over one category's operations in WriteResource: each
     * operation's item is appended below the category item last added to
     * the current section.
     */
    method AddOperationItems(ops: seq<Operation>, linkId: string)
      requires 0 <= current == |sections| - 1 && |sections[current].subSections| > 0
      modifies this
      ensures current == old(current)
      ensures sections == old(sections)[..current] + [AppendToLastSub(old(sections)[current], OperationItems(ops, linkId))]
    {
      ghost var sec0 := sections[current];
      ghost var init := sections[..current];
      assert sections == init + [AppendToLastSub(sec0, [])] by {
        AppendToLastSubNothing(sec0);
      }
      var j := 0;
      while j < |ops|
        invariant 0 <= j <= |ops|
        invariant current == old(current)
        invariant sections == init + [AppendToLastSub(sec0, OperationItems(ops[..j], linkId))]
      {
        var o := ops[j];
        var opID := ReplaceChar(ToLower(o.typeName), ' ', '-') + "-" + linkId;
        var opItem := TocItem(2, o.typeName, opID, "", []);
        var sec := sections[current];
        var k := |sec.subSections| - 1;
        var oc := sec.subSections[k];
        sections := WithSubSections(sections, current, sec.subSections[k := oc.(subSections := oc.subSections + [opItem])]);
        assert ops[..j + 1] == ops[..j] + [o];
        assert opItem == OperationItem(o, linkId);
        assert OperationItems(ops[..j + 1], linkId) == OperationItems(ops[..j], linkId) + [opItem];
        AppendToLastSubTwice(sec0, OperationItems(ops[..j], linkId), [opItem]);
        assert sections == init + [sections[current]];
        j := j + 1;
      }
      assert ops[..j] == ops;
    }

    /**
     * Finalize: the text of _index.md, or None where the source panics
     * because the spec version has no dot after its first character.
     * `index` is the content of index.md under the sections directory (None
     * when it cannot be read) and `timestamp` the formatted time.
     */
    method Finalize(index: Option<string>, timestamp: string) returns (r: Option<string>)
      ensures r == IndexPage(index, timestamp, config.specVersion)
    {
      var buf := "";
      if index.Some? {
        buf := buf + index.value;
      }
      assert buf == IndexTemplate(index);
      buf := ReplaceAll(buf, "TIMESTAMP", timestamp);
      var pos := LastIndex(config.specVersion, '.');
      if pos < 1 {
        return None;
      }
      var release := config.specVersion[1..pos];
      buf := ReplaceAll(buf, "RELEASE", release);
      return Some(buf);
    }
  }

  // ---------------------------------------------------------------------
  // The groups page

  /** `groups` lists every key of `gvs` once: the order sort.Sort leaves them in. */
  ghost predicate GroupOrder(gvs: map<string, seq<string>>, groups: seq<string>)
  {
    && (forall i, j :: 0 <= i < j < |groups| ==> groups[i] != groups[j])
    && (forall g :: g in gvs <==> g in groups)
  }

  function GroupRowOf(gvs: map<string, seq<string>>, group: string, sortVersions: seq<string> -> seq<string>): Chunk
    requires group in gvs
  {
    GroupRow(group, Join(sortVersions(gvs[group]), ", "))
  }

  /** The rows of the groups table, built in the order of the loop over the groups. */
  function GroupRows(gvs: map<string, seq<string>>, groups: seq<string>, sortVersions: seq<string> -> seq<string>): (r: seq<Chunk>)
    requires forall g :: g in groups ==> g in gvs
    ensures |r| == |groups|
    ensures forall i :: 0 <= i < |groups| ==> r[i] == GroupRowOf(gvs, groups[i], sortVersions)
  {
    if groups == [] then []
    else GroupRows(gvs, groups[..|groups| - 1], sortVersions) + [GroupRowOf(gvs, groups[|groups| - 1], sortVersions)]
  }

  lemma GroupRowsPrefix(gvs: map<string, seq<string>>, groups: seq<string>, sortVersions: seq<string> -> seq<string>, i: nat)
    requires forall g :: g in groups ==> g in gvs
    requires i < |groups|
    ensures GroupRows(gvs, groups[..i + 1], sortVersions) == GroupRows(gvs, groups[..i], sortVersions) + [GroupRowOf(gvs, groups[i], sortVersions)]
  {
    assert groups[..i + 1][..i] == groups[..i];
  }

  /** The loop of WriteAPIGroupVersions over the sorted groups. */
  method WriteGroupRows(out: Sink<Chunk>, gvs: map<string, seq<string>>, groups: seq<string>, sortVersions: seq<string> -> seq<string>)
    requires forall g :: g in groups ==> g in gvs
    modifies out
    ensures out.chunks == old(out.chunks) + GroupRows(gvs, groups, sortVersions)
  {
    var i := 0;
    while i < |groups|
      invariant 0 <= i <= |groups|
      invariant out.chunks == old(out.chunks) + GroupRows(gvs, groups[..i], sortVersions)
    {
      var group := groups[i];
      var versions := sortVersions(gvs[group]);
      out.Write(GroupRow(group, Join(versions, ", ")));
      GroupRowsPrefix(gvs, groups, sortVersions, i);
      AppendTwo(old(out.chunks), GroupRows(gvs, groups[..i], sortVersions), [GroupRowOf(gvs, group, sortVersions)]);
      i := i + 1;
    }
    assert groups[..i] == groups;
  }

  /** The groups page: fixed text, then one row per group in the given order, then fixed text. */
  function GroupVersionsPage(gvs: map<string, seq<string>>, groups: seq<string>, sortVersions: seq<string> -> seq<string>): (r: seq<Chunk>)
    requires GroupOrder(gvs, groups)
    ensures |r| == |groups| + 4
    ensures r[..3] == [Markup(GroupsFrontMatter), Markup(GroupsIntro), Markup(GroupsTableHead)]
    ensures r[3..|r| - 1] == GroupRows(gvs, groups, sortVersions)
    ensures r[|r| - 1] == Markup(GroupsTableClose)
  {
    [Markup(GroupsFrontMatter), Markup(GroupsIntro), Markup(GroupsTableHead)] + GroupRows(gvs, groups, sortVersions) + [Markup(GroupsTableClose)]
  }

  /**
   * The groups table has exactly one row per group of the map: every
   * group has a row, and no two rows are for the same group.
   */
  lemma GroupRowsOnePerGroup(gvs: map<string, seq<string>>, groups: seq<string>, sortVersions: seq<string> -> seq<string>)
    requires GroupOrder(gvs, groups)
    ensures forall g :: g in gvs ==> GroupRowOf(gvs, g, sortVersions) in GroupRows(gvs, groups, sortVersions)
    ensures forall i, j :: 0 <= i < j < |groups| ==>
      GroupRows(gvs, groups, sortVersions)[i].group != GroupRows(gvs, groups, sortVersions)[j].group
  {
    forall g | g in gvs
      ensures GroupRowOf(gvs, g, sortVersions) in GroupRows(gvs, groups, sortVersions)
    {
      var i :| 0 <= i < |groups| && groups[i] == g;
      assert GroupRows(gvs, groups, sortVersions)[i] == GroupRowOf(gvs, g, sortVersions);
    }
  }

  /** sort.Sort on one version list: the versions come back reordered, none lost or added. */
  ghost predicate SortsVersions(sortVersions: seq<string> -> seq<string>)
  {
    forall vs :: multiset(sortVersions(vs)) == multiset(vs)
  }

  /**
   * The i-th row of the groups table is the i-th group with its own
   * versions, in the sort's order, joined by ", ".
   */
  lemma GroupRowListsVersions(gvs: map<string, seq<string>>, groups: seq<string>, sortVersions: seq<string> -> seq<string>, i: nat)
    requires GroupOrder(gvs, groups) && SortsVersions(sortVersions) && i < |groups|
    ensures exists vs ::
              && multiset(vs) == multiset(gvs[groups[i]])
              && GroupRows(gvs, groups, sortVersions)[i] == GroupRow(groups[i], Join(vs, ", "))
  {
    var vs := sortVersions(gvs[groups[i]]);
    assert GroupRows(gvs, groups, sortVersions)[i] == GroupRow(groups[i], Join(vs, ", "));
  }

  // ---------------------------------------------------------------------
  // writeFields

  /** A field row: its link, patch strategy and patch merge key appear only when not empty. */
  function FieldRowOf(f: Field): (r: Chunk)
    ensures r.FieldRow? && r.name == f.name && r.description == f.descriptionWithEntities
    ensures r.link.Some? <==> f.link != ""
    ensures r.patchStrategy.Some? <==> f.patchStrategy != ""
    ensures r.patchMergeKey.Some? <==> f.patchMergeKey != ""
    ensures r.link.Some? ==> r.link.value == f.link
    ensures r.patchStrategy.Some? ==> r.patchStrategy.value == f.patchStrategy
    ensures r.patchMergeKey.Some? ==> r.patchMergeKey.value == f.patchMergeKey
  {
    FieldRow(f.name,
      if f.link != "" then Some(f.link) else None,
      if f.patchStrategy != "" then Some(f.patchStrategy) else None,
      if f.patchMergeKey != "" then Some(f.patchMergeKey) else None,
      f.descriptionWithEntities)
  }

  function FieldRows(fs: seq<Field>): (r: seq<Chunk>)
    ensures |r| == |fs|
    ensures forall i :: 0 <= i < |fs| ==> r[i] == FieldRowOf(fs[i])
  {
    if fs == [] then [] else FieldRows(fs[..|fs| - 1]) + [FieldRowOf(fs[|fs| - 1])]
  }

  /** The field table: the two header lines, then exactly one row per field, in order. */
  function FieldsTable(fs: seq<Field>): (r: seq<Chunk>)
    ensures |r| == |fs| + 1 && r[0] == Markup(FieldsHeader)
    ensures forall i :: 0 <= i < |fs| ==> r[i + 1] == FieldRowOf(fs[i])
  {
    [Markup(FieldsHeader)] + FieldRows(fs)
  }

  lemma FieldRowsPrefix(fs: seq<Field>, i: nat)
    requires i < |fs|
    ensures FieldRows(fs[..i + 1]) == FieldRows(fs[..i]) + [FieldRowOf(fs[i])]
  {
    assert fs[..i + 1][..i] == fs[..i];
  }

  method WriteFields(w: Sink<Chunk>, d: Definition)
    modifies w
    ensures w.chunks == old(w.chunks) + FieldsTable(d.fields)
  {
    w.Write(Markup(FieldsHeader));
    WriteFieldRows(w, d.fields);
    AppendTwo(old(w.chunks), [Markup(FieldsHeader)], FieldRows(d.fields));
  }

  /** The loop of writeFields: one row per field. */
  method WriteFieldRows(w: Sink<Chunk>, fields: seq<Field>)
    modifies w
    ensures w.chunks == old(w.chunks) + FieldRows(fields)
  {
    var i := 0;
    while i < |fields|
      invariant 0 <= i <= |fields|
      invariant w.chunks == old(w.chunks) + FieldRows(fields[..i])
    {
      var field := fields[i];
      var link := if field.link != "" then Some(field.link) else None;
      var strategy := if field.patchStrategy != "" then Some(field.patchStrategy) else None;
      var mergeKey := if field.patchMergeKey != "" then Some(field.patchMergeKey) else None;
      w.Write(FieldRow(field.name, link, strategy, mergeKey, field.descriptionWithEntities));
      FieldRowsPrefix(fields, i);
      AppendTwo(old(w.chunks), FieldRows(fields[..i]), [FieldRowOf(field)]);
      i := i + 1;
    }
    assert fields[..i] == fields;
  }

  // ---------------------------------------------------------------------
  // writeOtherVersions and writeAppearsIn

  function LinkItems(refs: seq<DefinitionLink>): (r: seq<Chunk>)
    ensures |r| == |refs|
    ensures forall i :: 0 <= i < |refs| ==> r[i] == ListItem(refs[i].mdLink)
  {
    if refs == [] then [] else LinkItems(refs[..|refs| - 1]) + [ListItem(refs[|refs| - 1].mdLink)]
  }

  lemma LinkItemsPrefix(refs: seq<DefinitionLink>, i: nat)
    requires i < |refs|
    ensures LinkItems(refs[..i + 1]) == LinkItems(refs[..i]) + [ListItem(refs[i].mdLink)]
  {
    assert refs[..i + 1][..i] == refs[..i];
  }

  /** Nothing without references; otherwise a heading, one item per reference, a blank line. */
  function LinkList(heading: Fixed, refs: seq<DefinitionLink>): (r: seq<Chunk>)
    ensures r == [] <==> refs == []
    ensures refs != [] ==> |r| == |refs| + 2 && r[0] == Markup(heading) && r[1..|r| - 1] == LinkItems(refs)
  {
    if refs == [] then []
    else [Markup(heading)] + LinkItems(refs) + [Markup(ListEnd)]
  }

  /** The loop both list writers share, writing one item per reference. */
  method WriteLinkItems(w: Sink<Chunk>, refs: seq<DefinitionLink>)
    modifies w
    ensures w.chunks == old(w.chunks) + LinkItems(refs)
  {
    var i := 0;
    while i < |refs|
      invariant 0 <= i <= |refs|
      invariant w.chunks == old(w.chunks) + LinkItems(refs[..i])
    {
      w.Write(ListItem(refs[i].mdLink));
      LinkItemsPrefix(refs, i);
      AppendTwo(old(w.chunks), LinkItems(refs[..i]), [ListItem(refs[i].mdLink)]);
      i := i + 1;
    }
    assert refs[..i] == refs;
  }

  method WriteLinkList(w: Sink<Chunk>, heading: Fixed, refs: seq<DefinitionLink>)
    modifies w
    ensures w.chunks == old(w.chunks) + LinkList(heading, refs)
  {
    if |refs| == 0 {
      return;
    }
    w.Write(Markup(heading));
    WriteLinkItems(w, refs);
    w.Write(Markup(ListEnd));
    AppendThree(old(w.chunks), [Markup(heading)], LinkItems(refs), [Markup(ListEnd)]);
  }

  method WriteOtherVersions(w: Sink<Chunk>, d: Definition)
    modifies w
    ensures w.chunks == old(w.chunks) + LinkList(OtherVersionsHeading, d.otherVersions)
  {
    WriteLinkList(w, OtherVersionsHeading, d.otherVersions);
  }

  method WriteAppearsIn(w: Sink<Chunk>, d: Definition)
    modifies w
    ensures w.chunks == old(w.chunks) + LinkList(AppearsInHeading, d.appearsIn)
  {
    WriteLinkList(w, AppearsInHeading, d.appearsIn);
  }

  // ---------------------------------------------------------------------
  // writeOperationSample

  predicate WellFormedExamples(es: seq<ExampleText>)
  {
    forall i :: 0 <= i < |es| ==> WellFormedExample(es[i])
  }

  /** "<tab> request" or "<tab> response", the bold caption of an example. */
  function SampleCaption(req: bool, e: ExampleText): string
    requires TabOk(e)
  {
    ExampleTab(e) + (if req then " request" else " response")
  }

  /** The bold caption and the fenced text of one example. */
  function SampleBlock(req: bool, e: ExampleText): seq<Chunk>
    requires WellFormedExample(e)
  {
    [SampleHeader(SampleCaption(req, e)), CodeBlock(ExampleLang(e), e.text)]
  }

  /**
   * What one turn of the loop writes before it ends or panics: nothing
   * without a tab, only the caption without a language.
   */
  function SampleWritten(req: bool, e: ExampleText): seq<Chunk>
  {
    if WellFormedExample(e) then SampleBlock(req, e)
    else if TabOk(e) then [SampleHeader(SampleCaption(req, e))]
    else []
  }

  function SampleBlocks(req: bool, es: seq<ExampleText>): (r: seq<Chunk>)
    requires WellFormedExamples(es)
    ensures |r| == 2 * |es|
  {
    if es == [] then [] else SampleBlocks(req, es[..|es| - 1]) + SampleBlock(req, es[|es| - 1])
  }

  /**
   * What writeOperationSample writes before it returns or panics: the
   * blocks of the leading well-formed examples, then what the first
   * malformed one gets written before the panic.
   */
  function SampleOutput(req: bool, es: seq<ExampleText>): seq<Chunk>
  {
    var m := LeadingWellFormed(es);
    SampleBlocks(req, es[..m]) + (if m < |es| then SampleWritten(req, es[m]) else [])
  }

  /** Example i gives chunks 2i and 2i + 1: its caption, then its code block. */
  lemma {:induction false} SampleBlocksAt(req: bool, es: seq<ExampleText>)
    requires WellFormedExamples(es)
    ensures forall i :: 0 <= i < |es| ==>
      SampleBlocks(req, es)[2 * i] == SampleHeader(ExampleTab(es[i]) + (if req then " request" else " response"))
      && SampleBlocks(req, es)[2 * i + 1] == CodeBlock(ExampleLang(es[i]), es[i].text)
  {
    if es != [] {
      var n := |es| - 1;
      SampleBlocksAt(req, es[..n]);
      var init := SampleBlocks(req, es[..n]);
      assert SampleBlocks(req, es) == init + SampleBlock(req, es[n]);
      forall i | 0 <= i < |es|
        ensures SampleBlocks(req, es)[2 * i] == SampleHeader(ExampleTab(es[i]) + (if req then " request" else " response"))
        ensures SampleBlocks(req, es)[2 * i + 1] == CodeBlock(ExampleLang(es[i]), es[i].text)
      {
        if i < n {
          assert es[..n][i] == es[i];
        }
      }
    }
  }

  lemma SampleBlocksPrefix(req: bool, es: seq<ExampleText>, i: nat)
    requires i < |es| && WellFormedExamples(es[..i + 1])
    ensures SampleBlocks(req, es[..i + 1]) == SampleBlocks(req, es[..i]) + SampleBlock(req, es[i])
  {
    assert es[..i + 1][..i] == es[..i];
  }

  /**
   * writeOperationSample: per example, a bold "<tab> request example" or
   * "<tab> response example" caption and a code block tagged with the
   * example's language. `completed` is false where the source panics,
   * after the chunks written so far. The operation id is not used.
   */
  method WriteOperationSample(w: Sink<Chunk>, req: bool, op: string, examples: seq<ExampleText>)
    returns (completed: bool)
    modifies w
    ensures completed <==> WellFormedExamples(examples)
    ensures w.chunks == old(w.chunks) + SampleOutput(req, examples)
  {
    var i := 0;
    while i < |examples|
      invariant 0 <= i <= LeadingWellFormed(examples)
      invariant WellFormedExamples(examples[..i])
      invariant w.chunks == old(w.chunks) + SampleBlocks(req, examples[..i])
    {
      var ok := WriteSample(w, req, examples[i]);
      AppendTwo(old(w.chunks), SampleBlocks(req, examples[..i]), SampleWritten(req, examples[i]));
      if !ok {
        SampleOutputStops(req, examples, i);
        return false;
      }
      SampleBlocksStep(req, examples, i);
      i := i + 1;
    }
    assert examples[..i] == examples;
    SampleOutputWellFormed(req, examples);
    return true;
  }

  /** The body of writeOperationSample's loop, for one example. */
  method WriteSample(w: Sink<Chunk>, req: bool, e: ExampleText) returns (ok: bool)
    modifies w
    ensures ok <==> WellFormedExample(e)
    ensures w.chunks == old(w.chunks) + SampleWritten(req, e)
  {
    if !TabOk(e) {
      // strings.Split(e.Tab, ":")[1] is out of range: the program panics
      return false;
    }
    var eType := Split(e.tab, ":")[1];
    var btnText;
    if req {
      btnText := eType + " request";
    } else {
      btnText := eType + " response";
    }
    w.Write(SampleHeader(btnText));
    // The source rewrites the caption here as the TeX writer does, then never uses it.
    if !WellFormedExample(e) {
      // the pieces of e.Type are out of range: the program panics
      return false;
    }
    var lType := Split(e.kind, ":")[1];
    var lang := Split(lType, "_")[1];
    w.Write(CodeBlock(lang, e.text));
    return true;
  }

  /** On well-formed examples nothing panics: the blocks of every example. */
  lemma SampleOutputWellFormed(req: bool, es: seq<ExampleText>)
    requires WellFormedExamples(es)
    ensures SampleOutput(req, es) == SampleBlocks(req, es)
  {
    assert LeadingWellFormed(es) == |es|;
    assert es[..|es|] == es;
  }

  /** A well-formed example extends the output by its two chunks. */
  lemma SampleBlocksStep(req: bool, es: seq<ExampleText>, i: nat)
    requires i < |es| && i <= LeadingWellFormed(es) && WellFormedExample(es[i])
    ensures i + 1 <= LeadingWellFormed(es) && WellFormedExamples(es[..i + 1])
    ensures SampleBlocks(req, es[..i + 1]) == SampleBlocks(req, es[..i]) + SampleWritten(req, es[i])
  {
    assert forall k :: 0 <= k < i + 1 ==> WellFormedExample(es[k]);
    SampleBlocksPrefix(req, es, i);
  }

  /** The first malformed example ends the output, after what it managed to write. */
  lemma SampleOutputStops(req: bool, es: seq<ExampleText>, i: nat)
    requires i < |es| && i <= LeadingWellFormed(es) && !WellFormedExample(es[i])
    ensures i == LeadingWellFormed(es) && !WellFormedExamples(es)
    ensures SampleOutput(req, es) == SampleBlocks(req, es[..i]) + SampleWritten(req, es[i])
  {
  }

  /**
   * The output is complete, two chunks per example, exactly when no
   * example makes the source panic; otherwise it stops short.
   */
  lemma SampleOutputComplete(req: bool, es: seq<ExampleText>)
    ensures |SampleOutput(req, es)| <= 2 * |es|
    ensures |SampleOutput(req, es)| == 2 * |es| <==> WellFormedExamples(es)
  {
    if !WellFormedExamples(es) {
      assert !WellFormedExample(es[LeadingWellFormed(es)]);
    }
  }

  /** Two example lists that differ only in their captions produce the same text. */
  lemma {:induction false} SampleBlocksIgnoreMsg(req: bool, es: seq<ExampleText>, fs: seq<ExampleText>)
    requires WellFormedExamples(es) && |fs| == |es|
    requires forall i :: 0 <= i < |es| ==> fs[i] == es[i].(msg := fs[i].msg)
    ensures WellFormedExamples(fs)
    ensures SampleBlocks(req, fs) == SampleBlocks(req, es)
  {
    if es != [] {
      var n := |es| - 1;
      SampleBlocksIgnoreMsg(req, es[..n], fs[..n]);
      assert fs[n] == es[n].(msg := fs[n].msg);
    }
  }

  // ---------------------------------------------------------------------
  // writeParams and writeRequestParams

  /** A parameter row; the full link is shown only when the parameter has a link. */
  function ParamRowOf(p: Field): (r: Chunk)
    ensures r.ParamRow? && r.name == p.name && r.description == p.description
    ensures r.link.Some? <==> p.link != ""
    ensures r.link.Some? ==> r.link.value == p.fullLink
  {
    ParamRow(p.name, if p.link != "" then Some(p.fullLink) else None, p.description)
  }

  function ParamRows(ps: seq<Field>): (r: seq<Chunk>)
    ensures |r| == |ps|
    ensures forall i :: 0 <= i < |ps| ==> r[i] == ParamRowOf(ps[i])
  {
    if ps == [] then [] else ParamRows(ps[..|ps| - 1]) + [ParamRowOf(ps[|ps| - 1])]
  }

  /** A titled table with one row per parameter, in order. */
  function ParamsTable(title: string, ps: seq<Field>): (r: seq<Chunk>)
    ensures |r| == |ps| + 3
    ensures r[0] == ParamsHeading(title) && r[1] == Markup(ParamsTableHead) && r[|r| - 1] == Markup(TableClose)
    ensures r[2..|r| - 1] == ParamRows(ps)
  {
    [ParamsHeading(title)] + [Markup(ParamsTableHead)] + ParamRows(ps) + [Markup(TableClose)]
  }

  lemma ParamRowsPrefix(ps: seq<Field>, i: nat)
    requires i < |ps|
    ensures ParamRows(ps[..i + 1]) == ParamRows(ps[..i]) + [ParamRowOf(ps[i])]
  {
    assert ps[..i + 1][..i] == ps[..i];
  }

  method WriteParams(w: Sink<Chunk>, title: string, params: seq<Field>)
    modifies w
    ensures w.chunks == old(w.chunks) + ParamsTable(title, params)
  {
    w.Write(ParamsHeading(title));
    w.Write(Markup(ParamsTableHead));
    WriteParamRows(w, params);
    w.Write(Markup(TableClose));
    AppendFour(old(w.chunks), [ParamsHeading(title)], [Markup(ParamsTableHead)], ParamRows(params), [Markup(TableClose)]);
  }

  /** The loop of writeParams: one row per parameter. */
  method WriteParamRows(w: Sink<Chunk>, params: seq<Field>)
    modifies w
    ensures w.chunks == old(w.chunks) + ParamRows(params)
  {
    var i := 0;
    while i < |params|
      invariant 0 <= i <= |params|
      invariant w.chunks == old(w.chunks) + ParamRows(params[..i])
    {
      var p := params[i];
      var link := if p.link != "" then Some(p.fullLink) else None;
      w.Write(ParamRow(p.name, link, p.description));
      ParamRowsPrefix(params, i);
      AppendTwo(old(w.chunks), ParamRows(params[..i]), [ParamRowOf(p)]);
      i := i + 1;
    }
    assert params[..i] == params;
  }

  /** A table for a group of parameters, only when the group is not empty. */
  function ParamsGroup(title: string, ps: seq<Field>): seq<Chunk>
  {
    if |ps| > 0 then ParamsTable(title, ps) else []
  }

  /** Path, then query, then body parameters. */
  function RequestParams(o: Operation): seq<Chunk>
  {
    ParamsGroup("Path Parameters", o.pathParams) + ParamsGroup("Query Parameters", o.queryParams) + ParamsGroup("Body Parameters", o.bodyParams)
  }

  method WriteRequestParams(w: Sink<Chunk>, o: Operation)
    modifies w
    ensures w.chunks == old(w.chunks) + RequestParams(o)
  {
    ghost var start := w.chunks;
    if |o.pathParams| > 0 {
      WriteParams(w, "Path Parameters", o.pathParams);
    }
    assert w.chunks == start + ParamsGroup("Path Parameters", o.pathParams);
    ghost var afterPath := w.chunks;
    if |o.queryParams| > 0 {
      WriteParams(w, "Query Parameters", o.queryParams);
    }
    assert w.chunks == afterPath + ParamsGroup("Query Parameters", o.queryParams);
    ghost var afterQuery := w.chunks;
    if |o.bodyParams| > 0 {
      WriteParams(w, "Body Parameters", o.bodyParams);
    }
    assert w.chunks == afterQuery + ParamsGroup("Body Parameters", o.bodyParams);
    AppendThree(start, ParamsGroup("Path Parameters", o.pathParams), ParamsGroup("Query Parameters", o.queryParams),
      ParamsGroup("Body Parameters", o.bodyParams));
  }

  /** The table headings among some chunks, in order. */
  function Headings(cs: seq<Chunk>): seq<string>
  {
    if cs == [] then []
    else Headings(cs[..|cs| - 1]) + (if cs[|cs| - 1].ParamsHeading? then [cs[|cs| - 1].title] else [])
  }

  /** The parameter rows among some chunks, in order. */
  function Rows(cs: seq<Chunk>): seq<Chunk>
  {
    if cs == [] then []
    else Rows(cs[..|cs| - 1]) + (if cs[|cs| - 1].ParamRow? then [cs[|cs| - 1]] else [])
  }

  lemma HeadingsRowsAppend(a: seq<Chunk>, b: seq<Chunk>)
    ensures Headings(a + b) == Headings(a) + Headings(b)
    ensures Rows(a + b) == Rows(a) + Rows(b)
  {
    HeadingsAppend(a, b);
    RowsAppend(a, b);
  }

  lemma {:induction false} HeadingsAppend(a: seq<Chunk>, b: seq<Chunk>)
    ensures Headings(a + b) == Headings(a) + Headings(b)
    decreases |b|
  {
    if b == [] {
      assert a + b == a;
    } else {
      var init := b[..|b| - 1];
      HeadingsAppend(a, init);
      assert (a + b)[..|a + b| - 1] == a + init;
    }
  }

  lemma {:induction false} RowsAppend(a: seq<Chunk>, b: seq<Chunk>)
    ensures Rows(a + b) == Rows(a) + Rows(b)
    decreases |b|
  {
    if b == [] {
      assert a + b == a;
    } else {
      var init := b[..|b| - 1];
      RowsAppend(a, init);
      assert (a + b)[..|a + b| - 1] == a + init;
    }
  }

  lemma {:induction false} ParamRowsAreRows(ps: seq<Field>)
    ensures Rows(ParamRows(ps)) == ParamRows(ps)
    ensures Headings(ParamRows(ps)) == []
  {
    if ps != [] {
      var init := ps[..|ps| - 1];
      ParamRowsAreRows(init);
      HeadingsRowsAppend(ParamRows(init), [ParamRowOf(ps[|ps| - 1])]);
      HeadingsRowsSingle(ParamRowOf(ps[|ps| - 1]));
    }
  }

  /** A group contributes its heading and exactly its rows, or nothing at all. */
  lemma HeadingsRowsSingle(c: Chunk)
    ensures Headings([c]) == (if c.ParamsHeading? then [c.title] else [])
    ensures Rows([c]) == (if c.ParamRow? then [c] else [])
  {
    assert [c][..0] == [];
  }

  lemma ParamsGroupParts(title: string, ps: seq<Field>)
    ensures Headings(ParamsGroup(title, ps)) == (if |ps| > 0 then [title] else [])
    ensures Rows(ParamsGroup(title, ps)) == ParamRows(ps)
  {
    if |ps| > 0 {
      var h, m, rows, last := [ParamsHeading(title)], [Markup(ParamsTableHead)], ParamRows(ps), [Markup(TableClose)];
      HeadingsRowsSingle(ParamsHeading(title));
      HeadingsRowsSingle(Markup(ParamsTableHead));
      HeadingsRowsSingle(Markup(TableClose));
      ParamRowsAreRows(ps);
      assert Headings(h + m) == [title] && Rows(h + m) == [] by {
        HeadingsRowsAppend(h, m);
      }
      assert Headings(h + m + rows) == [title] && Rows(h + m + rows) == rows by {
        HeadingsRowsAppend(h + m, rows);
      }
      assert Headings(h + m + rows + last) == [title] && Rows(h + m + rows + last) == rows by {
        HeadingsRowsAppend(h + m + rows, last);
      }
    }
  }

  /**
   * The request parameters of an operation: a table per non-empty group,
   * in the order path, query, body, and every parameter's row once, in
   * that order. An operation without parameters gets nothing; otherwise
   * the output is as long as its tables and starts with the first
   * non-empty group's heading.
   */
  lemma RequestParamsLayout(o: Operation)
    ensures Headings(RequestParams(o)) ==
      (if |o.pathParams| > 0 then ["Path Parameters"] else [])
      + (if |o.queryParams| > 0 then ["Query Parameters"] else [])
      + (if |o.bodyParams| > 0 then ["Body Parameters"] else [])
    ensures Rows(RequestParams(o)) == ParamRows(o.pathParams) + ParamRows(o.queryParams) + ParamRows(o.bodyParams)
    ensures RequestParams(o) == [] <==> o.pathParams == [] && o.queryParams == [] && o.bodyParams == []
    ensures |RequestParams(o)| ==
      (if |o.pathParams| > 0 then |o.pathParams| + 3 else 0)
      + (if |o.queryParams| > 0 then |o.queryParams| + 3 else 0)
      + (if |o.bodyParams| > 0 then |o.bodyParams| + 3 else 0)
    ensures RequestParams(o) != [] ==> (RequestParams(o)[0] ==
      ParamsHeading(if |o.pathParams| > 0 then "Path Parameters" else if |o.queryParams| > 0 then "Query Parameters" else "Body Parameters"))
  {
    var p := ParamsGroup("Path Parameters", o.pathParams);
    var q := ParamsGroup("Query Parameters", o.queryParams);
    var b := ParamsGroup("Body Parameters", o.bodyParams);
    ParamsGroupParts("Path Parameters", o.pathParams);
    ParamsGroupParts("Query Parameters", o.queryParams);
    ParamsGroupParts("Body Parameters", o.bodyParams);
    HeadingsRowsAppend(p + q, b);
    HeadingsRowsAppend(p, q);
  }

  // ---------------------------------------------------------------------
  // writeResponseParams

  /** Adjacent responses are in ascending name order (strings.Compare). */
  predicate SortedByName(rs: seq<HttpResponse>)
  {
    forall k :: 0 <= k < |rs| - 1 ==> LessEq(rs[k].name, rs[k + 1].name)
  }

  /** Sorted adjacent pairs make every pair sorted. */
  lemma {:induction false} SortedByNamePairwise(rs: seq<HttpResponse>)
    requires SortedByName(rs)
    ensures forall i, j :: 0 <= i < j < |rs| ==> LessEq(rs[i].name, rs[j].name)
  {
    if |rs| > 1 {
      var init := rs[..|rs| - 1];
      assert SortedByName(init);
      SortedByNamePairwise(init);
      forall i | 0 <= i < |rs| - 1 ensures LessEq(rs[i].name, rs[|rs| - 1].name) {
        if i < |rs| - 2 {
          assert LessEq(init[i].name, init[|rs| - 2].name);
          LessEqTransitive(rs[i].name, rs[|rs| - 2].name, rs[|rs| - 1].name);
        }
      }
    }
  }

  /** sort.Slice on the responses, comparing names: in place, by insertion. */
  method SortResponses(a: array<HttpResponse>)
    modifies a
    ensures SortedByName(a[..])
    ensures multiset(a[..]) == multiset(old(a[..]))
  {
    if a.Length == 0 {
      return;
    }
    var i := 1;
    while i < a.Length
      invariant 1 <= i <= a.Length
      invariant forall k :: 0 <= k < i - 1 ==> LessEq(a[k].name, a[k + 1].name)
      invariant multiset(a[..]) == multiset(old(a[..]))
    {
      InsertIntoPrefix(a, i);
      i := i + 1;
    }
  }

  /** One pass of the insertion: a[i] moves left until a[..i + 1] is in order. */
  method InsertIntoPrefix(a: array<HttpResponse>, i: int)
    requires 1 <= i < a.Length
    requires forall k :: 0 <= k < i - 1 ==> LessEq(a[k].name, a[k + 1].name)
    modifies a
    ensures forall k :: 0 <= k < i ==> LessEq(a[k].name, a[k + 1].name)
    ensures multiset(a[..]) == multiset(old(a[..]))
  {
    var j := i;
    while j > 0 && Less(a[j].name, a[j - 1].name)
      invariant 0 <= j <= i
      invariant forall k :: 0 <= k < j - 1 ==> LessEq(a[k].name, a[k + 1].name)
      invariant forall k :: j <= k < i ==> LessEq(a[k].name, a[k + 1].name)
      invariant 0 < j < i ==> LessEq(a[j - 1].name, a[j + 1].name)
      invariant multiset(a[..]) == multiset(old(a[..]))
    {
      LessAsymmetric(a[j].name, a[j - 1].name);
      Swap(a, j - 1, j);
      j := j - 1;
    }
  }

  /** Exchanges two elements; nothing else moves. */
  method Swap(a: array<HttpResponse>, p: int, q: int)
    requires 0 <= p < q < a.Length
    modifies a
    ensures a[p] == old(a[q]) && a[q] == old(a[p])
    ensures forall k :: 0 <= k < a.Length && k != p && k != q ==> a[k] == old(a[k])
    ensures multiset(a[..]) == multiset(old(a[..]))
  {
    a[p], a[q] := a[q], a[p];
  }

  function ResponseRowOf(p: HttpResponse): (r: Chunk)
    ensures r.ResponseRow? && r.name == p.name && r.description == p.field.description
    ensures r.link.Some? <==> p.field.link != ""
    ensures r.link.Some? ==> r.link.value == p.field.fullLink
  {
    ResponseRow(p.name, if p.field.link != "" then Some(p.field.fullLink) else None, p.field.description)
  }

  function ResponseRows(rs: seq<HttpResponse>): (r: seq<Chunk>)
    ensures |r| == |rs|
    ensures forall i :: 0 <= i < |rs| ==> r[i] == ResponseRowOf(rs[i])
  {
    if rs == [] then [] else ResponseRows(rs[..|rs| - 1]) + [ResponseRowOf(rs[|rs| - 1])]
  }

  /** Nothing without responses; otherwise a table with one row per response, in the given order. */
  function ResponseParams(rs: seq<HttpResponse>): (r: seq<Chunk>)
    ensures r == [] <==> rs == []
    ensures rs != [] ==> |r| == |rs| + 3 && r[2..|r| - 1] == ResponseRows(rs)
  {
    if rs == [] then []
    else [Markup(ResponseHeading)] + [Markup(ResponseTableHead)] + ResponseRows(rs) + [Markup(TableClose)]
  }

  /**
   * Nothing for an operation without responses. Otherwise the responses,
   * which `responses` holds as o.HttpResponses does, are sorted by name in
   * place, and the table lists one row per response in that order.
   */
  method WriteResponseParams(w: Sink<Chunk>, responses: array<HttpResponse>)
    modifies w, responses
    ensures responses.Length == 0 ==> w.chunks == old(w.chunks)
    ensures SortedByName(responses[..])
    ensures multiset(responses[..]) == multiset(old(responses[..]))
    ensures w.chunks == old(w.chunks) + ResponseParams(responses[..])
  {
    if responses.Length == 0 {
      return;
    }
    w.Write(Markup(ResponseHeading));
    w.Write(Markup(ResponseTableHead));
    SortResponses(responses);
    WriteResponseRows(w, responses);
    w.Write(Markup(TableClose));
    AppendFour(old(w.chunks), [Markup(ResponseHeading)], [Markup(ResponseTableHead)], ResponseRows(responses[..]), [Markup(TableClose)]);
  }

  lemma ResponseRowsPrefix(rs: seq<HttpResponse>, i: nat)
    requires i < |rs|
    ensures ResponseRows(rs[..i + 1]) == ResponseRows(rs[..i]) + [ResponseRowOf(rs[i])]
  {
    assert rs[..i + 1][..i] == rs[..i];
  }

  /** The loop of writeResponseParams: one row per response, in the array's order. */
  method WriteResponseRows(w: Sink<Chunk>, responses: array<HttpResponse>)
    modifies w
    ensures w.chunks == old(w.chunks) + ResponseRows(responses[..])
  {
    var i := 0;
    while i < responses.Length
      invariant 0 <= i <= responses.Length
      invariant w.chunks == old(w.chunks) + ResponseRows(responses[..i])
    {
      var p := responses[i];
      var link := if p.field.link != "" then Some(p.field.fullLink) else None;
      w.Write(ResponseRow(p.name, link, p.field.description));
      ResponseRowsPrefix(responses[..], i);
      assert responses[..][..i + 1] == responses[..i + 1] && responses[..][..i] == responses[..i];
      AppendTwo(old(w.chunks), ResponseRows(responses[..i]), [ResponseRowOf(p)]);
      i := i + 1;
    }
    assert responses[..i] == responses[..];
  }

  /** The rows of a sorted response table are in ascending name order, whatever two rows are compared. */
  lemma ResponseRowsAscending(rs: seq<HttpResponse>)
    requires SortedByName(rs)
    ensures forall i, j :: 0 <= i < j < |rs| ==> LessEq(ResponseRows(rs)[i].name, ResponseRows(rs)[j].name)
  {
    SortedByNamePairwise(rs);
  }

  // ---------------------------------------------------------------------
  // Finalize

  /**
   * The release: the spec version from its second character up to, not
   * including, its last dot. None where the slice would panic, that is
   * where no dot follows the first character.
   */
  function Release(specVersion: string): (r: Option<string>)
    ensures r.Some? <==> LastIndex(specVersion, '.') >= 1
    ensures r.Some? ==> (
      && |r.value| + 1 < |specVersion|
      && specVersion[1..|r.value| + 1] == r.value
      && specVersion[|r.value| + 1] == '.'
      && '.' !in specVersion[|r.value| + 2..])
  {
    var pos := LastIndex(specVersion, '.');
    if pos < 1 then None else Some(specVersion[1..pos])
  }

  /** A version written as a prefix character, the release, a dot and a dot-free tail gives back that release. */
  lemma ReleaseOf(v: char, release: string, tail: string)
    requires '.' !in tail
    ensures Release([v] + release + "." + tail) == Some(release)
  {
    var s := [v] + release + "." + tail;
    var p := |release| + 1;
    assert s[p] == '.';
    assert forall j :: p < j < |s| ==> s[j] == tail[j - p - 1];
    assert LastIndex(s, '.') == p;
    assert s[1..p] == release;
  }

  /** For example "v1.10.0" gives "1.10". */
  lemma ReleaseExample(specVersion: string)
    requires specVersion == "v1.10.0"
    ensures Release(specVersion) == Some("1.10")
  {
    assert specVersion == ['v'] + "1.10" + "." + "0";
    ReleaseOf('v', "1.10", "0");
  }

  /** The text index.md holds, or nothing when it cannot be read. */
  function IndexTemplate(index: Option<string>): string
  {
    if index.Some? then index.value else ""
  }

  /** The index page: every TIMESTAMP and every RELEASE replaced; None where the release cannot be taken. */
  function IndexPage(index: Option<string>, timestamp: string, specVersion: string): Option<string>
  {
    var buf := ReplaceAll(IndexTemplate(index), "TIMESTAMP", timestamp);
    match Release(specVersion)
    case None => None
    case Some(release) => Some(ReplaceAll(buf, "RELEASE", release))
  }

  /**
   * The page exists exactly when the release can be taken; it is then the
   * template cut at every TIMESTAMP, joined with the time, cut at every
   * RELEASE and joined with the release, and no piece between the joins
   * holds a placeholder.
   */
  lemma IndexPagePlaceholders(index: Option<string>, timestamp: string, specVersion: string)
    ensures IndexPage(index, timestamp, specVersion).Some? <==> Release(specVersion).Some?
    ensures Release(specVersion).Some? ==>
      var stamped := Join(Split(IndexTemplate(index), "TIMESTAMP"), timestamp);
      && IndexPage(index, timestamp, specVersion).value == Join(Split(stamped, "RELEASE"), Release(specVersion).value)
      && (forall i :: 0 <= i < |Split(IndexTemplate(index), "TIMESTAMP")| ==> !Contains(Split(IndexTemplate(index), "TIMESTAMP")[i], "TIMESTAMP"))
      && (forall i :: 0 <= i < |Split(stamped, "RELEASE")| ==> !Contains(Split(stamped, "RELEASE")[i], "RELEASE"))
  {
    var t := IndexTemplate(index);
    ReplaceAllIsSplitJoin(t, "TIMESTAMP", timestamp);
    SplitPiecesFree(t, "TIMESTAMP");
    var stamped := ReplaceAll(t, "TIMESTAMP", timestamp);
    ReplaceAllIsSplitJoin(stamped, "RELEASE", if Release(specVersion).Some? then Release(specVersion).value else "");
    SplitPiecesFree(stamped, "RELEASE");
  }

  /** A template without placeholders is copied unchanged, and a missing index.md gives an empty page. */
  lemma IndexPageWithoutPlaceholders(index: Option<string>, timestamp: string, specVersion: string)
    requires Release(specVersion).Some?
    requires !Contains(IndexTemplate(index), "TIMESTAMP") && !Contains(IndexTemplate(index), "RELEASE")
    ensures IndexPage(index, timestamp, specVersion) == Some(IndexTemplate(index))
    ensures index.None? ==> IndexPage(index, timestamp, specVersion) == Some("")
  {
    var t := IndexTemplate(index);
    ReplaceAllAbsent(t, "TIMESTAMP", timestamp);
    ReplaceAllAbsent(t, "RELEASE", Release(specVersion).value);
  }
}
