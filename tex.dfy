/**
 * The LaTeX writer (TexWriter, gen-apidocs/generators/tex.go): its table
 * of contents, the master document it assembles from that table, and the
 * helpers that write example buttons, version lists and parameter tables.
 */
module Tex {
  import opened Text
  import opened Api
  import opened Naming
  import opened Toc
  import opened Output
  import opened Wrappers

  /** The fixed pieces of markup the writer emits, each standing for its text. */
  datatype Fixed =
    | DocumentClass
    | PackageInclude
    | FormatInclude
    | BeginDocument
    | FrontMatter
    | Author
    | MakeTitle
    | TableOfContents
    | NewPage
    | MainMatter
    | EndDocument
    | OtherVersionsOpen
    | OtherVersionsClose
    | AppearsInOpen
    | AppearsInClose
    | ParamsTableHead
    | TableClose
    | ResponseHeading
    | ResponseTableHead

  /** The text of each fixed piece, byte for byte. */
  function FixedText(f: Fixed): string
  {
    match f
    case DocumentClass => "\\documentclass[10pt,a4paper]{book}\n"
    case PackageInclude => "\\include{static_includes/package}\n"
    case FormatInclude => "\\include{static_includes/format}\n"
    case BeginDocument => "\\begin{document}\n"
    case FrontMatter => "\n\\frontmatter\n"
    case Author => "\\author{Kubernetes Team}\n"
    case MakeTitle => "\\maketitle\n\n"
    case TableOfContents => "\\tableofcontents\n\n"
    case NewPage => "\\newpage\n\n"
    case MainMatter => "\\mainmatter\n\n"
    case EndDocument => "\\end{document}\n"
    case OtherVersionsOpen => "Other API versions of this object exist:\n\\begin{itemize}\n"
    case OtherVersionsClose => "\\end{itemize}"
    case AppearsInOpen => "Appears In:\n\n \\begin{itemize}\n"
    case AppearsInClose => " \\end{itemize}\n\n"
    case ParamsTableHead => "<TABLE>\n<THEAD><TR><TH>Parameter</TH><TH>Description</TH></TR></THEAD>\n<TBODY>\n"
    case TableClose => "</TBODY>\n</TABLE>\n"
    case ResponseHeading => "<H3>Response</H3>\n"
    case ResponseTableHead => "<TABLE>\n<THEAD><TR><TH>Code</TH><TH>Description</TH></TR></THEAD>\n<TBODY>\n"
  }

  /**
   * One element written to a file. Fixed markup is kept as its tag
   * (FixedText gives its text); an element that interpolates values keeps
   * the values: Button stands for the three lines of a collapse button,
   * Panel for the collapsible panel holding an example, ParamRow and
   * ResponseRow for a table row whose link part is present or absent,
   * DocumentTitle for \title{...} and Include for \include{includes/...}.
   */
  datatype Chunk =
    | Markup(fixed: Fixed)
    | Button(target: string, caption: string)
    | Panel(id: string, heading: string, tab: string, lang: string, body: string)
    | VersionItem(href: string, text: string)
    | AppearsInItem(href: string, text: string)
    | ParamsHeading(title: string)
    | ParamRow(name: string, link: Option<string>, description: string)
    | ResponseRow(name: string, link: Option<string>, description: string)
    | DocumentTitle(title: string)
    | Include(file: string)

  // ---------------------------------------------------------------------
  // Table-of-contents items

  function OverviewItem(): TocItem
  {
    TocItem(1, "Overview", "-strong-api-overview-strong-", "_overview.tex", [])
  }

  function CategorySection(name: string, file: string): TocItem
  {
    TocItem(1, ToUpper(name), StrongLink(name), file + ".tex", [])
  }

  function DefinitionsItem(): TocItem
  {
    TocItem(1, "DEFINITIONS", "-strong-definitions-strong-", "_definitions.tex", [])
  }

  function OldVersionsItem(): TocItem
  {
    TocItem(1, "OLD API VERSIONS", "-strong-old-api-versions-strong-", "_oldversions.tex", [])
  }

  /** "Name Version Group", the heading of a definition. */
  function DefinitionTitle(d: Definition): string
  {
    d.name + " " + d.version + " " + d.groupDisplayName
  }

  function DefinitionItem(d: Definition): TocItem
  {
    TocItem(2, DefinitionTitle(d), GetLink(DefinitionTitle(d)), "_" + DefinitionFileName(d) + ".tex", [])
  }

  /** The heading of a resource: its own name with the definition's version and group. */
  function ResourceTitle(name: string, d: Definition): string
  {
    name + " " + d.version + " " + d.groupDisplayName
  }

  /** The section for a resource, with its operation categories and operations below it. */
  function ResourceItem(name: string, d: Definition): TocItem
  {
    TocItem(1, ResourceTitle(name, d), GetLink(ResourceTitle(name, d)), "_" + ConceptFileName(d) + ".tex",
      CategoryItems(TeX, d.operationCategories, d.linkId))
  }

  /**
   * A category section is titled by the name in capitals and linked by its
   * lower-case, dash-separated slug between "-strong-" markers.
   */
  lemma CategorySectionNames(name: string, file: string)
    ensures |CategorySection(name, file).title| == |name|
    ensures forall i :: 0 <= i < |name| ==> !IsLowerAscii(CategorySection(name, file).title[i])
    ensures var l := CategorySection(name, file).link;
      l[..8] == "-strong-" && l[|l| - 8..] == "-strong-" && ' ' !in l[8..|l| - 8]
      && forall i :: 8 <= i < |l| - 8 ==> !IsUpperAscii(l[i])
  {
    var l := CategorySection(name, file).link;
    assert l[8..|l| - 8] == Slug(name);
  }

  /**
   * A definition's entry: titled "Name Version Group", linked by the
   * link of that title (no dots, no spaces, lower case, same length), and
   * its include file is never a resource's include file.
   */
  lemma DefinitionItemNames(d: Definition, name: string, other: Definition)
    ensures DefinitionItem(d).level == 2 && DefinitionItem(d).subSections == []
    ensures DefinitionItem(d).title == d.name + " " + d.version + " " + d.groupDisplayName
    ensures |DefinitionItem(d).link| == |DefinitionItem(d).title|
    ensures '.' !in DefinitionItem(d).link && ' ' !in DefinitionItem(d).link
    ensures DefinitionItem(d).file != ResourceItem(name, other).file
  {
    GetLinkClean(DefinitionTitle(d));
    FileNamesNeverCollide(d, other);
    var a, b := DefinitionItem(d).file, ResourceItem(name, other).file;
    assert a[|a| - 5] == 'n' && b[|b| - 5] == 't';
  }

  // ---------------------------------------------------------------------
  // The writer

  class TexWriter {
    const title: string
    const copyright: string
    /** toc.Sections */
    var sections: seq<TocItem>
    /** CurrentSection, as an index into `sections`; -1 while it is nil. */
    var current: int

    /** CurrentSection is always the last section, and the table is at most three deep. */
    ghost predicate Valid()
      reads this
    {
      current == |sections| - 1 && Shaped(sections)
    }

    /** NewTexWriter */
    constructor (copyright: string, title: string)
      ensures Valid()
      ensures this.title == title && this.copyright == copyright
      ensures sections == [] && current == -1
    {
      this.title := title;
      this.copyright := copyright;
      sections := [];
      current := -1;
    }

    /** Adds one level-1 section at the end and makes it current. */
    method AddSection(item: TocItem)
      requires Valid() && Section(item)
      modifies this
      ensures Valid()
      ensures sections == old(sections) + [item] && current == |old(sections)|
    {
      sections := sections + [item];
      current := |sections| - 1;
    }

    method WriteOverview()
      requires Valid()
      modifies this
      ensures Valid()
      ensures sections == old(sections) + [OverviewItem()] && current == |old(sections)|
    {
      AddSection(OverviewItem());
    }

    method WriteResourceCategory(name: string, file: string)
      requires Valid()
      modifies this
      ensures Valid()
      ensures sections == old(sections) + [CategorySection(name, file)] && current == |old(sections)|
    {
      var link := ReplaceChar(ToLower(name), ' ', '-');
      var item := TocItem(1, ToUpper(name), "-strong-" + link + "-strong-", file + ".tex", []);
      AddSection(item);
    }

    method WriteDefinitionsOverview()
      requires Valid()
      modifies this
      ensures Valid()
      ensures sections == old(sections) + [DefinitionsItem()] && current == |old(sections)|
    {
      AddSection(DefinitionsItem());
    }

    method WriteOldVersionsOverview()
      requires Valid()
      modifies this
      ensures Valid()
      ensures sections == old(sections) + [OldVersionsItem()] && current == |old(sections)|
    {
      AddSection(OldVersionsItem());
    }

    /**
     * Adds the definition's entry under the current section; the number of
     * sections and every other section stay as they were. The source
     * dereferences CurrentSection, so there must be one.
     */
    method WriteDefinition(d: Definition)
      requires Valid() && current >= 0
      modifies this
      ensures Valid() && current == old(current)
      ensures sections == old(sections)[..current]
        + [old(sections)[current].(subSections := old(sections)[current].subSections + [DefinitionItem(d)])]
    {
      var nvg := d.name + " " + d.version + " " + d.groupDisplayName;
      var linkID := GetLink(nvg);
      var item := TocItem(2, nvg, linkID, "_" + DefinitionFileName(d) + ".tex", []);
      sections := WithSubSections(sections, current, sections[current].subSections + [item]);
      assert sections == old(sections)[..current] + [sections[current]];
    }

    /**
     * Adds the resource's section at the end and makes it current; below it
     * one item per non-empty operation category, below each category one
     * item per operation. The source dereferences r.Definition, so it must
     * not be nil.
     */
    method WriteResource(r: Resource)
      requires Valid() && r.definition.Some?
      modifies this
      ensures Valid()
      ensures sections == old(sections) + [ResourceItem(r.name, r.definition.value)] && current == |old(sections)|
    {
      var d := r.definition.value;
      var dvg := r.name + " " + d.version + " " + d.groupDisplayName;
      var linkID := GetLink(dvg);
      var fn := "_" + ConceptFileName(d) + ".tex";
      ghost var before := sections;
      sections := sections + [TocItem(1, dvg, linkID, fn, [])];
      current := |sections| - 1;
      CategoryItemsShaped(TeX, d.operationCategories, d.linkId);
      if |d.operationCategories| == 0 {
        return;
      }
      var cats := d.operationCategories;
      var i := 0;
      while i < |cats|
        invariant 0 <= i <= |cats|
        invariant current == |before|
        invariant sections == before + [TocItem(1, dvg, linkID, fn, CategoryItems(TeX, cats[..i], d.linkId))]
      {
        var c := cats[i];
        CategoryItemsPrefix(TeX, cats, i, d.linkId);
        if |c.operations| == 0 {
          i := i + 1;
          continue;
        }
        AddCategoryItem(c, d.linkId);
        i := i + 1;
      }
      assert cats[..i] == cats;
    }

    /**
     * The body of WriteResource's loop for a category with operations: its
     * item, with one item per operation below it, is appended to the
     * current section.
     */
    method AddCategoryItem(c: OperationCategory, linkId: string)
      requires 0 <= current == |sections| - 1
      modifies this
      ensures current == old(current)
      ensures sections == old(sections)[..current]
        + [old(sections)[current].(subSections := old(sections)[current].subSections + [CategoryItem(TeX, c, linkId)])]
    {
      ghost var sec0 := sections[current];
      ghost var init := sections[..current];
      var catID := ReplaceChar(ToLower(c.name), ' ', '-') + "-" + linkId;
      catID := "-strong-" + catID + "-strong-";
      var ocItem := TocItem(2, c.name, catID, "", []);
      sections := WithSubSections(sections, current, sections[current].subSections + [ocItem]);
      assert sections == init + [sec0.(subSections := sec0.subSections + [ocItem])];
      AddOperationItems(c.operations, linkId);
      AppendToLastSubOfAppended(sec0.(subSections := sec0.subSections + [ocItem]), OperationItems(c.operations, linkId));
      assert [] + OperationItems(c.operations, linkId) == OperationItems(c.operations, linkId);
      assert (sec0.subSections + [ocItem])[..|sec0.subSections|] == sec0.subSections;
      assert catID == CategoryLink(TeX, c.name, linkId);
    }

    /**
     * The loop over one category's operations in WriteResource: each
     * operation's item is appended below the category item last added to
     * the current section.
     */
    method AddOperationItems(ops: seq<Operation>, linkId: string)
      requires 0 <= current == |sections| - 1 && |sections[current].subSections| > 0
      modifies this
      ensures current == old(current)
      ensures sections == old(sections)[..current] + [AppendToLastSub(old(sections)[current], OperationItems(ops, linkId))]
    {
      ghost var sec0 := sections[current];
      ghost var init := sections[..current];
      assert sections == init + [AppendToLastSub(sec0, [])] by {
        AppendToLastSubNothing(sec0);
      }
      var j := 0;
      while j < |ops|
        invariant 0 <= j <= |ops|
        invariant current == old(current)
        invariant sections == init + [AppendToLastSub(sec0, OperationItems(ops[..j], linkId))]
      {
        var o := ops[j];
        var opID := ReplaceChar(ToLower(o.typeName), ' ', '-') + "-" + linkId;
        var opItem := TocItem(2, o.typeName, opID, "", []);
        var sec := sections[current];
        var k := |sec.subSections| - 1;
        var oc := sec.subSections[k];
        sections := WithSubSections(sections, current, sec.subSections[k := oc.(subSections := oc.subSections + [opItem])]);
        assert ops[..j + 1] == ops[..j] + [o];
        assert opItem == OperationItem(o, linkId);
        assert OperationItems(ops[..j + 1], linkId) == OperationItems(ops[..j], linkId) + [opItem];
        AppendToLastSubTwice(sec0, OperationItems(ops[..j], linkId), [opItem]);
        assert sections == init + [sections[current]];
        j := j + 1;
      }
      assert ops[..j] == ops;
    }

    /**
     * generateDocument: the fixed preamble, one \include per table entry
     * whose file can be read, walking sections, their sub-items and theirs
     * in order, then \end{document}. `readable` stands for the files under
     * includes/ that ioutil.ReadFile can read.
     */
    method GenerateDocument(main: Sink<Chunk>, readable: set<string>)
      modifies main
      ensures main.chunks == old(main.chunks) + Preamble(title) + SectionIncludes(sections, readable) + [Markup(EndDocument)]
    {
      WriteAll(main, Preamble(title));
      WriteSectionIncludes(main, sections, readable);
      main.Write(Markup(EndDocument));
    }

    /** Finalize: assembles the master document (creating build/ is not modelled). */
    method Finalize(main: Sink<Chunk>, readable: set<string>)
      modifies main
      ensures main.chunks == old(main.chunks) + Preamble(title) + SectionIncludes(sections, readable) + [Markup(EndDocument)]
    {
      GenerateDocument(main, readable);
    }
  }

  // ---------------------------------------------------------------------
  // The master document

  /** Writes fixed chunks one after the other. */
  method WriteAll(main: Sink<Chunk>, cs: seq<Chunk>)
    modifies main
    ensures main.chunks == old(main.chunks) + cs
  {
    var i := 0;
    while i < |cs|
      invariant 0 <= i <= |cs|
      invariant main.chunks == old(main.chunks) + cs[..i]
    {
      main.Write(cs[i]);
      assert cs[..i + 1] == cs[..i] + [cs[i]];
      i := i + 1;
    }
    assert cs[..i] == cs;
  }

  /** The outer loop of generateDocument, over the sections. */
  method WriteSectionIncludes(main: Sink<Chunk>, sections: seq<TocItem>, readable: set<string>)
    modifies main
    ensures main.chunks == old(main.chunks) + SectionIncludes(sections, readable)
  {
    var i := 0;
    while i < |sections|
      invariant 0 <= i <= |sections|
      invariant main.chunks == old(main.chunks) + SectionIncludes(sections[..i], readable)
    {
      var sec := sections[i];
      ghost var before := main.chunks;
      if sec.file in readable {
        main.Write(Include(sec.file));
      }
      assert main.chunks == before + SectionInclude(sec, readable);
      WriteSubIncludes(main, sec.subSections, readable);
      SectionIncludesPrefix(sections, i, readable);
      AppendThree(old(main.chunks), SectionIncludes(sections[..i], readable), SectionInclude(sec, readable), SubIncludes(sec.subSections, readable));
      i := i + 1;
    }
    assert sections[..i] == sections;
  }

  /** The middle loop of generateDocument, over the items below one section. */
  method WriteSubIncludes(main: Sink<Chunk>, items: seq<TocItem>, readable: set<string>)
    modifies main
    ensures main.chunks == old(main.chunks) + SubIncludes(items, readable)
  {
    var j := 0;
    while j < |items|
      invariant 0 <= j <= |items|
      invariant main.chunks == old(main.chunks) + SubIncludes(items[..j], readable)
    {
      var sub := items[j];
      ghost var before := main.chunks;
      if |sub.file| > 0 && sub.file in readable {
        main.Write(Include(sub.file));
      }
      assert main.chunks == before + NamedInclude(sub, readable);
      WriteSubSubIncludes(main, sub.subSections, readable);
      SubIncludesPrefix(items, j, readable);
      AppendThree(old(main.chunks), SubIncludes(items[..j], readable), NamedInclude(sub, readable), SubSubIncludes(sub.subSections, readable));
      j := j + 1;
    }
    assert items[..j] == items;
  }

  /** The innermost loop of generateDocument. */
  method WriteSubSubIncludes(main: Sink<Chunk>, items: seq<TocItem>, readable: set<string>)
    modifies main
    ensures main.chunks == old(main.chunks) + SubSubIncludes(items, readable)
  {
    var k := 0;
    while k < |items|
      invariant 0 <= k <= |items|
      invariant main.chunks == old(main.chunks) + SubSubIncludes(items[..k], readable)
    {
      var subsub := items[k];
      assert items[..k + 1][..k] == items[..k];
      if |subsub.file| > 0 && subsub.file in readable {
        main.Write(Include(subsub.file));
      }
      k := k + 1;
    }
    assert items[..k] == items;
  }

  function Preamble(title: string): seq<Chunk>
  {
    [ Markup(DocumentClass),
      Markup(PackageInclude),
      Markup(FormatInclude),
      Markup(BeginDocument),
      Markup(FrontMatter),
      DocumentTitle(title),
      Markup(Author),
      Markup(MakeTitle),
      Markup(TableOfContents),
      Markup(NewPage),
      Markup(MainMatter) ]
  }

  /** The include for a sub-level item: only for a named file that can be read. */
  function NamedInclude(it: TocItem, readable: set<string>): seq<Chunk>
  {
    if |it.file| > 0 && it.file in readable then [Include(it.file)] else []
  }

  /** The innermost loop of generateDocument. */
  function SubSubIncludes(items: seq<TocItem>, readable: set<string>): seq<Chunk>
  {
    if items == [] then []
    else SubSubIncludes(items[..|items| - 1], readable) + NamedInclude(items[|items| - 1], readable)
  }

  /** The middle loop of generateDocument. */
  function SubIncludes(items: seq<TocItem>, readable: set<string>): seq<Chunk>
  {
    if items == [] then []
    else
      var it := items[|items| - 1];
      SubIncludes(items[..|items| - 1], readable) + NamedInclude(it, readable) + SubSubIncludes(it.subSections, readable)
  }

  lemma SubIncludesPrefix(items: seq<TocItem>, j: nat, readable: set<string>)
    requires j < |items|
    ensures SubIncludes(items[..j + 1], readable)
      == SubIncludes(items[..j], readable) + NamedInclude(items[j], readable) + SubSubIncludes(items[j].subSections, readable)
  {
    assert items[..j + 1][..j] == items[..j];
  }

  lemma SubIncludesStep(init: seq<TocItem>, x: TocItem, readable: set<string>)
    ensures SubIncludes(init + [x], readable) == SubIncludes(init, readable) + NamedInclude(x, readable) + SubSubIncludes(x.subSections, readable)
  {
    assert (init + [x])[..|init|] == init;
  }

  /** The outer loop of generateDocument: a section's file is included whenever it can be read. */
  function SectionIncludes(sections: seq<TocItem>, readable: set<string>): seq<Chunk>
  {
    if sections == [] then []
    else
      var sec := sections[|sections| - 1];
      SectionIncludes(sections[..|sections| - 1], readable) + SectionInclude(sec, readable) + SubIncludes(sec.subSections, readable)
  }

  /** The include for a section: whenever its file can be read. */
  function SectionInclude(sec: TocItem, readable: set<string>): seq<Chunk>
  {
    if sec.file in readable then [Include(sec.file)] else []
  }

  lemma SectionIncludesPrefix(sections: seq<TocItem>, i: nat, readable: set<string>)
    requires i < |sections|
    ensures SectionIncludes(sections[..i + 1], readable)
      == SectionIncludes(sections[..i], readable) + SectionInclude(sections[i], readable) + SubIncludes(sections[i].subSections, readable)
  {
    assert sections[..i + 1][..i] == sections[..i];
  }

  lemma SectionIncludesStep(init: seq<TocItem>, x: TocItem, readable: set<string>)
    ensures SectionIncludes(init + [x], readable) == SectionIncludes(init, readable) + SectionInclude(x, readable) + SubIncludes(x.subSections, readable)
  {
    assert (init + [x])[..|init|] == init;
  }

  /** An \include for each file, in order. */
  function IncludesOf(files: seq<string>): (r: seq<Chunk>)
    ensures |r| == |files|
    ensures forall i :: 0 <= i < |files| ==> r[i] == Include(files[i])
  {
    if files == [] then [] else [Include(files[0])] + IncludesOf(files[1..])
  }

  lemma {:induction false} IncludesOfAppend(a: seq<string>, b: seq<string>)
    ensures IncludesOf(a + b) == IncludesOf(a) + IncludesOf(b)
  {
    if a == [] {
      assert a + b == b;
    } else {
      assert (a + b)[1..] == a[1..] + b;
      IncludesOfAppend(a[1..], b);
    }
  }

  /** The includes for the named, readable files of some items in pre-order. */
  function PreorderIncludes(items: seq<TocItem>, readable: set<string>): seq<Chunk>
  {
    IncludesOf(ReadableFiles(Preorder(items), readable))
  }

  lemma PreorderIncludesAppend(init: seq<TocItem>, x: TocItem, readable: set<string>)
    ensures PreorderIncludes(init + [x], readable)
      == PreorderIncludes(init, readable) + NamedInclude(x, readable) + PreorderIncludes(x.subSections, readable)
  {
    PreorderAppend(init, x);
    var P, S := Preorder(init), Preorder(x.subSections);
    ReadableFilesAppend(P + [x], S, readable);
    ReadableFilesAppend(P, [x], readable);
    var F1, Fx, FS := ReadableFiles(P, readable), ReadableFiles([x], readable), ReadableFiles(S, readable);
    IncludesOfAppend(F1 + Fx, FS);
    IncludesOfAppend(F1, Fx);
    assert ([x])[1..] == [];
    assert IncludesOf(Fx) == NamedInclude(x, readable);
  }

  lemma {:induction false} SubSubIncludesArePreorder(items: seq<TocItem>, readable: set<string>)
    requires forall k :: 0 <= k < |items| ==> Leaf(items[k])
    ensures SubSubIncludes(items, readable) == PreorderIncludes(items, readable)
  {
    if items != [] {
      var init, x := items[..|items| - 1], items[|items| - 1];
      SubSubIncludesArePreorder(init, readable);
      assert items == init + [x];
      PreorderIncludesAppend(init, x, readable);
      assert PreorderIncludes(x.subSections, readable) == [];
    }
  }

  lemma {:induction false} SubIncludesArePreorder(items: seq<TocItem>, readable: set<string>)
    requires forall k :: 0 <= k < |items| ==> SubItem(items[k])
    ensures SubIncludes(items, readable) == PreorderIncludes(items, readable)
  {
    if items != [] {
      var init, x := items[..|items| - 1], items[|items| - 1];
      assert items == init + [x];
      assert SubIncludes(init, readable) == PreorderIncludes(init, readable) by {
        SubIncludesArePreorder(init, readable);
      }
      assert SubSubIncludes(x.subSections, readable) == PreorderIncludes(x.subSections, readable) by {
        assert SubItem(x);
        SubSubIncludesArePreorder(x.subSections, readable);
      }
      SubIncludesStep(init, x, readable);
      PreorderIncludesAppend(init, x, readable);
    }
  }

  /**
   * For any table a writer builds, the master document includes exactly
   * the named, readable files of the table in pre-order: a section, then
   * everything below it, then the next section.
   */
  lemma {:induction false} SectionIncludesArePreorder(sections: seq<TocItem>, readable: set<string>)
    requires Shaped(sections)
    ensures SectionIncludes(sections, readable) == PreorderIncludes(sections, readable)
  {
    if sections != [] {
      var init, x := sections[..|sections| - 1], sections[|sections| - 1];
      assert sections == init + [x];
      assert SectionIncludes(init, readable) == PreorderIncludes(init, readable) by {
        SectionIncludesArePreorder(init, readable);
      }
      assert SubIncludes(x.subSections, readable) == PreorderIncludes(x.subSections, readable) by {
        assert Section(x);
        SubIncludesArePreorder(x.subSections, readable);
      }
      assert SectionInclude(x, readable) == NamedInclude(x, readable) by {
        assert Section(x);
      }
      SectionIncludesStep(init, x, readable);
      PreorderIncludesAppend(init, x, readable);
    }
  }

  // ---------------------------------------------------------------------
  // DefaultStaticContent

  /** The two parts of the static text a section file starts with. */
  datatype StaticHeading = StaticHeading(section: string, anchor: string)

  function StaticText(h: StaticHeading): string
  {
    "\\section{" + h.section + "}\n\\label{" + h.anchor + "}\n"
  }

  /** DefaultStaticContent as written: the slug is the heading and the raw title the label. */
  function StaticHeadingAsWritten(title: string): (h: StaticHeading)
    ensures h.anchor == "-strong-" + title + "-strong-"
    ensures h.section == Slug(title)
  {
    SlugEitherOrder(title);
    StaticHeading(ToLower(ReplaceChar(title, ' ', '-')), "-strong-" + title + "-strong-")
  }

  function DefaultStaticContentAsWritten(title: string): string
  {
    StaticText(StaticHeadingAsWritten(title))
  }

  /**
   * With the arguments as written, a title starting with a capital letter
   * gets a label that is not the slug link between "-strong-" markers, and
   * a heading that is not the title.
   */
  lemma StaticHeadingAsWrittenMismatch(title: string)
    requires |title| > 0 && IsUpperAscii(title[0])
    ensures StaticHeadingAsWritten(title).anchor != StrongLink(title)
    ensures StaticHeadingAsWritten(title).section != title
  {
    var h := StaticHeadingAsWritten(title);
    assert h.anchor[8] == title[0];
    assert StrongLink(title)[8] == Slug(title)[0];
    assert Slug(title)[0] == LowerChar(title[0]);
    assert h.section[0] != title[0];
  }

  /**
   * The Definitions file is labelled "-strong-Definitions-strong-" while
   * the table of contents links it as "-strong-definitions-strong-".
   */
  lemma DefinitionsLabelMismatch(title: string)
    requires title == "Definitions"
    ensures StaticHeadingAsWritten(title).anchor != DefinitionsItem().link
    ensures StaticHeadingAsWritten(title).section != title
  {
    var h := StaticHeadingAsWritten(title);
    assert title[0] == 'D';
    assert h.section != title by {
      StaticHeadingAsWrittenMismatch(title);
    }
    assert h.anchor[8] == 'D';
    assert DefinitionsItem().link[8] == 'd';
  }

  /**
   * DefaultStaticContent with its arguments the evident way round: the
   * title is the heading and its slug, between "-strong-" markers, the label.
   */
  function StaticHeadingOf(title: string): StaticHeading
  {
    StaticHeading(title, StrongLink(title))
  }

  function DefaultStaticContent(title: string): (r: string)
    ensures r == StaticText(StaticHeadingOf(title))
  {
    var titleID := ToLower(ReplaceChar(title, ' ', '-'));
    SlugEitherOrder(title);
    "\\section{" + title + "}\n\\label{-strong-" + titleID + "-strong-}\n"
  }

  /**
   * Corrected, the heading is the title itself and the label of a category
   * file is the link the table of contents records for that category.
   */
  lemma StaticLabelMatchesToc(name: string, file: string)
    ensures StaticHeadingOf(name).section == name
    ensures StaticHeadingOf(name).anchor == CategorySection(name, file).link
  {
  }

  // ---------------------------------------------------------------------
  // writeOperationSample

  /** The id of the panel holding an example, which its button targets. */
  function SampleId(req: bool, tab: string, op: string): string
  {
    (if req then "req-" else "res-") + tab + "-" + op
  }

  function ButtonCaption(req: bool, tab: string): string
  {
    tab + (if req then " request" else " response")
  }

  const CurlCaptionHead: string := "<CODE>curl</CODE> command (<I>requires <code>kubectl "
  const CurlCaptionTail: string := "</code> to be running</I>)"
  const CurlCaption: string := CurlCaptionHead + "proxy" + CurlCaptionTail
  const KubectlCaption: string := "<CODE>kubectl</CODE> command"

  /** The panel heading: two recognised captions are replaced by fixed text. */
  function PanelHeading(tab: string, msg: string): string
  {
    if tab == "curl" && Contains(msg, "proxy") then CurlCaption
    else if tab == "kubectl" && Contains(msg, "Command") then KubectlCaption
    else msg
  }

  predicate WellFormedExamples(es: seq<ExampleText>)
  {
    forall i :: 0 <= i < |es| ==> WellFormedExample(es[i])
  }

  predicate TabsOk(es: seq<ExampleText>)
  {
    forall i :: 0 <= i < |es| ==> TabOk(es[i])
  }

  function SampleButton(req: bool, op: string, e: ExampleText): Chunk
    requires TabOk(e)
  {
    Button(SampleId(req, ExampleTab(e), op), ButtonCaption(req, ExampleTab(e)))
  }

  function SamplePanel(req: bool, op: string, e: ExampleText): Chunk
    requires WellFormedExample(e)
  {
    Panel(SampleId(req, ExampleTab(e), op), PanelHeading(ExampleTab(e), e.msg), ExampleTab(e), ExampleLang(e), e.text)
  }

  function SampleButtons(req: bool, op: string, es: seq<ExampleText>): (r: seq<Chunk>)
    requires TabsOk(es)
    ensures |r| == |es|
    ensures forall i :: 0 <= i < |es| ==> r[i] == SampleButton(req, op, es[i])
  {
    if es == [] then [] else SampleButtons(req, op, es[..|es| - 1]) + [SampleButton(req, op, es[|es| - 1])]
  }

  function SamplePanels(req: bool, op: string, es: seq<ExampleText>): (r: seq<Chunk>)
    requires WellFormedExamples(es)
    ensures |r| == |es|
    ensures forall i :: 0 <= i < |es| ==> r[i] == SamplePanel(req, op, es[i])
  {
    if es == [] then [] else SamplePanels(req, op, es[..|es| - 1]) + [SamplePanel(req, op, es[|es| - 1])]
  }

  lemma SampleButtonsPrefix(req: bool, op: string, es: seq<ExampleText>, i: nat)
    requires i < |es| && TabsOk(es[..i + 1])
    ensures SampleButtons(req, op, es[..i + 1]) == SampleButtons(req, op, es[..i]) + [SampleButton(req, op, es[i])]
  {
    assert es[..i + 1][..i] == es[..i];
  }

  lemma SamplePanelsPrefix(req: bool, op: string, es: seq<ExampleText>, i: nat)
    requires i < |es| && WellFormedExamples(es[..i + 1])
    ensures SamplePanels(req, op, es[..i + 1]) == SamplePanels(req, op, es[..i]) + [SamplePanel(req, op, es[i])]
  {
    assert es[..i + 1][..i] == es[..i];
  }

  /**
   * What writeOperationSample writes before it returns or panics. The
   * source indexes the pieces of Tab and Type unchecked: the first loop
   * writes the buttons up to the first example without a tab and panics
   * there; otherwise the second loop writes the panels up to the first
   * example without a language and panics there.
   */
  function SampleOutput(req: bool, op: string, es: seq<ExampleText>): seq<Chunk>
  {
    var k := LeadingTabsOk(es);
    if k < |es| then SampleButtons(req, op, es[..k])
    else SampleButtons(req, op, es) + SamplePanels(req, op, es[..LeadingWellFormed(es)])
  }

  /**
   * writeOperationSample: one button per example, then one panel per
   * example, in the same order; `completed` is false where the source
   * panics, after the chunks written so far.
   */
  method WriteOperationSample(w: Sink<Chunk>, req: bool, op: string, examples: seq<ExampleText>)
    returns (completed: bool)
    modifies w
    ensures completed <==> WellFormedExamples(examples)
    ensures w.chunks == old(w.chunks) + SampleOutput(req, op, examples)
  {
    var k := WriteSampleButtons(w, req, op, examples);
    if k < |examples| {
      // strings.Split(e.Tab, ":")[1] is out of range: the program panics
      return false;
    }
    assert examples[..k] == examples;
    var m := WriteSamplePanels(w, req, op, examples);
    AppendTwo(old(w.chunks), SampleButtons(req, op, examples), SamplePanels(req, op, examples[..m]));
    completed := m == |examples|;
  }

  /** The first loop of writeOperationSample, up to the first example without a tab. */
  method WriteSampleButtons(w: Sink<Chunk>, req: bool, op: string, examples: seq<ExampleText>)
    returns (k: nat)
    modifies w
    ensures k == LeadingTabsOk(examples)
    ensures w.chunks == old(w.chunks) + SampleButtons(req, op, examples[..k])
  {
    var i := 0;
    while i < |examples| && TabOk(examples[i])
      invariant 0 <= i <= LeadingTabsOk(examples)
      invariant w.chunks == old(w.chunks) + SampleButtons(req, op, examples[..i])
    {
      var button := ButtonFor(req, op, examples[i]);
      w.Write(button);
      SampleButtonsPrefix(req, op, examples, i);
      AppendTwo(old(w.chunks), SampleButtons(req, op, examples[..i]), [button]);
      i := i + 1;
    }
    k := i;
  }

  /** The body of the first loop: the button for one example. */
  method ButtonFor(req: bool, op: string, e: ExampleText) returns (c: Chunk)
    requires TabOk(e)
    ensures c == SampleButton(req, op, e)
  {
    var eType := Split(e.tab, ":")[1];
    var sampleID, btnText;
    if req {
      sampleID := "req-" + eType + "-" + op;
      btnText := eType + " request";
    } else {
      sampleID := "res-" + eType + "-" + op;
      btnText := eType + " response";
    }
    c := Button(sampleID, btnText);
  }

  /** The second loop of writeOperationSample, up to the first example without a language. */
  method WriteSamplePanels(w: Sink<Chunk>, req: bool, op: string, examples: seq<ExampleText>)
    returns (m: nat)
    modifies w
    ensures m == LeadingWellFormed(examples)
    ensures w.chunks == old(w.chunks) + SamplePanels(req, op, examples[..m])
  {
    var i := 0;
    while i < |examples| && WellFormedExample(examples[i])
      invariant 0 <= i <= LeadingWellFormed(examples)
      invariant w.chunks == old(w.chunks) + SamplePanels(req, op, examples[..i])
    {
      var panel := PanelFor(req, op, examples[i]);
      w.Write(panel);
      SamplePanelsPrefix(req, op, examples, i);
      AppendTwo(old(w.chunks), SamplePanels(req, op, examples[..i]), [panel]);
      i := i + 1;
    }
    m := i;
  }

  /** On well-formed examples nothing panics: every button, then every panel. */
  lemma SampleOutputWellFormed(req: bool, op: string, es: seq<ExampleText>)
    requires WellFormedExamples(es)
    ensures SampleOutput(req, op, es) == SampleButtons(req, op, es) + SamplePanels(req, op, es)
  {
    assert LeadingWellFormed(es) == |es|;
    assert es[..|es|] == es;
  }

  /**
   * The output is complete, a button and a panel per example, exactly
   * when no example makes the source panic; otherwise it stops short.
   */
  lemma SampleOutputComplete(req: bool, op: string, es: seq<ExampleText>)
    ensures |SampleOutput(req, op, es)| <= 2 * |es|
    ensures |SampleOutput(req, op, es)| == 2 * |es| <==> WellFormedExamples(es)
  {
    if !WellFormedExamples(es) {
      var k := LeadingTabsOk(es);
      if k == |es| {
        assert !WellFormedExample(es[LeadingWellFormed(es)]);
      }
    }
  }

  /** The body of the second loop: the panel for one example, with its caption rewritten. */
  method PanelFor(req: bool, op: string, e: ExampleText) returns (c: Chunk)
    requires WellFormedExample(e)
    ensures c == SamplePanel(req, op, e)
  {
    var eType := Split(e.tab, ":")[1];
    var sampleID;
    if req {
      sampleID := "req-" + eType + "-" + op;
    } else {
      sampleID := "res-" + eType + "-" + op;
    }
    var msg := e.msg;
    if eType == "curl" && Contains(msg, "proxy") {
      msg := CurlCaption;
    } else if eType == "kubectl" && Contains(msg, "Command") {
      msg := KubectlCaption;
    }
    var lType := Split(e.kind, ":")[1];
    var lang := Split(lType, "_")[1];
    c := Panel(sampleID, msg, eType, lang, e.text);
  }

  /** Button i opens panel i: both carry the sample id of example i. */
  lemma SamplesPairUp(req: bool, op: string, es: seq<ExampleText>)
    requires WellFormedExamples(es)
    ensures |SampleButtons(req, op, es)| == |SamplePanels(req, op, es)|
    ensures forall i :: 0 <= i < |es| ==>
      SampleButtons(req, op, es)[i].target == SamplePanels(req, op, es)[i].id == SampleId(req, ExampleTab(es[i]), op)
  {
  }

  /**
   * Request and response samples never share an id, and within one
   * direction and operation the id determines the tab.
   */
  lemma SampleIdsDistinct(t1: string, o1: string, t2: string, o2: string, req: bool, op: string)
    ensures SampleId(true, t1, o1) != SampleId(false, t2, o2)
    ensures SampleId(req, t1, op) == SampleId(req, t2, op) <==> t1 == t2
  {
    assert SampleId(true, t1, o1)[2] == 'q';
    assert SampleId(false, t2, o2)[2] == 's';
    var a, b := SampleId(req, t1, op), SampleId(req, t2, op);
    if a == b {
      assert |t1| == |t2|;
      assert a[4..4 + |t1|] == t1;
      assert b[4..4 + |t2|] == t2;
    }
  }

  /** The fixed curl caption itself mentions the proxy. */
  lemma CurlCaptionMentionsProxy()
    ensures Contains(CurlCaption, "proxy")
  {
    ContainsMiddle(CurlCaptionHead, "proxy", CurlCaptionTail);
  }

  /** Rewriting a heading a second time changes nothing. */
  lemma PanelHeadingIdempotent(tab: string, msg: string)
    ensures PanelHeading(tab, PanelHeading(tab, msg)) == PanelHeading(tab, msg)
  {
    CurlCaptionMentionsProxy();
  }

  // ---------------------------------------------------------------------
  // writeOtherVersions and writeAppearsIn

  function VersionItems(vs: seq<DefinitionLink>): (r: seq<Chunk>)
    ensures |r| == |vs|
    ensures forall i :: 0 <= i < |vs| ==> r[i] == VersionItem(vs[i].href, vs[i].text)
  {
    if vs == [] then [] else VersionItems(vs[..|vs| - 1]) + [VersionItem(vs[|vs| - 1].href, vs[|vs| - 1].text)]
  }

  /** Nothing for a definition without other versions; otherwise an itemize list of them. */
  function OtherVersionsBlock(vs: seq<DefinitionLink>): (r: seq<Chunk>)
    ensures r == [] <==> vs == []
    ensures vs != [] ==> |r| == |vs| + 2 && r[1..|r| - 1] == VersionItems(vs)
  {
    if vs == [] then []
    else [Markup(OtherVersionsOpen)] + VersionItems(vs) + [Markup(OtherVersionsClose)]
  }

  lemma VersionItemsPrefix(vs: seq<DefinitionLink>, i: nat)
    requires i < |vs|
    ensures VersionItems(vs[..i + 1]) == VersionItems(vs[..i]) + [VersionItem(vs[i].href, vs[i].text)]
  {
    assert vs[..i + 1][..i] == vs[..i];
  }

  /** The loop of writeOtherVersions, one item per other version. */
  method WriteVersionItems(w: Sink<Chunk>, vs: seq<DefinitionLink>)
    modifies w
    ensures w.chunks == old(w.chunks) + VersionItems(vs)
  {
    var i := 0;
    while i < |vs|
      invariant 0 <= i <= |vs|
      invariant w.chunks == old(w.chunks) + VersionItems(vs[..i])
    {
      var v := vs[i];
      w.Write(VersionItem(v.href, v.text));
      VersionItemsPrefix(vs, i);
      AppendTwo(old(w.chunks), VersionItems(vs[..i]), [VersionItem(v.href, v.text)]);
      i := i + 1;
    }
    assert vs[..i] == vs;
  }

  method WriteOtherVersions(w: Sink<Chunk>, d: Definition)
    modifies w
    ensures w.chunks == old(w.chunks) + OtherVersionsBlock(d.otherVersions)
  {
    if |d.otherVersions| == 0 {
      return;
    }
    w.Write(Markup(OtherVersionsOpen));
    WriteVersionItems(w, d.otherVersions);
    w.Write(Markup(OtherVersionsClose));
    AppendThree(old(w.chunks), [Markup(OtherVersionsOpen)], VersionItems(d.otherVersions), [Markup(OtherVersionsClose)]);
  }

  function AppearsInItems(refs: seq<DefinitionLink>): (r: seq<Chunk>)
    ensures |r| == |refs|
    ensures forall i :: 0 <= i < |refs| ==> r[i] == AppearsInItem(refs[i].href, refs[i].text)
  {
    if refs == [] then [] else AppearsInItems(refs[..|refs| - 1]) + [AppearsInItem(refs[|refs| - 1].href, refs[|refs| - 1].text)]
  }

  /** Nothing for a definition that appears nowhere; otherwise an itemize list of where it does. */
  function AppearsInBlock(refs: seq<DefinitionLink>): (r: seq<Chunk>)
    ensures r == [] <==> refs == []
    ensures refs != [] ==> |r| == |refs| + 2 && r[1..|r| - 1] == AppearsInItems(refs)
  {
    if refs == [] then []
    else [Markup(AppearsInOpen)] + AppearsInItems(refs) + [Markup(AppearsInClose)]
  }

  lemma AppearsInItemsPrefix(refs: seq<DefinitionLink>, i: nat)
    requires i < |refs|
    ensures AppearsInItems(refs[..i + 1]) == AppearsInItems(refs[..i]) + [AppearsInItem(refs[i].href, refs[i].text)]
  {
    assert refs[..i + 1][..i] == refs[..i];
  }

  /** The loop of writeAppearsIn, one item per referring definition. */
  method WriteAppearsInItems(w: Sink<Chunk>, refs: seq<DefinitionLink>)
    modifies w
    ensures w.chunks == old(w.chunks) + AppearsInItems(refs)
  {
    var i := 0;
    while i < |refs|
      invariant 0 <= i <= |refs|
      invariant w.chunks == old(w.chunks) + AppearsInItems(refs[..i])
    {
      var a := refs[i];
      w.Write(AppearsInItem(a.href, a.text));
      AppearsInItemsPrefix(refs, i);
      AppendTwo(old(w.chunks), AppearsInItems(refs[..i]), [AppearsInItem(a.href, a.text)]);
      i := i + 1;
    }
    assert refs[..i] == refs;
  }

  method WriteAppearsIn(w: Sink<Chunk>, d: Definition)
    modifies w
    ensures w.chunks == old(w.chunks) + AppearsInBlock(d.appearsIn)
  {
    if |d.appearsIn| != 0 {
      w.Write(Markup(AppearsInOpen));
      WriteAppearsInItems(w, d.appearsIn);
      w.Write(Markup(AppearsInClose));
      AppendThree(old(w.chunks), [Markup(AppearsInOpen)], AppearsInItems(d.appearsIn), [Markup(AppearsInClose)]);
    }
  }

  // ---------------------------------------------------------------------
  // writeParams, writeRequestParams and writeResponseParams

  /** A parameter row; the full link is shown only when the parameter has a link. */
  function ParamRowOf(p: Field): Chunk
  {
    ParamRow(p.name, if p.link != "" then Some(p.fullLink) else None, p.description)
  }

  function ParamRows(ps: seq<Field>): (r: seq<Chunk>)
    ensures |r| == |ps|
    ensures forall i :: 0 <= i < |ps| ==> r[i] == ParamRowOf(ps[i])
  {
    if ps == [] then [] else ParamRows(ps[..|ps| - 1]) + [ParamRowOf(ps[|ps| - 1])]
  }


  function ParamsTable(title: string, ps: seq<Field>): seq<Chunk>
  {
    [ParamsHeading(title)] + [Markup(ParamsTableHead)] + ParamRows(ps) + [Markup(TableClose)]
  }

  method WriteParams(w: Sink<Chunk>, title: string, params: seq<Field>)
    modifies w
    ensures w.chunks == old(w.chunks) + ParamsTable(title, params)
  {
    w.Write(ParamsHeading(title));
    w.Write(Markup(ParamsTableHead));
    ghost var head := w.chunks;
    var i := 0;
    while i < |params|
      invariant 0 <= i <= |params|
      invariant w.chunks == head + ParamRows(params[..i])
    {
      var p := params[i];
      var link := if p.link != "" then Some(p.fullLink) else None;
      w.Write(ParamRow(p.name, link, p.description));
      assert params[..i + 1] == params[..i] + [p];
      i := i + 1;
    }
    assert params[..i] == params;
    w.Write(Markup(TableClose));
    AppendFour(old(w.chunks), [ParamsHeading(title)], [Markup(ParamsTableHead)], ParamRows(params), [Markup(TableClose)]);
  }

  /** A table for a group of parameters, only when the group is not empty. */
  function ParamsGroup(title: string, ps: seq<Field>): seq<Chunk>
  {
    if |ps| > 0 then ParamsTable(title, ps) else []
  }

  /** Path, then query, then body parameters. */
  function RequestParams(o: Operation): seq<Chunk>
  {
    ParamsGroup("Path Parameters", o.pathParams) + ParamsGroup("Query Parameters", o.queryParams) + ParamsGroup("Body Parameters", o.bodyParams)
  }

  method WriteRequestParams(w: Sink<Chunk>, o: Operation)
    modifies w
    ensures w.chunks == old(w.chunks) + RequestParams(o)
  {
    ghost var start := w.chunks;
    if |o.pathParams| > 0 {
      WriteParams(w, "Path Parameters", o.pathParams);
    }
    assert w.chunks == start + ParamsGroup("Path Parameters", o.pathParams);
    ghost var afterPath := w.chunks;
    if |o.queryParams| > 0 {
      WriteParams(w, "Query Parameters", o.queryParams);
    }
    assert w.chunks == afterPath + ParamsGroup("Query Parameters", o.queryParams);
    ghost var afterQuery := w.chunks;
    if |o.bodyParams| > 0 {
      WriteParams(w, "Body Parameters", o.bodyParams);
    }
    assert w.chunks == afterQuery + ParamsGroup("Body Parameters", o.bodyParams);
    AppendThree(start, ParamsGroup("Path Parameters", o.pathParams), ParamsGroup("Query Parameters", o.queryParams),
      ParamsGroup("Body Parameters", o.bodyParams));
  }

  /** The table headings among some chunks, in order. */
  function Headings(cs: seq<Chunk>): seq<string>
  {
    if cs == [] then []
    else Headings(cs[..|cs| - 1]) + (if cs[|cs| - 1].ParamsHeading? then [cs[|cs| - 1].title] else [])
  }

  /** The parameter rows among some chunks, in order. */
  function Rows(cs: seq<Chunk>): seq<Chunk>
  {
    if cs == [] then []
    else Rows(cs[..|cs| - 1]) + (if cs[|cs| - 1].ParamRow? then [cs[|cs| - 1]] else [])
  }

  lemma HeadingsRowsAppend(a: seq<Chunk>, b: seq<Chunk>)
    ensures Headings(a + b) == Headings(a) + Headings(b)
    ensures Rows(a + b) == Rows(a) + Rows(b)
  {
    HeadingsAppend(a, b);
    RowsAppend(a, b);
  }

  lemma {:induction false} HeadingsAppend(a: seq<Chunk>, b: seq<Chunk>)
    ensures Headings(a + b) == Headings(a) + Headings(b)
    decreases |b|
  {
    if b == [] {
      assert a + b == a;
    } else {
      var init := b[..|b| - 1];
      HeadingsAppend(a, init);
      assert (a + b)[..|a + b| - 1] == a + init;
    }
  }

  lemma {:induction false} RowsAppend(a: seq<Chunk>, b: seq<Chunk>)
    ensures Rows(a + b) == Rows(a) + Rows(b)
    decreases |b|
  {
    if b == [] {
      assert a + b == a;
    } else {
      var init := b[..|b| - 1];
      RowsAppend(a, init);
      assert (a + b)[..|a + b| - 1] == a + init;
    }
  }

  lemma {:induction false} ParamRowsAreRows(ps: seq<Field>)
    ensures Rows(ParamRows(ps)) == ParamRows(ps)
    ensures Headings(ParamRows(ps)) == []
  {
    if ps != [] {
      var init := ps[..|ps| - 1];
      ParamRowsAreRows(init);
      HeadingsRowsAppend(ParamRows(init), [ParamRowOf(ps[|ps| - 1])]);
      HeadingsRowsSingle(ParamRowOf(ps[|ps| - 1]));
    }
  }

  /** A group contributes its heading and exactly its rows, or nothing at all. */
  lemma HeadingsRowsSingle(c: Chunk)
    ensures Headings([c]) == (if c.ParamsHeading? then [c.title] else [])
    ensures Rows([c]) == (if c.ParamRow? then [c] else [])
  {
    assert [c][..0] == [];
  }

  lemma ParamsGroupParts(title: string, ps: seq<Field>)
    ensures Headings(ParamsGroup(title, ps)) == (if |ps| > 0 then [title] else [])
    ensures Rows(ParamsGroup(title, ps)) == ParamRows(ps)
  {
    if |ps| > 0 {
      var h, m, rows, last := [ParamsHeading(title)], [Markup(ParamsTableHead)], ParamRows(ps), [Markup(TableClose)];
      HeadingsRowsSingle(ParamsHeading(title));
      HeadingsRowsSingle(Markup(ParamsTableHead));
      HeadingsRowsSingle(Markup(TableClose));
      ParamRowsAreRows(ps);
      assert Headings(h + m) == [title] && Rows(h + m) == [] by {
        HeadingsRowsAppend(h, m);
      }
      assert Headings(h + m + rows) == [title] && Rows(h + m + rows) == rows by {
        HeadingsRowsAppend(h + m, rows);
      }
      assert Headings(h + m + rows + last) == [title] && Rows(h + m + rows + last) == rows by {
        HeadingsRowsAppend(h + m + rows, last);
      }
    }
  }

  /**
   * The request parameters of an operation: a table per non-empty group,
   * in the order path, query, body, and every parameter's row once, in
   * that order. An operation without parameters gets nothing.
   */
  lemma RequestParamsLayout(o: Operation)
    ensures Headings(RequestParams(o)) ==
      (if |o.pathParams| > 0 then ["Path Parameters"] else [])
      + (if |o.queryParams| > 0 then ["Query Parameters"] else [])
      + (if |o.bodyParams| > 0 then ["Body Parameters"] else [])
    ensures Rows(RequestParams(o)) == ParamRows(o.pathParams) + ParamRows(o.queryParams) + ParamRows(o.bodyParams)
    ensures RequestParams(o) == [] <==> o.pathParams == [] && o.queryParams == [] && o.bodyParams == []
  {
    var p := ParamsGroup("Path Parameters", o.pathParams);
    var q := ParamsGroup("Query Parameters", o.queryParams);
    var b := ParamsGroup("Body Parameters", o.bodyParams);
    ParamsGroupParts("Path Parameters", o.pathParams);
    ParamsGroupParts("Query Parameters", o.queryParams);
    ParamsGroupParts("Body Parameters", o.bodyParams);
    HeadingsRowsAppend(p + q, b);
    HeadingsRowsAppend(p, q);
  }

  function ResponseRowOf(p: HttpResponse): Chunk
  {
    ResponseRow(p.name, if p.field.link != "" then Some(p.field.fullLink) else None, p.field.description)
  }

  function ResponseRows(rs: seq<HttpResponse>): (r: seq<Chunk>)
    ensures |r| == |rs|
    ensures forall i :: 0 <= i < |rs| ==> r[i] == ResponseRowOf(rs[i])
  {
    if rs == [] then [] else ResponseRows(rs[..|rs| - 1]) + [ResponseRowOf(rs[|rs| - 1])]
  }


  /** Nothing without responses; otherwise a table with one row per response, in the given order. */
  function ResponseParams(rs: seq<HttpResponse>): (r: seq<Chunk>)
    ensures r == [] <==> rs == []
    ensures rs != [] ==> |r| == |rs| + 3 && r[2..|r| - 1] == ResponseRows(rs)
  {
    if rs == [] then []
    else [Markup(ResponseHeading)] + [Markup(ResponseTableHead)] + ResponseRows(rs) + [Markup(TableClose)]
  }

  method WriteResponseParams(w: Sink<Chunk>, o: Operation)
    modifies w
    ensures w.chunks == old(w.chunks) + ResponseParams(o.httpResponses)
  {
    if |o.httpResponses| == 0 {
      return;
    }
    w.Write(Markup(ResponseHeading));
    w.Write(Markup(ResponseTableHead));
    ghost var head := w.chunks;
    var i := 0;
    while i < |o.httpResponses|
      invariant 0 <= i <= |o.httpResponses|
      invariant w.chunks == head + ResponseRows(o.httpResponses[..i])
    {
      var p := o.httpResponses[i];
      var link := if p.field.link != "" then Some(p.field.fullLink) else None;
      w.Write(ResponseRow(p.name, link, p.field.description));
      assert o.httpResponses[..i + 1] == o.httpResponses[..i] + [p];
      i := i + 1;
    }
    assert o.httpResponses[..i] == o.httpResponses;
    w.Write(Markup(TableClose));
    AppendFour(old(w.chunks), [Markup(ResponseHeading)], [Markup(ResponseTableHead)], ResponseRows(o.httpResponses), [Markup(TableClose)]);
  }
}
