/**
 * GenerateFiles (gen-apidocs/generators/writer.go) and the format check of
 * main (gen-apidocs/main.go). GenerateFiles drives a DocWriter; the model
 * records the calls it makes on it, in order, and proves which definitions
 * reach which call and in what order the calls come.
 */
module Generate {
  import opened Wrappers
  import opened Api

  /** One call GenerateFiles makes on its writer, or the warning it prints instead of one. */
  datatype Call =
    | WriteOverview
    | WriteAPIGroupVersions(gvs: map<string, seq<string>>)
    | WriteResourceCategory(name: string, file: string)
    | WriteResource(resource: Resource)
    | MissingDefinition(resourceName: string)
    | WriteDefinitionsOverview
    | WriteDefinition(definition: Definition)
    | WriteOldVersionsOverview
    | Finalize

  // ---------------------------------------------------------------------
  // main's format check and the choice of writer

  /** main accepts "html" and "markdown" and panics on any other format. */
  function CheckFormat(format: string): (r: Result<string, string>)
    ensures r.Ok? <==> format == "html" || format == "markdown"
    ensures r.Ok? ==> r.value == format
  {
    if format == "html" || format == "markdown" then Ok(format)
    else Err("unsupported format '" + format + "' specified")
  }

  datatype WriterKind = HtmlWriter | MarkdownWriter

  /** "html" selects the HTML writer; every other format the Markdown writer. */
  function SelectWriter(format: string): (k: WriterKind)
    ensures k == HtmlWriter <==> format == "html"
  {
    if format == "html" then HtmlWriter else MarkdownWriter
  }

  /** The two copyright templates, as the text before and after their one %s verb. */
  const HtmlCopyrightHead: string := "<a href=" + "\"https://github.com/kubernetes/kubernetes\">Copyright 2016-"
  const HtmlCopyrightTail: string := " The Kubernetes Authors.</a>"
  const MarkdownCopyrightHead: string := "[Copyright 2016-"
  const MarkdownCopyrightTail: string := " The Kubernetes Authors](https://github.com/kubernetes/kubernetes)"

  /** fmt.Sprintf of the template the format selects with the year. */
  function Copyright(format: string, year: string): (r: string)
    ensures format == "html" ==> |r| == |HtmlCopyrightHead| + |year| + |HtmlCopyrightTail|
    ensures format != "html" ==> |r| == |MarkdownCopyrightHead| + |year| + |MarkdownCopyrightTail|
    ensures format == "html" ==> r[..|HtmlCopyrightHead|] == HtmlCopyrightHead
    ensures format != "html" ==> r[..|MarkdownCopyrightHead|] == MarkdownCopyrightHead
    ensures format == "html" ==> r[|HtmlCopyrightHead|..|HtmlCopyrightHead| + |year|] == year
    ensures format != "html" ==> r[|MarkdownCopyrightHead|..|MarkdownCopyrightHead| + |year|] == year
    ensures format == "html" ==> r[|HtmlCopyrightHead| + |year|..] == HtmlCopyrightTail
    ensures format != "html" ==> r[|MarkdownCopyrightHead| + |year|..] == MarkdownCopyrightTail
  {
    if format == "html" then HtmlCopyrightHead + year + HtmlCopyrightTail
    else MarkdownCopyrightHead + year + MarkdownCopyrightTail
  }

  /**
   * Every format but "html" gets the same Markdown link, and it never
   * equals the HTML anchor, whatever the two years.
   */
  lemma CopyrightFormats(other: string, other2: string, year: string, y2: string)
    requires other != "html" && other2 != "html"
    ensures Copyright(other, year) == Copyright(other2, year)
    ensures Copyright("html", year) != Copyright(other, y2)
  {
    var h, m := Copyright("html", year), Copyright(other, y2);
    assert h[0] == '<';
    assert m[0] == '[';
  }

  /** The title depends on BuildOps alone. */
  function Title(buildOps: bool): string
  {
    if buildOps then "Kubernetes API Reference Docs" else "Kubernetes Resource Reference Docs"
  }

  // ---------------------------------------------------------------------
  // The calls, as functions of the configuration

  /** A resource of the table of contents is written, or only warned about when it has no definition. */
  function ResourceCall(r: Resource): (c: Call)
    ensures c.WriteResource? <==> r.definition.Some?
    ensures c.WriteResource? ==> c.resource == r
    ensures c.MissingDefinition? <==> r.definition.None?
    ensures c.MissingDefinition? ==> c.resourceName == r.name
  {
    if r.definition.None? then MissingDefinition(r.name) else WriteResource(r)
  }

  function ResourceCalls(rs: seq<Resource>): (r: seq<Call>)
    ensures |r| == |rs|
    ensures forall i :: 0 <= i < |rs| ==> r[i] == ResourceCall(rs[i])
  {
    if rs == [] then [] else ResourceCalls(rs[..|rs| - 1]) + [ResourceCall(rs[|rs| - 1])]
  }

  /** The calls of the first part of the table of contents: a category, then its resources. */
  function CategoryBlock(c: ResourceCategory): seq<Call>
  {
    [WriteResourceCategory(c.name, c.includeFile)] + ResourceCalls(c.resources)
  }

  /** Only category calls, resources that have a definition and warnings. */
  predicate TocCall(c: Call)
  {
    c.WriteResourceCategory? || (c.WriteResource? && c.resource.definition.Some?) || c.MissingDefinition?
  }

  function CategoryCalls(cs: seq<ResourceCategory>): (r: seq<Call>)
    ensures forall i :: 0 <= i < |r| ==> TocCall(r[i])
  {
    if cs == [] then [] else CategoryCalls(cs[..|cs| - 1]) + CategoryBlock(cs[|cs| - 1])
  }

  /** The definitions the third part writes: neither in the table of contents, nor inlined, nor old. */
  predicate IsPlainDefinition(d: Definition)
  {
    !d.inToc && !d.isInlined && !d.isOldVersion
  }

  predicate IsOldDefinition(d: Definition)
  {
    d.isOldVersion
  }

  /** The loop that appends to a slice each definition the test lets through. */
  function Keep(ds: seq<Definition>, p: Definition -> bool): (r: seq<Definition>)
    ensures |r| <= |ds|
    ensures forall i :: 0 <= i < |r| ==> p(r[i])
  {
    if ds == [] then [] else if p(ds[|ds| - 1]) then Keep(ds[..|ds| - 1], p) + [ds[|ds| - 1]] else Keep(ds[..|ds| - 1], p)
  }

  /** The filter keeps every copy of a definition that passes the test and drops every other. */
  lemma {:induction false} KeepCount(ds: seq<Definition>, p: Definition -> bool, d: Definition)
    ensures multiset(Keep(ds, p))[d] == if p(d) then multiset(ds)[d] else 0
  {
    if ds != [] {
      var init, last := ds[..|ds| - 1], ds[|ds| - 1];
      assert ds == init + [last];
      KeepCount(init, p, d);
    }
  }

  function DefinitionCalls(ds: seq<Definition>): (r: seq<Call>)
    ensures |r| == |ds|
    ensures forall i :: 0 <= i < |ds| ==> r[i] == WriteDefinition(ds[i])
  {
    if ds == [] then [] else DefinitionCalls(ds[..|ds| - 1]) + [WriteDefinition(ds[|ds| - 1])]
  }

  /** A resource made of a definition that is not inlined, and named after it. */
  predicate OldVersionCall(c: Call)
  {
    && c.WriteResource?
    && c.resource.definition.Some?
    && c.resource.name == c.resource.definition.value.name
    && !c.resource.definition.value.isInlined
  }

  /** An old version is written as a resource named after it, unless it is inlined. */
  function OldVersionCalls(ds: seq<Definition>): (r: seq<Call>)
    ensures forall i :: 0 <= i < |r| ==> OldVersionCall(r[i])
    ensures forall d: Definition :: WriteResource(Resource(d.name, Some(d))) in r <==> d in ds && !d.isInlined
  {
    if ds == [] then []
    else
      var init := ds[..|ds| - 1];
      var d := ds[|ds| - 1];
      assert ds == init + [d];
      if d.isInlined then OldVersionCalls(init)
      else OldVersionCalls(init) + [WriteResource(Resource(d.name, Some(d)))]
  }

  /** The calls in the order GenerateFiles makes them, around the three lists it loops over. */
  function Assemble(gvs: map<string, seq<string>>, toc: seq<Call>, defs: seq<Call>, olds: seq<Call>): seq<Call>
  {
    [WriteOverview, WriteAPIGroupVersions(gvs)] + toc + [WriteDefinitionsOverview] + defs + [WriteOldVersionsOverview] + olds + [Finalize]
  }

  /** Every call GenerateFiles makes, with sort.Sort on SortDefinitionsByName given as `sortByName`. */
  function Plan(config: Config, sortByName: seq<Definition> -> seq<Definition>): seq<Call>
  {
    Assemble(config.groupVersions,
      CategoryCalls(config.resourceCategories),
      DefinitionCalls(sortByName(Keep(config.definitions, IsPlainDefinition))),
      OldVersionCalls(sortByName(Keep(config.definitions, IsOldDefinition))))
  }

  // ---------------------------------------------------------------------
  // GenerateFiles

  /**
   * GenerateFiles(format) on the loaded configuration, with the year of
   * the current time and the BuildOps flag as parameters: the writer it
   * selects, the copyright and title it gives that writer, and its calls.
   */
  method GenerateFiles(config: Config, format: string, year: string, buildOps: bool, sortByName: seq<Definition> -> seq<Definition>)
    returns (writer: WriterKind, copyright: string, title: string, calls: seq<Call>)
    ensures writer == SelectWriter(format) && copyright == Copyright(format, year) && title == Title(buildOps)
    ensures calls == Plan(config, sortByName)
  {
    copyright := Copyright(format, year);
    title := if !buildOps then "Kubernetes Resource Reference Docs" else "Kubernetes API Reference Docs";
    writer := if format == "html" then HtmlWriter else MarkdownWriter;
    calls := [WriteOverview, WriteAPIGroupVersions(config.groupVersions)];

    var toc := WriteCategories(config.resourceCategories);
    calls := calls + toc + [WriteDefinitionsOverview];

    var definitions := Select(config.definitions, IsPlainDefinition);
    definitions := sortByName(definitions);
    var defs := WriteDefinitions(definitions);
    calls := calls + defs + [WriteOldVersionsOverview];

    var oldversions := Select(config.definitions, IsOldDefinition);
    oldversions := sortByName(oldversions);
    var olds := WriteOldVersions(oldversions);
    calls := calls + olds + [Finalize];
    assert calls == Assemble(config.groupVersions, toc, defs, olds);
  }

  /** The loop over the resource categories and their resources. */
  method WriteCategories(cs: seq<ResourceCategory>) returns (calls: seq<Call>)
    ensures calls == CategoryCalls(cs)
  {
    calls := [];
    var i := 0;
    while i < |cs|
      invariant 0 <= i <= |cs|
      invariant calls == CategoryCalls(cs[..i])
    {
      var c := cs[i];
      var resources := WriteResources(c.resources);
      var block := [WriteResourceCategory(c.name, c.includeFile)] + resources;
      calls := calls + block;
      assert cs[..i + 1][..i] == cs[..i];
      i := i + 1;
    }
    assert cs[..i] == cs;
  }

  /** The loop over one category's resources. */
  method WriteResources(rs: seq<Resource>) returns (calls: seq<Call>)
    ensures calls == ResourceCalls(rs)
  {
    calls := [];
    var j := 0;
    while j < |rs|
      invariant 0 <= j <= |rs|
      invariant calls == ResourceCalls(rs[..j])
    {
      var r := rs[j];
      if r.definition == None {
        calls := calls + [MissingDefinition(r.name)];
      } else {
        calls := calls + [WriteResource(r)];
      }
      assert rs[..j + 1][..j] == rs[..j];
      j := j + 1;
    }
    assert rs[..j] == rs;
  }

  /** A loop that appends each definition passing `p` to a slice. */
  method Select(all: seq<Definition>, p: Definition -> bool) returns (ds: seq<Definition>)
    ensures ds == Keep(all, p)
  {
    ds := [];
    var i := 0;
    while i < |all|
      invariant 0 <= i <= |all|
      invariant ds == Keep(all[..i], p)
    {
      var d := all[i];
      if p(d) {
        ds := ds + [d];
      }
      assert all[..i + 1][..i] == all[..i];
      i := i + 1;
    }
    assert all[..i] == all;
  }

  method WriteDefinitions(ds: seq<Definition>) returns (calls: seq<Call>)
    ensures calls == DefinitionCalls(ds)
  {
    calls := [];
    var i := 0;
    while i < |ds|
      invariant 0 <= i <= |ds|
      invariant calls == DefinitionCalls(ds[..i])
    {
      calls := calls + [WriteDefinition(ds[i])];
      assert ds[..i + 1][..i] == ds[..i];
      i := i + 1;
    }
    assert ds[..i] == ds;
  }

  /** The last loop: each old version that is not inlined, as a resource of its own name. */
  method WriteOldVersions(ds: seq<Definition>) returns (calls: seq<Call>)
    ensures calls == OldVersionCalls(ds)
  {
    calls := [];
    var i := 0;
    while i < |ds|
      invariant 0 <= i <= |ds|
      invariant calls == OldVersionCalls(ds[..i])
    {
      var d := ds[i];
      assert ds[..i + 1][..i] == ds[..i];
      if !d.isInlined {
        calls := calls + [WriteResource(Resource(d.name, Some(d)))];
      }
      i := i + 1;
    }
    assert ds[..i] == ds;
  }

  /** main: the format check, then GenerateFiles; an unsupported format is an error and nothing is written. */
  method Run(config: Config, format: string, year: string, buildOps: bool, sortByName: seq<Definition> -> seq<Definition>)
    returns (r: Result<seq<Call>, string>)
    ensures r.Ok? <==> CheckFormat(format).Ok?
    ensures r.Ok? ==> r.value == Plan(config, sortByName)
  {
    var checked := CheckFormat(format);
    if checked.Err? {
      return Err(checked.error);
    }
    var _, _, _, calls := GenerateFiles(config, format, year, buildOps, sortByName);
    return Ok(calls);
  }

  // ---------------------------------------------------------------------
  // What the plan promises

  /** sort.Sort reorders and never adds or drops an element. */
  ghost predicate SortsByPermutation(sortByName: seq<Definition> -> seq<Definition>)
  {
    forall ds :: multiset(sortByName(ds)) == multiset(ds)
  }

  /** No definition is both written as a definition and as an old version. */
  lemma PlainAndOldDisjoint(all: seq<Definition>)
    ensures forall d :: d in Keep(all, IsPlainDefinition) ==> d !in Keep(all, IsOldDefinition)
  {
    forall d | d in Keep(all, IsPlainDefinition)
      ensures d !in Keep(all, IsOldDefinition)
    {
      KeepCount(all, IsPlainDefinition, d);
      KeepCount(all, IsOldDefinition, d);
    }
  }

  /** A definition passes the filter and the sort exactly when it is loaded and passes the test. */
  lemma KeptAndSorted(all: seq<Definition>, p: Definition -> bool, sortByName: seq<Definition> -> seq<Definition>, d: Definition)
    requires SortsByPermutation(sortByName)
    ensures multiset(sortByName(Keep(all, p)))[d] == if p(d) then multiset(all)[d] else 0
    ensures d in sortByName(Keep(all, p)) <==> d in all && p(d)
  {
    assert multiset(sortByName(Keep(all, p))) == multiset(Keep(all, p));
    KeepCount(all, p, d);
  }

  lemma DefinitionCallsHold(ds: seq<Definition>, d: Definition)
    ensures WriteDefinition(d) in DefinitionCalls(ds) <==> d in ds
  {
    if d in ds {
      var i :| 0 <= i < |ds| && ds[i] == d;
      assert DefinitionCalls(ds)[i] == WriteDefinition(d);
    }
  }

  /** Where each piece lands in the assembled calls, and that nothing else is in them. */
  lemma AssembleLayout(gvs: map<string, seq<string>>, toc: seq<Call>, defs: seq<Call>, olds: seq<Call>)
    ensures var p := Assemble(gvs, toc, defs, olds);
      var k := 2 + |toc|;
      var n := |defs|;
      && |p| == k + n + 3 + |olds|
      && p[0] == WriteOverview && p[1] == WriteAPIGroupVersions(gvs)
      && (forall i :: 0 <= i < |toc| ==> p[2 + i] == toc[i])
      && p[k] == WriteDefinitionsOverview
      && (forall i :: 0 <= i < n ==> p[k + 1 + i] == defs[i])
      && p[k + n + 1] == WriteOldVersionsOverview
      && (forall i :: 0 <= i < |olds| ==> p[k + n + 2 + i] == olds[i])
      && p[|p| - 1] == Finalize
  {
    var head := [WriteOverview, WriteAPIGroupVersions(gvs)] + toc + [WriteDefinitionsOverview];
    var mid := head + defs + [WriteOldVersionsOverview];
    assert Assemble(gvs, toc, defs, olds) == mid + olds + [Finalize];
    assert forall i :: 0 <= i < |toc| ==> head[2 + i] == toc[i];
    assert forall i :: 0 <= i < |defs| ==> mid[|head| + i] == defs[i];
  }

  /**
   * The definitions written are exactly those neither in the table of
   * contents, nor inlined, nor old versions, each as often as it is
   * loaded, in the order sortByName gives them.
   */
  lemma DefinitionsWritten(config: Config, sortByName: seq<Definition> -> seq<Definition>, d: Definition)
    requires SortsByPermutation(sortByName)
    ensures multiset(sortByName(Keep(config.definitions, IsPlainDefinition)))[d]
      == if IsPlainDefinition(d) then multiset(config.definitions)[d] else 0
    ensures WriteDefinition(d) in Plan(config, sortByName) <==> d in config.definitions && IsPlainDefinition(d)
  {
    var sorted := sortByName(Keep(config.definitions, IsPlainDefinition));
    KeptAndSorted(config.definitions, IsPlainDefinition, sortByName, d);
    DefinitionCallsHold(sorted, d);
    AssembleDefinitions(config.groupVersions, CategoryCalls(config.resourceCategories), DefinitionCalls(sorted),
      OldVersionCalls(sortByName(Keep(config.definitions, IsOldDefinition))), d);
  }

  /** A definition call can only come from the list of definitions. */
  lemma AssembleDefinitions(gvs: map<string, seq<string>>, toc: seq<Call>, defs: seq<Call>, olds: seq<Call>, d: Definition)
    requires forall i :: 0 <= i < |toc| ==> TocCall(toc[i])
    requires forall i :: 0 <= i < |olds| ==> OldVersionCall(olds[i])
    ensures WriteDefinition(d) in Assemble(gvs, toc, defs, olds) <==> WriteDefinition(d) in defs
  {
    forall i | 0 <= i < |toc| ensures toc[i] != WriteDefinition(d) {
      assert TocCall(toc[i]);
    }
    forall i | 0 <= i < |olds| ensures olds[i] != WriteDefinition(d) {
      assert OldVersionCall(olds[i]);
    }
  }

  /**
   * The old versions written are exactly the loaded old versions that are
   * not inlined, each as a resource carrying it and its name.
   */
  lemma OldVersionsWritten(config: Config, sortByName: seq<Definition> -> seq<Definition>, d: Definition)
    requires SortsByPermutation(sortByName)
    ensures WriteResource(Resource(d.name, Some(d))) in OldVersionCalls(sortByName(Keep(config.definitions, IsOldDefinition)))
      <==> d in config.definitions && d.isOldVersion && !d.isInlined
  {
    KeptAndSorted(config.definitions, IsOldDefinition, sortByName, d);
  }

  /** The order of the assembled calls, given what each list may hold. */
  lemma AssembleOrder(gvs: map<string, seq<string>>, toc: seq<Call>, defs: seq<Call>, olds: seq<Call>)
    requires forall i :: 0 <= i < |toc| ==> TocCall(toc[i])
    requires forall i :: 0 <= i < |defs| ==> defs[i].WriteDefinition?
    requires forall i :: 0 <= i < |olds| ==> OldVersionCall(olds[i])
    ensures |Assemble(gvs, toc, defs, olds)| == |toc| + |defs| + |olds| + 5
    ensures forall i :: 2 <= i < 2 + |toc| ==> TocCall(Assemble(gvs, toc, defs, olds)[i])
    ensures forall i :: 3 + |toc| <= i < 3 + |toc| + |defs| ==> Assemble(gvs, toc, defs, olds)[i].WriteDefinition?
    ensures forall i :: 4 + |toc| + |defs| <= i < 4 + |toc| + |defs| + |olds| ==> OldVersionCall(Assemble(gvs, toc, defs, olds)[i])
  {
    AssembleLayout(gvs, toc, defs, olds);
    var p := Assemble(gvs, toc, defs, olds);
    var k, n := 2 + |toc|, |defs|;
    forall i | 2 <= i < k ensures TocCall(p[i]) {
      assert p[2 + (i - 2)] == toc[i - 2];
    }
    forall i | k < i <= k + n ensures p[i].WriteDefinition? {
      assert p[k + 1 + (i - k - 1)] == defs[i - k - 1];
    }
    forall i | k + n + 1 < i < |p| - 1 ensures OldVersionCall(p[i]) {
      assert p[k + n + 2 + (i - k - n - 2)] == olds[i - k - n - 2];
    }
  }

  /** Where the calls fall: overview, groups, the table of contents, definitions, old versions, Finalize. */
  lemma PlanOrder(config: Config, sortByName: seq<Definition> -> seq<Definition>)
    ensures var p := Plan(config, sortByName);
      var k := 2 + |CategoryCalls(config.resourceCategories)|;
      var n := |sortByName(Keep(config.definitions, IsPlainDefinition))|;
      && k + n + 3 <= |p|
      && p[0] == WriteOverview && p[1] == WriteAPIGroupVersions(config.groupVersions)
      && (forall i :: 2 <= i < k ==> TocCall(p[i]))
      && p[k] == WriteDefinitionsOverview
      && (forall i :: k < i <= k + n ==> p[i].WriteDefinition?)
      && p[k + n + 1] == WriteOldVersionsOverview
      && (forall i :: k + n + 1 < i < |p| - 1 ==> OldVersionCall(p[i]))
      && p[|p| - 1] == Finalize
  {
    var toc := CategoryCalls(config.resourceCategories);
    var defs := DefinitionCalls(sortByName(Keep(config.definitions, IsPlainDefinition)));
    var olds := OldVersionCalls(sortByName(Keep(config.definitions, IsOldDefinition)));
    AssembleLayout(config.groupVersions, toc, defs, olds);
    AssembleOrder(config.groupVersions, toc, defs, olds);
  }

  /**
   * So every WriteDefinition comes after WriteDefinitionsOverview, with
   * nothing but other definitions between them: the section it adds to
   * is always the definitions section.
   */
  lemma DefinitionsFollowTheirOverview(config: Config, sortByName: seq<Definition> -> seq<Definition>, i: nat)
    requires i < |Plan(config, sortByName)| && Plan(config, sortByName)[i].WriteDefinition?
    ensures exists j :: (0 <= j < i && Plan(config, sortByName)[j] == WriteDefinitionsOverview
      && (forall m :: j < m <= i ==> Plan(config, sortByName)[m].WriteDefinition?))
  {
    PlanOrder(config, sortByName);
    var p := Plan(config, sortByName);
    var k := 2 + |CategoryCalls(config.resourceCategories)|;
    var n := |sortByName(Keep(config.definitions, IsPlainDefinition))|;
    assert k < i <= k + n;
    assert p[k] == WriteDefinitionsOverview;
  }

  /** A resource without a definition is never written: the calls only carry resources that have one. */
  lemma ResourcesHaveDefinitions(config: Config, sortByName: seq<Definition> -> seq<Definition>, i: nat)
    requires i < |Plan(config, sortByName)| && Plan(config, sortByName)[i].WriteResource?
    ensures Plan(config, sortByName)[i].resource.definition.Some?
  {
    PlanOrder(config, sortByName);
  }

  /**
   * Every resource of every category is either written or, when its
   * definition is missing, warned about.
   */
  lemma {:induction false} CategoryCallsCover(cs: seq<ResourceCategory>, i: nat, j: nat)
    requires i < |cs| && j < |cs[i].resources|
    ensures ResourceCall(cs[i].resources[j]) in CategoryCalls(cs)
    decreases |cs|
  {
    var last := |cs| - 1;
    if i == last {
      assert CategoryBlock(cs[last])[1 + j] == ResourceCall(cs[i].resources[j]);
      assert ResourceCall(cs[i].resources[j]) in CategoryBlock(cs[last]);
    } else {
      CategoryCallsCover(cs[..last], i, j);
      assert cs[..last][i] == cs[i];
    }
  }

  lemma EveryResourceHandled(config: Config, sortByName: seq<Definition> -> seq<Definition>, i: nat, j: nat)
    requires i < |config.resourceCategories| && j < |config.resourceCategories[i].resources|
    ensures var r := config.resourceCategories[i].resources[j];
      (r.definition.Some? ==> WriteResource(r) in Plan(config, sortByName))
      && (r.definition.None? ==> MissingDefinition(r.name) in Plan(config, sortByName))
  {
    CategoryCallsCover(config.resourceCategories, i, j);
  }
}
