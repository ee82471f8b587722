/**
 * Every anchor and file name the generators compute: getLink,
 * definitionFileName and conceptFileName (gen-apidocs/generators/writer.go),
 * and the link ids built inline in the TeX and Markdown writers.
 */
module Naming {
  import opened Text
  import opened Api

  /** What getLink does to one character. */
  function LinkChar(c: char): char
  {
    LowerChar(if c == '.' || c == ' ' then '-' else c)
  }

  /** getLink: dots and spaces become dashes, then the text is lower-cased. */
  function GetLink(s: string): (r: string)
    ensures |r| == |s|
    ensures forall i :: 0 <= i < |s| ==> r[i] == LinkChar(s[i])
  {
    ToLower(ReplaceChar(ReplaceChar(s, '.', '-'), ' ', '-'))
  }

  /** A link has no dot, no space and no upper-case ASCII letter. */
  lemma GetLinkClean(s: string)
    ensures '.' !in GetLink(s) && ' ' !in GetLink(s)
    ensures forall i :: 0 <= i < |s| ==> !IsUpperAscii(GetLink(s)[i])
  {
  }

  /** A link is its own link. */
  lemma GetLinkIdempotent(s: string)
    ensures GetLink(GetLink(s)) == GetLink(s)
  {
    var once := GetLink(s);
    forall i | 0 <= i < |s| ensures GetLink(once)[i] == once[i] {
      assert once[i] != '.' && once[i] != ' ' && !IsUpperAscii(once[i]);
    }
  }

  /**
   * The definition name as file names use it: the first 50 dots become
   * `dot`, then the text is lower-cased.
   */
  function NameStem(name: string, dot: char): string
  {
    ToLower(ReplaceFirst(name, '.', dot, 50))
  }

  /**
   * With no more than 50 dots in the name no dot is left; beyond 50 the
   * dots past the fiftieth stay.
   */
  lemma NameStemDots(name: string, dot: char)
    requires dot != '.'
    ensures Count(NameStem(name, dot), '.') == if Count(name, '.') <= 50 then 0 else Count(name, '.') - 50
    ensures Count(name, '.') <= 50 ==> '.' !in NameStem(name, dot)
  {
    ReplaceFirstCount(name, '.', dot, 50);
    LowerKeepsCount(ReplaceFirst(name, '.', dot, 50), '.');
    CountZeroMeansAbsent(NameStem(name, dot), '.');
  }

  lemma {:induction false} LowerKeepsCount(s: string, c: char)
    requires !IsUpperAscii(c) && !IsLowerAscii(c)
    ensures Count(ToLower(s), c) == Count(s, c)
  {
    if s != [] {
      LowerKeepsCount(s[1..], c);
      assert ToLower(s)[1..] == ToLower(s[1..]);
    }
  }

  /** definitionFileName (without extension). */
  function DefinitionFileName(d: Definition): string
  {
    "generated_" + NameStem(d.name, '_') + "_" + d.version + "_" + d.group + "_definition"
  }

  /** conceptFileName (without extension). */
  function ConceptFileName(d: Definition): string
  {
    "generated_" + NameStem(d.name, '_') + "_" + d.version + "_" + d.group + "_concept"
  }

  /**
   * A definition file name and a concept file name never coincide, whatever
   * the two definitions: the first ends in "definition", the second in
   * "concept".
   */
  lemma FileNamesNeverCollide(d1: Definition, d2: Definition)
    ensures DefinitionFileName(d1) != ConceptFileName(d2)
  {
    var a, b := DefinitionFileName(d1), ConceptFileName(d2);
    assert a[|a| - 1] == 'n';
    assert b[|b| - 1] == 't';
  }

  /** The file name the Markdown writer gives a definition or a resource page. */
  function MarkdownFileName(d: Definition): string
  {
    NameStem(d.name, '-') + "-" + d.version + "-" + d.group + ".md"
  }

  /**
   * filepath.Join of a directory and a file name: the name alone when the
   * directory is empty, otherwise the two separated by a slash.
   */
  function PathJoin(dir: string, name: string): (r: string)
    ensures |r| == if dir == [] then |name| else |dir| + 1 + |name|
    ensures |name| > 0 ==> |r| > 0
    ensures dir == [] ==> r == name
    ensures dir != [] ==> r[..|dir|] == dir && r[|dir|] == '/' && r[|dir| + 1..] == name
  {
    if dir == [] then name else dir + "/" + name
  }

  /** strings.Replace(strings.ToLower(name), " ", "-", -1): the id of a named heading. */
  function Slug(name: string): (r: string)
  {
    ReplaceChar(ToLower(name), ' ', '-')
  }

  /** Replacing spaces first and lower-casing afterwards, as DefaultStaticContent does, gives the same id. */
  lemma SlugEitherOrder(s: string)
    ensures ToLower(ReplaceChar(s, ' ', '-')) == Slug(s)
  {
    assert forall i :: 0 <= i < |s| ==> ToLower(ReplaceChar(s, ' ', '-'))[i] == Slug(s)[i];
  }

  /** For a text without dots a slug is the same as its link. */
  lemma SlugIsLinkWithoutDots(s: string)
    requires '.' !in s
    ensures Slug(s) == GetLink(s)
  {
    assert forall i :: 0 <= i < |s| ==> Slug(s)[i] == GetLink(s)[i];
  }

  /** The two writers differ in how they build category anchors. */
  datatype Flavor = TeX | Markdown

  /**
   * The anchor of an operation category inside a resource: the TeX writer
   * wraps it in "-strong-" markers, the Markdown writer does not.
   */
  function CategoryLink(flavor: Flavor, name: string, linkId: string): string
  {
    match flavor
    case TeX => "-strong-" + Slug(name) + "-" + linkId + "-strong-"
    case Markdown => Slug(name) + "-" + linkId
  }

  /** The anchor of an operation inside a resource. */
  function OperationLink(typeName: string, linkId: string): string
  {
    Slug(typeName) + "-" + linkId
  }

  /** The TeX anchor of a resource category section. */
  function StrongLink(name: string): string
  {
    "-strong-" + Slug(name) + "-strong-"
  }

  /**
   * An example whose Tab and Type can be taken apart the way both writers
   * do (strings.Split(e.Tab, ":")[1], strings.Split(lType, "_")[1]); any
   * other example makes the source panic with an index out of range.
   */
  predicate WellFormedExample(e: ExampleText)
  {
    && TabOk(e)
    && |Split(e.kind, ":")| > 1
    && |Split(Split(e.kind, ":")[1], "_")| > 1
  }

  /** An example whose Tab alone can be taken apart. */
  predicate TabOk(e: ExampleText)
  {
    |Split(e.tab, ":")| > 1
  }

  /** The number of leading examples whose Tab can be taken apart: where a loop over Tab panics. */
  function LeadingTabsOk(es: seq<ExampleText>): (r: nat)
    ensures r <= |es|
    ensures forall j :: 0 <= j < r ==> TabOk(es[j])
    ensures r < |es| ==> !TabOk(es[r])
  {
    if es == [] || !TabOk(es[0]) then 0 else 1 + LeadingTabsOk(es[1..])
  }

  /** The number of leading well-formed examples: where a loop over Tab and Type panics. */
  function LeadingWellFormed(es: seq<ExampleText>): (r: nat)
    ensures r <= |es|
    ensures forall j :: 0 <= j < r ==> WellFormedExample(es[j])
    ensures r < |es| ==> !WellFormedExample(es[r])
  {
    if es == [] || !WellFormedExample(es[0]) then 0 else 1 + LeadingWellFormed(es[1..])
  }

  /** The tab name of an example: "kubectl" for "bdocs-tab:kubectl". */
  function ExampleTab(e: ExampleText): string
    requires TabOk(e)
  {
    Split(e.tab, ":")[1]
  }

  /** The language of an example: "shell" for "bdocs-tab:kubectl_shell". */
  function ExampleLang(e: ExampleText): string
    requires WellFormedExample(e)
  {
    Split(Split(e.kind, ":")[1], "_")[1]
  }

  /**
   * For an example written the usual way ("bdocs-tab:kubectl" and
   * "bdocs-tab:kubectl_shell") the tab is the text after the colon and the
   * language the text after the underscore.
   */
  lemma ExampleParts(key: string, tab: string, kindKey: string, tool: string, lang: string, msg: string, text: string)
    requires ':' !in key && ':' !in tab && ':' !in kindKey && ':' !in tool && ':' !in lang
    requires '_' !in tool && '_' !in lang
    ensures WellFormedExample(ExampleText(key + ":" + tab, msg, kindKey + ":" + tool + "_" + lang, text))
    ensures ExampleTab(ExampleText(key + ":" + tab, msg, kindKey + ":" + tool + "_" + lang, text)) == tab
    ensures ExampleLang(ExampleText(key + ":" + tab, msg, kindKey + ":" + tool + "_" + lang, text)) == lang
  {
    SplitAtFirst(key, ':', tab);
    SplitWithout(tab, ':');
    assert kindKey + ":" + tool + "_" + lang == kindKey + [':'] + (tool + "_" + lang);
    SplitAtFirst(kindKey, ':', tool + "_" + lang);
    SplitWithout(tool + "_" + lang, ':');
    SplitAtFirst(tool, '_', lang);
    SplitWithout(lang, '_');
  }
}
