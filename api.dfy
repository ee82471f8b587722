/**
 * The part of the api package's object graph that the generators read.
 * The api package itself is not part of this model: every accessor the
 * generators call on it (GroupDisplayName, LinkID, Link, FullLink, MdLink,
 * VersionLinkData, FullHrefLinkData, GetExampleRequests, GetExampleResponses,
 * Description, GetDisplayHttp) is a field holding whatever that accessor
 * returns.
 */
module Api {
  import opened Wrappers

  /**
   * One example (api.ExampleText): `tab` such as "bdocs-tab:kubectl", the
   * caption `msg`, `kind` (the Type field) such as "bdocs-tab:kubectl_shell",
   * and the example text itself.
   */
  datatype ExampleText = ExampleText(tab: string, msg: string, kind: string, text: string)

  /** A field of a definition or a parameter of an operation (api.Field). */
  datatype Field = Field(
    name: string,
    link: string,          // Link()
    fullLink: string,      // FullLink()
    patchStrategy: string,
    patchMergeKey: string,
    description: string,
    descriptionWithEntities: string)

  /** One documented HTTP response of an operation. */
  datatype HttpResponse = HttpResponse(name: string, field: Field)

  /** An operation; `typeName` is o.Type.Name. */
  datatype Operation = Operation(
    typeName: string,
    exampleRequests: seq<ExampleText>,   // GetExampleRequests()
    exampleResponses: seq<ExampleText>,  // GetExampleResponses()
    description: string,                 // Description()
    displayHttp: string,                 // GetDisplayHttp()
    pathParams: seq<Field>,
    queryParams: seq<Field>,
    bodyParams: seq<Field>,
    httpResponses: seq<HttpResponse>)

  datatype OperationCategory = OperationCategory(name: string, operations: seq<Operation>)

  /**
   * A reference to another definition, as the api package renders it:
   * `href` and `text` are the pair VersionLinkData (for an entry of
   * OtherVersions) or FullHrefLinkData (for an entry of AppearsIn) returns,
   * `mdLink` is MdLink().
   */
  datatype DefinitionLink = DefinitionLink(href: string, text: string, mdLink: string)

  datatype Definition = Definition(
    name: string,
    version: string,
    group: string,
    groupDisplayName: string,            // GroupDisplayName()
    linkId: string,                      // LinkID()
    inToc: bool,
    isInlined: bool,
    isOldVersion: bool,
    descriptionWithEntities: string,
    otherVersions: seq<DefinitionLink>,
    appearsIn: seq<DefinitionLink>,
    fields: seq<Field>,
    operationCategories: seq<OperationCategory>)

  /** A resource listed in the table of contents; its Definition may be nil. */
  datatype Resource = Resource(name: string, definition: Option<Definition>)

  datatype ResourceCategory = ResourceCategory(name: string, includeFile: string, resources: seq<Resource>)

  /** The loaded configuration (api.Config), as far as the generators use it. */
  datatype Config = Config(
    specVersion: string,
    resourceCategories: seq<ResourceCategory>,
    definitions: seq<Definition>,            // Definitions.All
    groupVersions: map<string, seq<string>>) // Definitions.GroupVersions
}
