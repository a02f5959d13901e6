/** Flow documents, their file links, and the report that preflight produces. */
module FlowModel {
  import opened Wrappers

  datatype SourceInfo = SourceInfo(path: string, line: int, column: int)

  type FieldSources = map<string, SourceInfo>

  function SourceForField(sources: FieldSources, field: string, fallback: SourceInfo): SourceInfo {
    if field in sources then sources[field] else fallback
  }

  datatype LinkKind = FlowLink | ScriptLink | MediaLink | UnknownLink(name: string)

  datatype FileLink = FileLink(kind: LinkKind, path: string, resolvedPath: string, source: SourceInfo)

  /** The platform a condition names. */
  datatype Platform = AndroidPlatform | IOSPlatform | WebPlatform | UnknownPlatform(name: string)

  /** An element selector: six optional relations, in the order preflight visits them,
      and a list of required descendants. */
  datatype Selector = Selector(
    css: Option<string>,
    below: Option<Selector>,
    above: Option<Selector>,
    leftOf: Option<Selector>,
    rightOf: Option<Selector>,
    containsChild: Option<Selector>,
    childOf: Option<Selector>,
    containsDescendants: seq<Selector>,
    fieldSources: FieldSources)

  datatype Condition = Condition(
    platform: Option<Platform>,
    visible: Option<Selector>,
    notVisible: Option<Selector>,
    fieldSources: FieldSources)

  datatype Arguments = TextArguments(text: string) | LinkArguments(browser: Option<bool>) | OtherArguments

  datatype Command = Command(
    keyword: string,
    arguments: Arguments,
    selector: Option<Selector>,
    condition: Option<Condition>,
    children: seq<Command>,
    links: seq<FileLink>,
    source: SourceInfo)

  datatype ExtValue = TextValue(text: string) | OtherValue

  datatype ExtEntry = ExtEntry(key: string, value: ExtValue)

  /** The extension entries are listed in ascending order of their keys. */
  datatype Config = Config(
    url: string,
    ext: seq<ExtEntry>,
    onFlowStart: seq<Command>,
    onFlowComplete: seq<Command>,
    source: SourceInfo,
    fieldSources: FieldSources)

  datatype Flow = Flow(schemaVersion: string, config: Config, commands: seq<Command>, source: SourceInfo)

  const AST_VERSION_V0 := "flowbaton.ast/v0"

  /** Every top-level command of a flow, hooks included, in execution order. */
  function AllCommands(flow: Flow): seq<Command> {
    flow.config.onFlowStart + flow.commands + flow.config.onFlowComplete
  }

  datatype GraphEdge = GraphEdge(from: string, to: string, kind: LinkKind, source: SourceInfo)

  datatype Report = Report(roots: seq<string>, nodes: seq<string>, edges: seq<GraphEdge>)

  datatype FeatureKind =
    | CommandFeature
    | SelectorFeature
    | ConfigExtensionFeature
    | CLISubcommandFeature
    | CLIFlagFeature
    | HostTargetFeature
    | DevicePlatformFeature
    | UnknownFeature(name: string)

  datatype LoadError =
    | NotExist
    | IsDirectory
    | NonRegular
    | Unparsable(source: SourceInfo)
    | OtherLoadError(detail: string)

  datatype ViolationCode =
    | UnsupportedCapability
    | UnsupportedPlatform
    | LinkError
    | DirectoryLink
    | NonRegularLink
    | MissingLink
    | FlowParseError
    | FlowLoadError
    | UnsupportedAstVersion
    | SelfLink
    | UnknownLinkKind
    | ActiveCycle

  datatype Violation = Violation(
    code: ViolationCode,
    feature: Option<(FeatureKind, string)>,
    source: SourceInfo,
    chain: seq<GraphEdge>,
    cause: Option<LoadError>)

  /** Operations of the host's path library. */
  datatype PathRules = PathRules(
    clean: string -> string,
    dir: string -> string,
    join: (string, string) -> string,
    isAbs: string -> bool)

  /** The path a link names on its own, relative to the flow that contains it. */
  function PathTarget(rules: PathRules, containing: string, link: FileLink): string {
    if rules.isAbs(link.path) then rules.clean(link.path) else rules.join(rules.dir(containing), link.path)
  }

  /** The path preflight asks the loader about. */
  function LinkTarget(rules: PathRules, containing: string, link: FileLink): string {
    if link.resolvedPath != "" then link.resolvedPath else PathTarget(rules, containing, link)
  }

  /** White space as the host's string library trims it. */
  predicate IsSpace(c: char) {
    c in "\t\n\U{B}\U{C}\r \U{85}\U{A0}\U{1680}\U{2028}\U{2029}\U{202F}\U{205F}\U{3000}"
        || '\U{2000}' <= c <= '\U{200A}'
  }

  predicate Blank(s: string) {
    forall i :: 0 <= i < |s| ==> IsSpace(s[i])
  }
}
