/** What a rejection of preflight tells: which place of which file it blames, for what, and under which code.
    Everything is stated of the documents and of the loader's answers, without the checker's own functions. */
module Rejections {
  import opened Wrappers
  import opened Sequences
  import opened FlowModel
  import opened Registry
  import opened Inspection
  import opened FlowGraphs
  import opened RecordingLoader
  import opened DepthFirst
  import opened Preflight
  import opened PreflightTheorems
  import opened FailClosed

  // ---------------------------------------------------------------------------
  // Links
  // ---------------------------------------------------------------------------

  /** The path that a link of the flow `from` stands for: its resolved path, or else its own path, cleaned if
      it is absolute and taken from the directory of the flow if it is relative. */
  ghost predicate Asks(rules: PathRules, from: string, link: FileLink, asked: string) {
    && (link.resolvedPath != "" ==> asked == link.resolvedPath)
    && (link.resolvedPath == "" && rules.isAbs(link.path) ==> asked == rules.clean(link.path))
    && (link.resolvedPath == "" && !rules.isAbs(link.path) ==> asked == rules.join(rules.dir(from), link.path))
  }

  /** The code tells what went wrong at the loader, resolving a path or loading a flow. */
  ghost predicate CodeMeans(code: ViolationCode, error: LoadError, loading: bool) {
    match code
    case DirectoryLink => error.IsDirectory?
    case NonRegularLink => error.NonRegular?
    case MissingLink => error.NotExist?
    case FlowParseError => loading && error.Unparsable?
    case FlowLoadError => loading && error.OtherLoadError?
    case LinkError => !loading && (error.Unparsable? || error.OtherLoadError?)
    case _ => false
  }

  /** The call site of a link as the report and the chains show it. */
  ghost predicate ShowsLink(rules: PathRules, from: string, link: FileLink, answer: Result<string, LoadError>,
                            edge: GraphEdge) {
    && edge.from == from && edge.kind == link.kind && edge.source == link.source
    && (answer.Success? && answer.value != "" ==> edge.to == answer.value)
    && (answer.Failure? || answer.value == "" ==>
          exists asked :: Asks(rules, from, link, asked) && edge.to == rules.clean(asked))
  }

  /** The link is refused for what the loader says of its path, or for where it leads. */
  ghost predicate LinkBlamed(rules: PathRules, trail: seq<string>, link: FileLink, answer: Result<string, LoadError>,
                             v: Violation)
    requires trail != []
  {
    && v.source == link.source && v.feature.None?
    && match answer
       case Failure(error) => CodeMeans(v.code, error, false) && v.cause == Some(error)
       case Success(target) =>
         && v.cause.None?
         && match v.code
            case ActiveCycle => link.kind.FlowLink? && target in trail
            case SelfLink => !link.kind.FlowLink? && target == trail[|trail| - 1]
            case UnknownLinkKind => link.kind.UnknownLink? && target != trail[|trail| - 1]
            case _ => false
  }

  lemma ProblemBlamesLink(rules: PathRules, trail: seq<string>, link: FileLink, answer: Result<string, LoadError>,
                          chain: seq<GraphEdge>, v: Violation)
    requires trail != [] && LinkProblem(rules, trail[|trail| - 1], link, answer, trail, chain) == Some(v)
    ensures LinkBlamed(rules, trail, link, answer, v)
  {
  }

  lemma LinkAsks(rules: PathRules, from: string, link: FileLink)
    ensures forall asked :: Asks(rules, from, link, asked) <==> asked == LinkTarget(rules, from, link)
  {
  }

  lemma CallSiteShowsLink(rules: PathRules, from: string, link: FileLink, answer: Result<string, LoadError>)
    ensures ShowsLink(rules, from, link, answer, CallSite(rules, from, link, answer))
  {
    hide Asks;
    LinkAsks(rules, from, link);
  }

  /** Every link of an accepted flow was asked about under the path it stands for and led where the loader
      said, and the report shows exactly the call sites of these links, in order. */
  lemma {:induction false} AcceptedLinksAreAskedAndShown(
      setup: Setup, selected: seq<string>, canonical: CanonicalTable, flows: FlowTable, report: Report, hops: Hops,
      finish: seq<string>, p: string, k: nat)
    requires Accepted(setup, selected, canonical, flows, report, hops, finish) && p in hops
    requires p in flows && flows[p].Success? && k < |FlowLinks(flows[p].value)|
    ensures k < |hops[p]| == |EdgesFrom(report.edges, p)|
    ensures exists asked :: Asks(setup.rules, p, FlowLinks(flows[p].value)[k], asked) && asked in canonical
              && canonical[asked] == Success(hops[p][k].target)
    ensures ShowsLink(setup.rules, p, FlowLinks(flows[p].value)[k], Success(hops[p][k].target),
                      EdgesFrom(report.edges, p)[k])
  {
    hide Asks, ChildrenFirst, Reachable, RootsRecorded, Clear, FlowLinks;
    assert NodeAccepted(setup, canonical, flows, report.edges, hops, p);
    var link := FlowLinks(flows[p].value)[k];
    LinkAsks(setup.rules, p, link);
    CallSiteShowsLink(setup.rules, p, link, Success(hops[p][k].target));
    assert Asks(setup.rules, p, link, LinkTarget(setup.rules, p, link));
  }

  // ---------------------------------------------------------------------------
  // Features
  // ---------------------------------------------------------------------------

  /** Where a field of a document was written, or the place to fall back to. */
  ghost predicate FieldAt(sources: FieldSources, field: string, fallback: SourceInfo, source: SourceInfo) {
    && (field in sources ==> source == sources[field])
    && (field !in sources ==> source == fallback)
  }

  /** The violation blames a feature for lacking support; its code tells whether another platform has it. */
  ghost predicate Blames(v: Violation, kind: FeatureKind, name: string, catalog: Catalog,
                         platform: Option<ExecutionPlatform>) {
    && v.feature == Some((kind, name)) && v.cause.None? && !Supported(catalog, kind, name, platform)
    && v.code == (if Supported(catalog, kind, name, None) then UnsupportedPlatform else UnsupportedCapability)
  }

  ghost predicate CSSBlamed(selector: Selector, catalog: Catalog, fallback: SourceInfo,
                            platform: Option<ExecutionPlatform>, v: Violation) {
    && Blames(v, SelectorFeature, "css", catalog, platform)
    && exists place :: SelectorAddresses(selector, place) && SelectorAt(selector, place).css.Some?
         && FieldAt(SelectorAt(selector, place).fieldSources, "css", fallback, v.source)
  }

  ghost predicate FieldCSSBlamed(selector: Option<Selector>, sources: FieldSources, field: string, catalog: Catalog,
                                 fallback: SourceInfo, platform: Option<ExecutionPlatform>, v: Violation) {
    selector.Some? && exists source ::
      FieldAt(sources, field, fallback, source) && CSSBlamed(selector.value, catalog, source, platform, v)
  }

  ghost predicate ConditionBlamed(condition: Option<Condition>, catalog: Catalog, fallback: SourceInfo,
                                  platform: Option<ExecutionPlatform>, v: Violation) {
    condition.Some? && var c := condition.value;
      || (&& c.platform == Some(WebPlatform) && Blames(v, DevicePlatformFeature, "web", catalog, platform)
          && FieldAt(c.fieldSources, "platform", fallback, v.source))
      || FieldCSSBlamed(c.visible, c.fieldSources, "visible", catalog, fallback, platform, v)
      || FieldCSSBlamed(c.notVisible, c.fieldSources, "notVisible", catalog, fallback, platform, v)
  }

  /** The command itself, or the value it was given, is what the selected platform does not take. */
  ghost predicate KeywordBlamed(command: Command, catalog: Catalog, tables: DriverTables,
                                platform: Option<ExecutionPlatform>, v: Violation) {
    && v.source == command.source
    && (|| Blames(v, CommandFeature, command.keyword, catalog, platform)
        || (&& !ValueSupported(command, tables, platform) && v.code.UnsupportedPlatform? && v.cause.None?
            && v.feature == Some((CommandFeature, command.keyword))))
  }

  /** Of a command for another platform only the condition can be blamed, for lacking support everywhere. */
  ghost predicate CommandBlamed(command: Command, catalog: Catalog, tables: DriverTables,
                                platform: Option<ExecutionPlatform>, v: Violation) {
    if ForAnotherPlatform(command.condition, platform)
    then ConditionBlamed(command.condition, catalog, command.source, None, v)
    else
      || KeywordBlamed(command, catalog, tables, platform, v)
      || ConditionBlamed(command.condition, catalog, command.source, platform, v)
      || (command.selector.Some? && CSSBlamed(command.selector.value, catalog, command.source, platform, v))
  }

  /** Place `a` comes before place `b` in the document: above it, or in an earlier branch. */
  ghost predicate Earlier(a: seq<nat>, b: seq<nat>) {
    b != [] && (a == [] || a[0] < b[0] || (a[0] == b[0] && Earlier(a[1..], b[1..])))
  }

  /** The first command of the list that is not supported is blamed. */
  ghost predicate FirstBlamed(commands: seq<Command>, catalog: Catalog, tables: DriverTables,
                              platform: Option<ExecutionPlatform>, v: Violation, place: seq<nat>) {
    && Addresses(commands, place) && Unskipped(commands, place, platform)
    && CommandBlamed(CommandAt(commands, place), catalog, tables, platform, v)
    && forall other :: Addresses(commands, other) && Unskipped(commands, other, platform) && Earlier(other, place) ==>
         CommandSupported(CommandAt(commands, other), catalog, tables, platform)
  }

  ghost predicate CommandsBlamed(commands: seq<Command>, catalog: Catalog, tables: DriverTables,
                                 platform: Option<ExecutionPlatform>, v: Violation) {
    exists place :: FirstBlamed(commands, catalog, tables, platform, v, place)
  }

  ghost predicate ExtensionBlamed(config: Config, i: nat, name: string, catalog: Catalog,
                                  platform: Option<ExecutionPlatform>, v: Violation) {
    && i < |config.ext| && UsesExtension(config.ext[i], name)
    && Blames(v, ConfigExtensionFeature, name, catalog, platform)
    && FieldAt(config.fieldSources, config.ext[i].key, config.source, v.source)
    && ExtensionsSupported(config.ext[..i], catalog, platform)
  }

  /** The flow is refused for its first unsupported feature: its URL, or else an extension in key order, or
      else a command of its start hook, its body and its completion hook, in document order. */
  ghost predicate FlowBlamed(flow: Flow, catalog: Catalog, tables: DriverTables, platform: Option<ExecutionPlatform>,
                             v: Violation) {
    var config := flow.config;
    if config.url != "" then
      && Blames(v, ConfigExtensionFeature, "url", catalog, platform)
      && FieldAt(config.fieldSources, "url", config.source, v.source)
    else
      || (exists i, name :: ExtensionBlamed(config, i, name, catalog, platform, v))
      || (&& ExtensionsSupported(config.ext, catalog, platform)
          && (|| CommandsBlamed(config.onFlowStart, catalog, tables, platform, v)
              || (&& CommandsSupported(config.onFlowStart, catalog, tables, platform)
                  && (|| CommandsBlamed(flow.commands, catalog, tables, platform, v)
                      || (&& CommandsSupported(flow.commands, catalog, tables, platform)
                          && CommandsBlamed(config.onFlowComplete, catalog, tables, platform, v))))))
  }

  // ---------------------------------------------------------------------------
  // Inspection blames what is unsupported
  // ---------------------------------------------------------------------------

  lemma FieldSourceIsAt(sources: FieldSources, field: string, fallback: SourceInfo)
    ensures FieldAt(sources, field, fallback, SourceForField(sources, field, fallback))
  {
  }

  lemma FeatureIsBlamed(catalog: Catalog, required: set<Key>, kind: FeatureKind, name: string, source: SourceInfo,
                        platform: Option<ExecutionPlatform>)
    requires ValidCatalog(catalog, required)
    ensures UnsupportedFeature(catalog, kind, name, source, platform).Some? ==>
              var v := UnsupportedFeature(catalog, kind, name, source, platform).value;
              Blames(v, kind, name, catalog, platform) && v.source == source
  {
    hide ValidCatalog, Supported;
    RefusedExactlyWhenUnsupported(catalog, required, kind, name, source, platform);
  }

  ghost predicate ListedCSSBlamed(selectors: seq<Selector>, i: nat, catalog: Catalog, fallback: SourceInfo,
                                  platform: Option<ExecutionPlatform>, v: Violation) {
    i < |selectors| && CSSBlamed(selectors[i], catalog, fallback, platform, v)
  }

  lemma BlamedBelow(s: Selector, i: nat, catalog: Catalog, fallback: SourceInfo,
                    platform: Option<ExecutionPlatform>, v: Violation)
    requires ListedCSSBlamed(SubSelectors(s), i, catalog, fallback, platform, v)
    ensures CSSBlamed(s, catalog, fallback, platform, v)
  {
    hide Blames, SubSelectors, FieldAt;
    var inner := SubSelectors(s)[i];
    var place :| SelectorAddresses(inner, place) && SelectorAt(inner, place).css.Some?
              && FieldAt(SelectorAt(inner, place).fieldSources, "css", fallback, v.source);
    var outer := [i] + place;
    assert outer[1..] == place;
    assert SelectorAddresses(s, outer) && SelectorAt(s, outer) == SelectorAt(inner, place);
  }

  lemma {:induction false} SelectorsAreBlamed(selectors: seq<Selector>, catalog: Catalog, required: set<Key>,
                                              fallback: SourceInfo, platform: Option<ExecutionPlatform>)
    requires ValidCatalog(catalog, required) && SelectorsViolation(selectors, catalog, fallback, platform).Some?
    ensures exists i :: ListedCSSBlamed(selectors, i, catalog, fallback, platform,
                                        SelectorsViolation(selectors, catalog, fallback, platform).value)
    decreases SelectorsSize(selectors)
  {
    hide ValidCatalog, Blames, SubSelectors, FieldAt, UnsupportedFeature, CSSBlamed, SourceForField;
    var first, rest := selectors[0], selectors[1..];
    var v := SelectorsViolation(selectors, catalog, fallback, platform).value;
    SubSelectorsSize(first);
    if InspectCSS(first, catalog, fallback, platform).Some? {
      OwnCSSIsBlamed(first, catalog, required, fallback, platform);
      assert ListedCSSBlamed(selectors, 0, catalog, fallback, platform, v);
    } else if SelectorsViolation(SubSelectors(first), catalog, fallback, platform).Some? {
      SelectorsAreBlamed(SubSelectors(first), catalog, required, fallback, platform);
      var i: nat :| ListedCSSBlamed(SubSelectors(first), i, catalog, fallback, platform, v);
      BlamedBelow(first, i, catalog, fallback, platform, v);
      assert ListedCSSBlamed(selectors, 0, catalog, fallback, platform, v);
    } else {
      SelectorsAreBlamed(rest, catalog, required, fallback, platform);
      var i: nat :| ListedCSSBlamed(rest, i, catalog, fallback, platform, v);
      assert ListedCSSBlamed(selectors, i + 1, catalog, fallback, platform, v);
    }
  }

  lemma OwnCSSIsBlamed(s: Selector, catalog: Catalog, required: set<Key>, fallback: SourceInfo,
                       platform: Option<ExecutionPlatform>)
    requires ValidCatalog(catalog, required) && InspectCSS(s, catalog, fallback, platform).Some?
    ensures CSSBlamed(s, catalog, fallback, platform, InspectCSS(s, catalog, fallback, platform).value)
  {
    hide ValidCatalog, Blames, SubSelectors, FieldAt, UnsupportedFeature, SourceForField;
    var source := SourceForField(s.fieldSources, "css", fallback);
    FieldSourceIsAt(s.fieldSources, "css", fallback);
    FeatureIsBlamed(catalog, required, SelectorFeature, "css", source, platform);
    assert SelectorAddresses(s, []) && SelectorAt(s, []) == s;
  }

  lemma SelectorIsBlamed(selector: Option<Selector>, catalog: Catalog, required: set<Key>, fallback: SourceInfo,
                         platform: Option<ExecutionPlatform>)
    requires ValidCatalog(catalog, required) && OptionalViolation(selector, catalog, fallback, platform).Some?
    ensures selector.Some? && CSSBlamed(selector.value, catalog, fallback, platform,
                                        OptionalViolation(selector, catalog, fallback, platform).value)
  {
    hide ValidCatalog, CSSBlamed;
    SelectorsAreBlamed(Present(selector), catalog, required, fallback, platform);
  }

  lemma ConditionIsBlamed(condition: Option<Condition>, catalog: Catalog, required: set<Key>, fallback: SourceInfo,
                          platform: Option<ExecutionPlatform>)
    requires ValidCatalog(catalog, required) && ConditionViolation(condition, catalog, fallback, platform).Some?
    ensures ConditionBlamed(condition, catalog, fallback, platform,
                            ConditionViolation(condition, catalog, fallback, platform).value)
  {
    hide ValidCatalog, CSSBlamed, OptionalViolation, FieldAt, SourceForField, UnsupportedFeature, Blames;
    var c := condition.value;
    FieldSourceIsAt(c.fieldSources, "platform", fallback);
    FieldSourceIsAt(c.fieldSources, "visible", fallback);
    FieldSourceIsAt(c.fieldSources, "notVisible", fallback);
    var visible := SourceForField(c.fieldSources, "visible", fallback);
    var notVisible := SourceForField(c.fieldSources, "notVisible", fallback);
    if WebConditionViolation(c, catalog, fallback, platform).Some? {
      FeatureIsBlamed(catalog, required, DevicePlatformFeature, "web",
                      SourceForField(c.fieldSources, "platform", fallback), platform);
    } else if OptionalViolation(c.visible, catalog, visible, platform).Some? {
      SelectorIsBlamed(c.visible, catalog, required, visible, platform);
    } else {
      SelectorIsBlamed(c.notVisible, catalog, required, notVisible, platform);
    }
  }

  lemma CommandIsBlamed(command: Command, catalog: Catalog, required: set<Key>, tables: DriverTables,
                        platform: Option<ExecutionPlatform>)
    requires ValidCatalog(catalog, required) && OwnViolation(command, catalog, tables, platform).Some?
    ensures CommandBlamed(command, catalog, tables, platform,
                          OwnViolation(command, catalog, tables, platform).value)
  {
    hide ValidCatalog, CSSBlamed, OptionalViolation, ConditionViolation, ConditionBlamed, UnsupportedFeature, Blames;
    hide AuthoredValueRuns, ValueSupported, ConditionExcludesPlatform, ForAnotherPlatform;
    ExcludedExactlyWhenForAnother(command.condition, platform);
    if ForAnotherPlatform(command.condition, platform) {
      ConditionIsBlamed(command.condition, catalog, required, command.source, None);
    } else if CommandViolation(command, catalog, tables, platform).Some? {
      ValueRunsExactlyWhenSupported(command, tables, platform);
      FeatureIsBlamed(catalog, required, CommandFeature, command.keyword, command.source, platform);
    } else if ConditionViolation(command.condition, catalog, command.source, platform).Some? {
      ConditionIsBlamed(command.condition, catalog, required, command.source, platform);
    } else {
      SelectorIsBlamed(command.selector, catalog, required, command.source, platform);
    }
  }

  lemma FirstIsBlamed(commands: seq<Command>, catalog: Catalog, tables: DriverTables,
                      platform: Option<ExecutionPlatform>, v: Violation)
    requires commands != [] && CommandBlamed(commands[0], catalog, tables, platform, v)
    ensures FirstBlamed(commands, catalog, tables, platform, v, [0])
  {
    hide CommandBlamed, CommandSupported;
    assert CommandAt(commands, [0]) == commands[0];
    forall other | Addresses(commands, other) ensures !Earlier(other, [0]) {
      assert other[0] == 0 ==> !Earlier(other[1..], [0][1..]);
    }
  }

  lemma {:induction false} InnerIsBlamed(commands: seq<Command>, catalog: Catalog, tables: DriverTables,
                                         platform: Option<ExecutionPlatform>, v: Violation, place: seq<nat>)
    requires commands != [] && !ForAnotherPlatform(commands[0].condition, platform)
    requires CommandSupported(commands[0], catalog, tables, platform)
    requires FirstBlamed(commands[0].children, catalog, tables, platform, v, place)
    ensures FirstBlamed(commands, catalog, tables, platform, v, [0] + place)
  {
    hide CommandBlamed, CommandSupported, ForAnotherPlatform;
    var outer, inner := [0] + place, commands[0].children;
    assert outer[1..] == place;
    assert CommandAt(commands, outer) == CommandAt(inner, place);
    forall other | Addresses(commands, other) && Unskipped(commands, other, platform) && Earlier(other, outer)
      ensures CommandSupported(CommandAt(commands, other), catalog, tables, platform)
    {
      if |other| > 1 {
        assert Addresses(inner, other[1..]) && Unskipped(inner, other[1..], platform) && Earlier(other[1..], place);
      }
    }
  }

  lemma {:induction false} LaterIsBlamed(commands: seq<Command>, catalog: Catalog, tables: DriverTables,
                                         platform: Option<ExecutionPlatform>, v: Violation, place: seq<nat>)
    requires commands != [] && CommandsSupported(commands[..1], catalog, tables, platform)
    requires FirstBlamed(commands[1..], catalog, tables, platform, v, place)
    ensures CommandsBlamed(commands, catalog, tables, platform, v)
  {
    hide CommandBlamed, CommandSupported, ForAnotherPlatform;
    var tail, shifted := commands[1..], [place[0] + 1] + place[1..];
    assert shifted[1..] == place[1..] && commands[shifted[0]] == tail[place[0]];
    assert CommandAt(commands, shifted) == CommandAt(tail, place);
    forall other | Addresses(commands, other) && Unskipped(commands, other, platform) && Earlier(other, shifted)
      ensures CommandSupported(CommandAt(commands, other), catalog, tables, platform)
    {
      if other[0] == 0 {
        assert commands[..1][0] == commands[0];
        assert Addresses(commands[..1], other) && CommandAt(commands[..1], other) == CommandAt(commands, other);
      } else {
        var back := [other[0] - 1] + other[1..];
        assert back[1..] == other[1..] && tail[back[0]] == commands[other[0]];
        assert CommandAt(tail, back) == CommandAt(commands, other);
        assert Addresses(tail, back) && Unskipped(tail, back, platform) && Earlier(back, place);
      }
    }
    assert FirstBlamed(commands, catalog, tables, platform, v, shifted);
  }

  lemma {:induction false} CommandsPassExactlyWhen(commands: seq<Command>, catalog: Catalog, required: set<Key>,
                                                   tables: DriverTables, platform: Option<ExecutionPlatform>)
    requires ValidCatalog(catalog, required)
    ensures CommandsViolation(commands, catalog, tables, platform).None? <==>
              CommandsSupported(commands, catalog, tables, platform)
  {
    hide ValidCatalog, CommandSupported, OwnViolation, CommandsViolation;
    InspectionIsComplete(commands, catalog, tables, platform);
    forall command
      ensures OwnViolation(command, catalog, tables, platform).None? <==>
                CommandSupported(command, catalog, tables, platform)
    {
      CommandPassesExactlyWhen(command, catalog, required, tables, platform);
    }
  }

  lemma HeadPasses(commands: seq<Command>, catalog: Catalog, tables: DriverTables,
                   platform: Option<ExecutionPlatform>)
    requires commands != [] && OwnViolation(commands[0], catalog, tables, platform).None?
    requires !ForAnotherPlatform(commands[0].condition, platform) ==>
               CommandsViolation(commands[0].children, catalog, tables, platform).None?
    ensures CommandsViolation(commands[..1], catalog, tables, platform).None?
  {
    hide OwnViolation, ForAnotherPlatform, ConditionExcludesPlatform;
    ExcludedExactlyWhenForAnother(commands[0].condition, platform);
    assert commands[..1][1..] == [];
  }

  lemma {:induction false} CommandsAreBlamed(commands: seq<Command>, catalog: Catalog, required: set<Key>,
                                             tables: DriverTables, platform: Option<ExecutionPlatform>)
    requires ValidCatalog(catalog, required) && CommandsViolation(commands, catalog, tables, platform).Some?
    ensures CommandsBlamed(commands, catalog, tables, platform,
                           CommandsViolation(commands, catalog, tables, platform).value)
    decreases commands
  {
    hide ValidCatalog, OwnViolation, CommandBlamed, CommandSupported, CommandsSupported, FirstBlamed;
    hide ForAnotherPlatform, ConditionExcludesPlatform;
    var head, tail := commands[0], commands[1..];
    var v := CommandsViolation(commands, catalog, tables, platform).value;
    ExcludedExactlyWhenForAnother(head.condition, platform);
    if OwnViolation(head, catalog, tables, platform).Some? {
      CommandIsBlamed(head, catalog, required, tables, platform);
      FirstIsBlamed(commands, catalog, tables, platform, v);
    } else if !ForAnotherPlatform(head.condition, platform)
        && CommandsViolation(head.children, catalog, tables, platform).Some? {
      CommandsAreBlamed(head.children, catalog, required, tables, platform);
      CommandPassesExactlyWhen(head, catalog, required, tables, platform);
      var place :| FirstBlamed(head.children, catalog, tables, platform, v, place);
      InnerIsBlamed(commands, catalog, tables, platform, v, place);
    } else {
      CommandsAreBlamed(tail, catalog, required, tables, platform);
      HeadPasses(commands, catalog, tables, platform);
      CommandsPassExactlyWhen(commands[..1], catalog, required, tables, platform);
      var place :| FirstBlamed(tail, catalog, tables, platform, v, place);
      LaterIsBlamed(commands, catalog, tables, platform, v, place);
    }
  }

  lemma {:induction false} ExtensionIsBlamed(config: Config, i: nat, catalog: Catalog, required: set<Key>,
                                             platform: Option<ExecutionPlatform>) returns (j: nat, name: string)
    requires ValidCatalog(catalog, required) && i <= |config.ext|
    requires ExtViolations(config.ext[..i], config, catalog, platform).None?
    requires ExtViolations(config.ext[i..], config, catalog, platform).Some?
    ensures ExtensionBlamed(config, j, name, catalog, platform,
                            ExtViolations(config.ext[i..], config, catalog, platform).value)
    decreases |config.ext| - i
  {
    hide ValidCatalog, Blames, UnsupportedFeature, FieldAt, SourceForField, ExtensionsSupported, UsesExtension, ExtName;
    j, name := i, ExtName(config.ext[i]);
    if ExtViolation(config.ext[i], config, catalog, platform).Some? {
      ExtensionName(config.ext[i]);
      ExtensionsPassExactlyWhen(config.ext[..i], config, catalog, required, platform);
      FieldSourceIsAt(config.fieldSources, config.ext[i].key, config.source);
      FeatureIsBlamed(catalog, required, ConfigExtensionFeature, name,
                      SourceForField(config.fieldSources, config.ext[i].key, config.source), platform);
    } else {
      assert config.ext[i..][1..] == config.ext[i + 1..];
      NextExtensionPasses(config, i, catalog, platform);
      j, name := ExtensionIsBlamed(config, i + 1, catalog, required, platform);
    }
  }

  lemma {:induction false} NextExtensionPasses(config: Config, i: nat, catalog: Catalog,
                                               platform: Option<ExecutionPlatform>)
    requires i < |config.ext| && ExtViolations(config.ext[..i], config, catalog, platform).None?
    requires ExtViolation(config.ext[i], config, catalog, platform).None?
    ensures ExtViolations(config.ext[..i + 1], config, catalog, platform).None?
  {
    hide ExtViolation;
    assert config.ext[..i + 1] == config.ext[..i] + [config.ext[i]];
    ExtViolationsAppend(config.ext[..i], config.ext[i], config, catalog, platform);
  }

  lemma {:induction false} ExtViolationsAppend(ext: seq<ExtEntry>, last: ExtEntry, config: Config, catalog: Catalog,
                                               platform: Option<ExecutionPlatform>)
    ensures ExtViolations(ext + [last], config, catalog, platform) ==
            OrElse(ExtViolations(ext, config, catalog, platform), ExtViolation(last, config, catalog, platform))
  {
    hide ExtViolation;
    if ext != [] {
      ExtViolationsAppend(ext[1..], last, config, catalog, platform);
      assert (ext + [last])[1..] == ext[1..] + [last];
    }
  }

  /** A flow that inspection refuses is blamed for its first unsupported feature, at the place it is written. */
  lemma {:induction false} InspectionBlamesTheFirst(flow: Flow, catalog: Catalog, required: set<Key>,
                                                    tables: DriverTables, platform: Option<ExecutionPlatform>)
    requires ValidCatalog(catalog, required) && FlowViolation(flow, catalog, tables, platform).Some?
    ensures FlowBlamed(flow, catalog, tables, platform, FlowViolation(flow, catalog, tables, platform).value)
  {
    hide ValidCatalog, Blames, UnsupportedFeature, FieldAt, SourceForField, ExtensionsSupported, CommandsSupported;
    hide CommandsBlamed, ExtensionBlamed, ExtViolations, CommandsViolation;
    var config := flow.config;
    if config.url != "" {
      FieldSourceIsAt(config.fieldSources, "url", config.source);
      FeatureIsBlamed(catalog, required, ConfigExtensionFeature, "url",
                      SourceForField(config.fieldSources, "url", config.source), platform);
    } else if ExtViolations(config.ext, config, catalog, platform).Some? {
      assert config.ext[0..] == config.ext && config.ext[..0] == [];
      NoExtensionViolation(config, catalog, platform);
      var i, name := ExtensionIsBlamed(config, 0, catalog, required, platform);
    } else {
      ExtensionsPassExactlyWhen(config.ext, config, catalog, required, platform);
      PhasesAreBlamed(flow, catalog, required, tables, platform);
    }
  }

  lemma NoExtensionViolation(config: Config, catalog: Catalog, platform: Option<ExecutionPlatform>)
    ensures ExtViolations([], config, catalog, platform).None?
  {
  }

  lemma PhasesAreBlamed(flow: Flow, catalog: Catalog, required: set<Key>, tables: DriverTables,
                        platform: Option<ExecutionPlatform>)
    requires ValidCatalog(catalog, required) && CommandsViolation(AllCommands(flow), catalog, tables, platform).Some?
    ensures var v := CommandsViolation(AllCommands(flow), catalog, tables, platform).value;
            || CommandsBlamed(flow.config.onFlowStart, catalog, tables, platform, v)
            || (&& CommandsSupported(flow.config.onFlowStart, catalog, tables, platform)
                && (|| CommandsBlamed(flow.commands, catalog, tables, platform, v)
                    || (&& CommandsSupported(flow.commands, catalog, tables, platform)
                        && CommandsBlamed(flow.config.onFlowComplete, catalog, tables, platform, v))))
  {
    hide ValidCatalog, CommandsViolation, CommandsBlamed, CommandsSupported;
    var before, after := flow.config.onFlowStart, flow.config.onFlowComplete;
    CommandsViolationConcat(before, flow.commands, catalog, tables, platform);
    CommandsViolationConcat(before + flow.commands, after, catalog, tables, platform);
    CommandsPassExactlyWhen(before, catalog, required, tables, platform);
    CommandsPassExactlyWhen(flow.commands, catalog, required, tables, platform);
    if CommandsViolation(before, catalog, tables, platform).Some? {
      CommandsAreBlamed(before, catalog, required, tables, platform);
    } else if CommandsViolation(flow.commands, catalog, tables, platform).Some? {
      CommandsAreBlamed(flow.commands, catalog, required, tables, platform);
    } else {
      CommandsAreBlamed(after, catalog, required, tables, platform);
    }
  }

  // ---------------------------------------------------------------------------
  // Rejections
  // ---------------------------------------------------------------------------

  /** The flow could not be loaded, has another version, or has an unsupported feature. */
  ghost predicate LoadBlamed(setup: Setup, path: string, answer: Result<Flow, LoadError>, v: Violation) {
    match answer
    case Failure(error) =>
      && CodeMeans(v.code, error, true) && v.cause == Some(error) && v.feature.None?
      && v.source == if error.Unparsable? then error.source else SourceInfo(path, 1, 1)
    case Success(flow) =>
      if flow.schemaVersion != AST_VERSION_V0 then
        && v.code.UnsupportedAstVersion? && v.cause.None? && v.feature.None?
        && (flow.source.path != "" ==> v.source == flow.source)
        && (flow.source.path == "" && flow.config.source.path != "" ==> v.source == flow.config.source)
        && (flow.source.path == "" && flow.config.source.path == "" ==> v.source == SourceInfo(path, 1, 1))
      else exists found ::
        FlowBlamed(flow, setup.catalog, setup.tables, setup.platform, found) && v == found.(chain := v.chain)
  }

  /** Link k of the last flow of the trail is blamed, and the chain ends with its call site. */
  ghost predicate TrailLinkBlamed(rules: PathRules, canonical: CanonicalTable, flow: Flow, trail: seq<string>, k: nat,
                                  asked: string, v: Violation)
    requires trail != []
  {
    && k < |FlowLinks(flow)| && Asks(rules, trail[|trail| - 1], FlowLinks(flow)[k], asked) && asked in canonical
    && LinkBlamed(rules, trail, FlowLinks(flow)[k], canonical[asked], v)
    && |v.chain| == |trail|
    && ShowsLink(rules, trail[|trail| - 1], FlowLinks(flow)[k], canonical[asked], v.chain[|trail| - 1])
  }

  /** What a rejection tells, given the answers of the loader and the trail of flows to the one refused. */
  ghost predicate Explained(setup: Setup, selected: seq<string>, roots: seq<string>, canonical: CanonicalTable,
                            flows: FlowTable, trail: seq<string>, v: Violation) {
    if trail == [] then
      && |roots| < |selected| && selected[|roots|] in canonical && canonical[selected[|roots|]].Failure?
      && CodeMeans(v.code, canonical[selected[|roots|]].error, false) && v.feature.None? && v.chain == []
      && v.cause == Some(canonical[selected[|roots|]].error) && v.source == SourceInfo(selected[|roots|], 1, 1)
    else
      var n := trail[|trail| - 1];
      && n in flows
      && (|| (|v.chain| + 1 == |trail| && LoadBlamed(setup, n, flows[n], v))
          || (flows[n].Success? && exists k, asked ::
                TrailLinkBlamed(setup.rules, canonical, flows[n].value, trail, k, asked, v)))
  }

  lemma RefusedFlowIsExplained(setup: Setup, flows: FlowTable, hops: Hops, trail: seq<string>, v: Violation)
    requires SetupOk(setup) && trail != [] && FlowRefused(setup, flows, hops, trail, v)
    ensures LoadBlamed(setup, trail[|trail| - 1], flows[trail[|trail| - 1]], v)
  {
    hide FlowBlamed, FlowViolation, ValidCatalog, ChainAlong;
    var n := trail[|trail| - 1];
    if flows[n].Success? && flows[n].value.schemaVersion == AST_VERSION_V0 {
      var flow := flows[n].value;
      InspectionBlamesTheFirst(flow, setup.catalog, setup.required, setup.tables, setup.platform);
      var found := FlowViolation(flow, setup.catalog, setup.tables, setup.platform);
      assert v == found.value.(chain := v.chain);
    }
  }

  /** Every rejection that the recorded answers justify says what was wrong and where: the root or link that
      does not resolve with the code for the loader's error, the flow that does not load, or the first
      unsupported feature of a flow at the place it is written. */
  lemma {:induction false} RejectionIsExplained(
      setup: Setup, selected: seq<string>, roots: seq<string>, canonical: CanonicalTable, flows: FlowTable,
      hops: Hops, trail: seq<string>, v: Violation)
    requires SetupOk(setup) && Justified(setup, selected, roots, canonical, flows, hops, trail, v)
    ensures Explained(setup, selected, roots, canonical, flows, trail, v)
  {
    hide SetupOk, HopsGenuine, RootsRecorded, LoadBlamed, FlowLinks, ChainLink, FlowProblem, LinkProblem, CallSite;
    hide LinkBlamed, ShowsLink, Asks, LinkTarget;
    if trail != [] {
      var n := trail[|trail| - 1];
      if FlowRefused(setup, flows, hops, trail, v) {
        RefusedFlowIsExplained(setup, flows, hops, trail, v);
      } else {
        var k: nat :| LinkRefused(setup.rules, canonical, flows, hops, trail, k, v);
        var link := FlowLinks(flows[n].value)[k];
        var asked := LinkTarget(setup.rules, n, link);
        LinkAsks(setup.rules, n, link);
        ProblemBlamesLink(setup.rules, trail, link, canonical[asked], v.chain, v);
        CallSiteShowsLink(setup.rules, n, link, canonical[asked]);
        assert TrailLinkBlamed(setup.rules, canonical, flows[n].value, trail, k, asked, v);
      }
    }
  }
}
