/** The promise of preflight: an accepted plan uses only features that the registry supports on the
    selected platform. Support is stated of the flow document itself, without the inspector. */
module FailClosed {
  import opened Wrappers
  import opened Sequences
  import opened FlowModel
  import opened Registry
  import opened Inspection
  import opened FlowGraphs
  import opened RecordingLoader
  import opened DepthFirst
  import opened Preflight
  import opened PreflightTheorems

  // ---------------------------------------------------------------------------
  // What a supported flow is
  // ---------------------------------------------------------------------------

  /** The selector has a css clause, at any depth. */
  ghost predicate HasCSS(s: Selector) {
    || s.css.Some?
    || (s.below.Some? && HasCSS(s.below.value))
    || (s.above.Some? && HasCSS(s.above.value))
    || (s.leftOf.Some? && HasCSS(s.leftOf.value))
    || (s.rightOf.Some? && HasCSS(s.rightOf.value))
    || (s.containsChild.Some? && HasCSS(s.containsChild.value))
    || (s.childOf.Some? && HasCSS(s.childOf.value))
    || exists i :: 0 <= i < |s.containsDescendants| && HasCSS(s.containsDescendants[i])
  }

  ghost predicate CSSSupported(selector: Option<Selector>, catalog: Catalog, platform: Option<ExecutionPlatform>) {
    selector.Some? && HasCSS(selector.value) ==> Supported(catalog, SelectorFeature, "css", platform)
  }

  /** A condition on the web platform, and every css clause of a condition, is supported. */
  ghost predicate ConditionSupported(condition: Option<Condition>, catalog: Catalog,
                                     platform: Option<ExecutionPlatform>) {
    condition.Some? ==>
      && (condition.value.platform == Some(WebPlatform) ==> Supported(catalog, DevicePlatformFeature, "web", platform))
      && CSSSupported(condition.value.visible, catalog, platform)
      && CSSSupported(condition.value.notVisible, catalog, platform)
  }

  /** The selected platform takes the value of the command: a key to press must be written out, and a known
      key, going back and opening a browser need a platform that offers them. */
  ghost predicate ValueSupported(command: Command, tables: DriverTables, platform: Option<ExecutionPlatform>) {
    platform.Some? ==>
      && (command.keyword == "pressKey" && command.arguments.TextArguments? ==>
            && !tables.interpolates(command.arguments.text)
            && (tables.canonicalKey(command.arguments.text).Some? ==>
                  Lists(tables.valuePlatforms("pressKey", tables.canonicalKey(command.arguments.text).value),
                        platform.value)))
      && (command.keyword == "action" && command.arguments.TextArguments? && tables.isBack(command.arguments.text) ==>
            Lists(tables.commandPlatforms("back"), platform.value))
      && (command.keyword == "openLink" && command.arguments == LinkArguments(Some(true)) ==>
            Lists(tables.commandPlatforms("openBrowser"), platform.value))
  }

  /** A command that is conditioned on another platform needs its condition supported on some platform;
      any other command needs everything supported on the selected one. */
  ghost predicate CommandSupported(command: Command, catalog: Catalog, tables: DriverTables,
                                   platform: Option<ExecutionPlatform>)
  {
    if ForAnotherPlatform(command.condition, platform) then ConditionSupported(command.condition, catalog, None)
    else
      && Supported(catalog, CommandFeature, command.keyword, platform)
      && ValueSupported(command, tables, platform)
      && ConditionSupported(command.condition, catalog, platform)
      && CSSSupported(command.selector, catalog, platform)
  }

  /** Every command outside the subtrees conditioned on another platform is supported. */
  ghost predicate CommandsSupported(commands: seq<Command>, catalog: Catalog, tables: DriverTables,
                                    platform: Option<ExecutionPlatform>)
  {
    forall place :: Addresses(commands, place) && Unskipped(commands, place, platform) ==>
      CommandSupported(CommandAt(commands, place), catalog, tables, platform)
  }

  /** The extension uses the registered feature of that name: its key, or for two keys the key with its value. */
  ghost predicate UsesExtension(entry: ExtEntry, name: string) {
    if entry.key in {"androidWebViewHierarchy", "jsEngine"} then
      match entry.value
      case TextValue(text) => name == entry.key + "=" + text
      case OtherValue => name == entry.key + "=<invalid>"
    else name == entry.key
  }

  ghost predicate ExtensionsSupported(ext: seq<ExtEntry>, catalog: Catalog, platform: Option<ExecutionPlatform>) {
    forall i, name :: 0 <= i < |ext| && UsesExtension(ext[i], name) ==>
      Supported(catalog, ConfigExtensionFeature, name, platform)
  }

  /** What preflight guarantees of a flow. Of a flow with a URL it is the URL alone. */
  ghost predicate FlowSupported(flow: Flow, catalog: Catalog, tables: DriverTables,
                                platform: Option<ExecutionPlatform>) {
    if flow.config.url != "" then Supported(catalog, ConfigExtensionFeature, "url", platform)
    else
      && ExtensionsSupported(flow.config.ext, catalog, platform)
      && CommandsSupported(flow.config.onFlowStart, catalog, tables, platform)
      && CommandsSupported(flow.commands, catalog, tables, platform)
      && CommandsSupported(flow.config.onFlowComplete, catalog, tables, platform)
  }

  // ---------------------------------------------------------------------------
  // Inspection decides support
  // ---------------------------------------------------------------------------

  ghost predicate AllCSSSupported(selectors: seq<Selector>, catalog: Catalog, platform: Option<ExecutionPlatform>) {
    forall i :: 0 <= i < |selectors| ==> CSSSupported(Some(selectors[i]), catalog, platform)
  }

  ghost predicate AnyCSS(selectors: seq<Selector>) {
    exists i :: 0 <= i < |selectors| && HasCSS(selectors[i])
  }

  ghost predicate OptionalCSS(selector: Option<Selector>) {
    selector.Some? && HasCSS(selector.value)
  }

  lemma PresentCSS(selector: Option<Selector>, rest: seq<Option<Selector>>)
    ensures AnyCSS(PresentOnes([selector] + rest)) <==> OptionalCSS(selector) || AnyCSS(PresentOnes(rest))
  {
    assert ([selector] + rest)[1..] == rest;
    assert PresentOnes([selector] + rest) == Present(selector) + PresentOnes(rest);
    hide PresentOnes, HasCSS;
    AnyCSSConcat(Present(selector), PresentOnes(rest));
    if selector.Some? {
      assert Present(selector)[0] == selector.value;
    }
  }

  lemma AnyCSSConcat(a: seq<Selector>, b: seq<Selector>)
    ensures AnyCSS(a + b) <==> AnyCSS(a) || AnyCSS(b)
  {
    hide HasCSS;
    if i :| 0 <= i < |a| && HasCSS(a[i]) {
      assert (a + b)[i] == a[i];
    }
    if i :| 0 <= i < |b| && HasCSS(b[i]) {
      assert (a + b)[|a| + i] == b[i];
    }
  }

  /** The css clauses of a selector are its own and those of its sub-selectors. */
  lemma CSSBelow(s: Selector)
    ensures HasCSS(s) <==> s.css.Some? || AnyCSS(SubSelectors(s))
  {
    var r5 := [s.childOf];
    var r4 := [s.containsChild] + r5;
    var r3 := [s.rightOf] + r4;
    var r2 := [s.leftOf] + r3;
    var r1 := [s.above] + r2;
    assert Relations(s) == [s.below] + r1;
    assert r5 == [s.childOf] + [];
    assert HasCSS(s) <==>
        || s.css.Some? || OptionalCSS(s.below) || OptionalCSS(s.above) || OptionalCSS(s.leftOf)
        || OptionalCSS(s.rightOf) || OptionalCSS(s.containsChild) || OptionalCSS(s.childOf)
        || AnyCSS(s.containsDescendants);
    hide HasCSS, AnyCSS, OptionalCSS;
    PresentCSS(s.below, r1);
    PresentCSS(s.above, r2);
    PresentCSS(s.leftOf, r3);
    PresentCSS(s.rightOf, r4);
    PresentCSS(s.containsChild, r5);
    PresentCSS(s.childOf, []);
    NoCSS();
    AnyCSSConcat(PresentOnes(Relations(s)), s.containsDescendants);
  }

  lemma NoCSS()
    ensures !AnyCSS(PresentOnes([]))
  {
  }

  lemma CSSSplits(s: Selector, catalog: Catalog, platform: Option<ExecutionPlatform>)
    ensures CSSSupported(Some(s), catalog, platform) <==>
            && (s.css.Some? ==> Supported(catalog, SelectorFeature, "css", platform))
            && AllCSSSupported(SubSelectors(s), catalog, platform)
  {
    hide Supported, SubSelectors, HasCSS;
    CSSBelow(s);
    if AllCSSSupported(SubSelectors(s), catalog, platform) && AnyCSS(SubSelectors(s)) {
      var i :| 0 <= i < |SubSelectors(s)| && HasCSS(SubSelectors(s)[i]);
      assert CSSSupported(Some(SubSelectors(s)[i]), catalog, platform);
    }
  }

  lemma {:induction false} SelectorsPassExactlyWhen(selectors: seq<Selector>, catalog: Catalog, required: set<Key>,
                                                    fallback: SourceInfo, platform: Option<ExecutionPlatform>)
    requires ValidCatalog(catalog, required)
    ensures SelectorsViolation(selectors, catalog, fallback, platform).None? <==>
              AllCSSSupported(selectors, catalog, platform)
    decreases SelectorsSize(selectors)
  {
    hide Supported, SubSelectors, CSSSupported, UnsupportedFeature, ValidCatalog;
    if selectors != [] {
      var first, rest := selectors[0], selectors[1..];
      SubSelectorsSize(first);
      SelectorsPassExactlyWhen(SubSelectors(first), catalog, required, fallback, platform);
      SelectorsPassExactlyWhen(rest, catalog, required, fallback, platform);
      CSSSplits(first, catalog, platform);
      RefusedExactlyWhenUnsupported(catalog, required, SelectorFeature, "css",
                                    SourceForField(first.fieldSources, "css", fallback), platform);
      SupportedList(selectors, catalog, platform);
    }
  }

  lemma SupportedList(selectors: seq<Selector>, catalog: Catalog, platform: Option<ExecutionPlatform>)
    requires selectors != []
    ensures AllCSSSupported(selectors, catalog, platform) <==>
            CSSSupported(Some(selectors[0]), catalog, platform) && AllCSSSupported(selectors[1..], catalog, platform)
  {
    hide CSSSupported;
    if AllCSSSupported(selectors[1..], catalog, platform) && CSSSupported(Some(selectors[0]), catalog, platform) {
      forall i | 0 <= i < |selectors| ensures CSSSupported(Some(selectors[i]), catalog, platform) {
        if i > 0 {
          assert selectors[i] == selectors[1..][i - 1];
        }
      }
    }
  }

  lemma SelectorPassesExactlyWhen(selector: Option<Selector>, catalog: Catalog, required: set<Key>,
                                  fallback: SourceInfo,
                                  platform: Option<ExecutionPlatform>)
    requires ValidCatalog(catalog, required)
    ensures OptionalViolation(selector, catalog, fallback, platform).None? <==>
              CSSSupported(selector, catalog, platform)
  {
    hide SelectorsViolation, ValidCatalog, Supported;
    SelectorsPassExactlyWhen(Present(selector), catalog, required, fallback, platform);
    if selector.Some? {
      hide CSSSupported;
      assert Present(selector)[0] == selector.value;
    }
  }

  lemma ConditionPassesExactlyWhen(condition: Option<Condition>, catalog: Catalog, required: set<Key>,
                                   fallback: SourceInfo,
                                   platform: Option<ExecutionPlatform>)
    requires ValidCatalog(catalog, required)
    ensures ConditionViolation(condition, catalog, fallback, platform).None? <==>
            ConditionSupported(condition, catalog, platform)
  {
    hide OptionalViolation, CSSSupported, UnsupportedFeature, Supported, ValidCatalog;
    if condition.Some? {
      var c := condition.value;
      RefusedExactlyWhenUnsupported(catalog, required, DevicePlatformFeature, "web",
                                    SourceForField(c.fieldSources, "platform", fallback), platform);
      SelectorPassesExactlyWhen(c.visible, catalog, required, SourceForField(c.fieldSources, "visible", fallback),
                                platform);
      SelectorPassesExactlyWhen(c.notVisible, catalog, required, SourceForField(c.fieldSources, "notVisible", fallback),
                                platform);
    }
  }

  lemma ValueRunsExactlyWhenSupported(command: Command, tables: DriverTables, platform: Option<ExecutionPlatform>)
    ensures AuthoredValueRuns(command, tables, platform) <==> ValueSupported(command, tables, platform)
  {
    hide Lists;
    if platform.Some? && AuthoredPlatforms(command, tables).OnlyOn? {
      ListsExactlyWhenNamed(AuthoredPlatforms(command, tables).platforms, platform.value);
    }
  }

  lemma CommandPassesExactlyWhen(command: Command, catalog: Catalog, required: set<Key>, tables: DriverTables,
                                 platform: Option<ExecutionPlatform>)
    requires ValidCatalog(catalog, required)
    ensures OwnViolation(command, catalog, tables, platform).None? <==>
              CommandSupported(command, catalog, tables, platform)
  {
    hide OptionalViolation, ConditionViolation, CSSSupported, ConditionSupported, UnsupportedFeature, Supported;
    hide ValidCatalog, ValueSupported, AuthoredValueRuns, ConditionExcludesPlatform, ForAnotherPlatform;
    ExcludedExactlyWhenForAnother(command.condition, platform);
    ValueRunsExactlyWhenSupported(command, tables, platform);
    ConditionPassesExactlyWhen(command.condition, catalog, required, command.source, None);
    ConditionPassesExactlyWhen(command.condition, catalog, required, command.source, platform);
    SelectorPassesExactlyWhen(command.selector, catalog, required, command.source, platform);
    RefusedExactlyWhenUnsupported(catalog, required, CommandFeature, command.keyword, command.source, platform);
  }

  lemma ExtensionName(entry: ExtEntry)
    ensures forall name :: UsesExtension(entry, name) <==> name == ExtName(entry)
  {
  }

  lemma {:induction false} ExtensionsPassExactlyWhen(ext: seq<ExtEntry>, config: Config, catalog: Catalog,
                                                     required: set<Key>,
                                                     platform: Option<ExecutionPlatform>)
    requires ValidCatalog(catalog, required)
    ensures ExtViolations(ext, config, catalog, platform).None? <==> ExtensionsSupported(ext, catalog, platform)
  {
    hide UnsupportedFeature, Supported, ValidCatalog, ExtName, UsesExtension;
    if ext != [] {
      ExtensionName(ext[0]);
      ExtensionsPassExactlyWhen(ext[1..], config, catalog, required, platform);
      RefusedExactlyWhenUnsupported(catalog, required, ConfigExtensionFeature, ExtName(ext[0]),
                                    SourceForField(config.fieldSources, ext[0].key, config.source), platform);
      assert ext == [ext[0]] + ext[1..];
    }
  }

  /** Inspection passes a flow exactly when everything it may use is supported. */
  lemma {:induction false} PassesExactlyWhenSupported(flow: Flow, catalog: Catalog, required: set<Key>,
                                                      tables: DriverTables,
                                                      platform: Option<ExecutionPlatform>)
    requires ValidCatalog(catalog, required)
    ensures FlowViolation(flow, catalog, tables, platform).None? <==> FlowSupported(flow, catalog, tables, platform)
  {
    hide UnsupportedFeature, Supported, ValidCatalog, ExtensionsSupported, ExtViolations, CommandsViolation;
    hide OwnViolation, CommandSupported;
    RefusedExactlyWhenUnsupported(catalog, required, ConfigExtensionFeature, "url",
                                  SourceForField(flow.config.fieldSources, "url", flow.config.source), platform);
    ExtensionsPassExactlyWhen(flow.config.ext, flow.config, catalog, required, platform);
    var before, after := flow.config.onFlowStart, flow.config.onFlowComplete;
    CommandsViolationConcat(before, flow.commands, catalog, tables, platform);
    CommandsViolationConcat(before + flow.commands, after, catalog, tables, platform);
    InspectionIsComplete(before, catalog, tables, platform);
    InspectionIsComplete(flow.commands, catalog, tables, platform);
    InspectionIsComplete(after, catalog, tables, platform);
    forall command
      ensures OwnViolation(command, catalog, tables, platform).None? <==>
                CommandSupported(command, catalog, tables, platform)
    {
      CommandPassesExactlyWhen(command, catalog, required, tables, platform);
    }
  }

  // ---------------------------------------------------------------------------
  // Accepted plans
  // ---------------------------------------------------------------------------

  /** A loaded flow is clear exactly when it has the known version and is supported. */
  lemma {:induction false} ClearExactlyWhenSupported(setup: Setup, flow: Flow)
    requires SetupOk(setup)
    ensures Clear(setup, flow) <==>
            flow.schemaVersion == AST_VERSION_V0 && FlowSupported(flow, setup.catalog, setup.tables, setup.platform)
  {
    hide FlowViolation, FlowSupported, ValidCatalog;
    PassesExactlyWhenSupported(flow, setup.catalog, setup.required, setup.tables, setup.platform);
  }

  /** Fail closed, end to end: after a successful check every flow that the selected roots reach was loaded
      in the known version, and its URL, or its extensions, commands, values, conditions and css clauses,
      are supported. */
  lemma {:induction false} AcceptedPlanIsSupported(
      setup: Setup, selected: seq<string>, canonical: CanonicalTable, flows: FlowTable, report: Report, hops: Hops,
      finish: seq<string>, p: string)
    requires SetupOk(setup) && Accepted(setup, selected, canonical, flows, report, hops, finish)
    requires Reachable(Successors(hops), Elements(report.roots), p)
    ensures p in flows && flows[p].Success? && flows[p].value.schemaVersion == AST_VERSION_V0
    ensures FlowSupported(flows[p].value, setup.catalog, setup.tables, setup.platform)
  {
    hide SetupOk, Clear, FlowSupported, EdgesOf, HopRecorded, RootsRecorded, ResourceHopOk, Successors, Reachable;
    NodesAreTheReachableFlows(setup, selected, canonical, flows, report, hops, finish, p);
    assert NodeAccepted(setup, canonical, flows, report.edges, hops, p);
    ClearExactlyWhenSupported(setup, flows[p].value);
  }

  /** A run whose device reports `device` can get to the command: neither its condition nor one above it is
      false for its platform. */
  ghost predicate RunReaches(commands: seq<Command>, place: seq<nat>, device: Platform)
    requires Addresses(commands, place)
  {
    && !SkippedOn(commands[place[0]].condition, device)
    && (|place| > 1 ==> RunReaches(commands[place[0]].children, place[1..], device))
  }

  lemma {:induction false} ReachedIsUnskipped(commands: seq<Command>, place: seq<nat>, selected: ExecutionPlatform)
    requires Addresses(commands, place) && Reported(selected).Some?
    requires RunReaches(commands, place, Reported(selected).value)
    ensures Unskipped(commands, place, Some(selected))
    ensures !ForAnotherPlatform(CommandAt(commands, place).condition, Some(selected))
    decreases |place|
  {
    if |place| > 1 {
      ReachedIsUnskipped(commands[place[0]].children, place[1..], selected);
    }
  }

  /** The command and everything it needs is supported on the selected platform. */
  ghost predicate RunsSupported(command: Command, catalog: Catalog, tables: DriverTables,
                                selected: ExecutionPlatform) {
    && Supported(catalog, CommandFeature, command.keyword, Some(selected))
    && ValueSupported(command, tables, Some(selected))
    && ConditionSupported(command.condition, catalog, Some(selected))
    && CSSSupported(command.selector, catalog, Some(selected))
  }

  /** The commands of a flow: its start hook, its body, or its completion hook. */
  ghost predicate PhaseOf(flow: Flow, commands: seq<Command>) {
    commands in {flow.config.onFlowStart, flow.commands, flow.config.onFlowComplete}
  }

  /** Fail closed, at run time: in an accepted plan every command that a run on a device of the selected
      platform can get to is supported there, with its value, its condition and its selectors. */
  lemma {:induction false} WhatARunReachesIsSupported(
      setup: Setup, selected: seq<string>, canonical: CanonicalTable, flows: FlowTable, report: Report, hops: Hops,
      finish: seq<string>, p: string, commands: seq<Command>, place: seq<nat>)
    requires SetupOk(setup) && Accepted(setup, selected, canonical, flows, report, hops, finish)
    requires Reachable(Successors(hops), Elements(report.roots), p) && p in flows && flows[p].Success?
    requires flows[p].value.config.url == "" && PhaseOf(flows[p].value, commands) && Addresses(commands, place)
    requires setup.platform.Some? && Reported(setup.platform.value).Some?
    requires RunReaches(commands, place, Reported(setup.platform.value).value)
    ensures RunsSupported(CommandAt(commands, place), setup.catalog, setup.tables, setup.platform.value)
  {
    hide SetupOk, Accepted, ForAnotherPlatform, RunReaches, Supported, ValueSupported, ConditionSupported, Unskipped;
    hide CSSSupported, ExtensionsSupported;
    AcceptedPlanIsSupported(setup, selected, canonical, flows, report, hops, finish, p);
    ReachedIsUnskipped(commands, place, setup.platform.value);
    assert CommandsSupported(commands, setup.catalog, setup.tables, setup.platform);
    assert CommandSupported(CommandAt(commands, place), setup.catalog, setup.tables, setup.platform);
  }

  /** A flow that preflight refuses for what it contains does use something unsupported. */
  lemma {:induction false} RefusedFlowIsUnsupported(setup: Setup, flows: FlowTable, hops: Hops, trail: seq<string>,
                                                    v: Violation)
    requires SetupOk(setup) && trail != [] && FlowRefused(setup, flows, hops, trail, v)
    requires flows[trail[|trail| - 1]].Success? && flows[trail[|trail| - 1]].value.schemaVersion == AST_VERSION_V0
    ensures !FlowSupported(flows[trail[|trail| - 1]].value, setup.catalog, setup.tables, setup.platform)
  {
    hide SetupOk, FlowViolation, FlowSupported, ChainAlong;
    ClearExactlyWhenSupported(setup, flows[trail[|trail| - 1]].value);
  }
}
