/** Static inspection of one flow: its file links and its use of registered features.

    Both walks run on an explicit stack. Each is proved equal to the recursive preorder
    walk, and the recursive walk is characterised by the commands it reaches. */
module Inspection {
  import opened Wrappers
  import opened Sequences
  import opened FlowModel
  import opened Registry

  // ---------------------------------------------------------------------------
  // Worklist sizes
  // ---------------------------------------------------------------------------

  ghost function CommandSize(command: Command): nat {
    1 + CommandsSize(command.children)
  }

  ghost function CommandsSize(commands: seq<Command>): nat {
    if commands == [] then 0 else CommandSize(commands[0]) + CommandsSize(commands[1..])
  }

  ghost function SelectorSize(selector: Selector): nat {
    1 + OptionalSize(selector.below) + OptionalSize(selector.above) + OptionalSize(selector.leftOf)
    + OptionalSize(selector.rightOf) + OptionalSize(selector.containsChild) + OptionalSize(selector.childOf)
    + SelectorsSize(selector.containsDescendants)
  }

  ghost function OptionalSize(selector: Option<Selector>): nat {
    match selector
    case None => 0
    case Some(s) => SelectorSize(s)
  }

  ghost function SelectorsSize(selectors: seq<Selector>): nat {
    if selectors == [] then 0 else SelectorSize(selectors[0]) + SelectorsSize(selectors[1..])
  }

  lemma {:induction false} CommandsSizeConcat(a: seq<Command>, b: seq<Command>)
    ensures CommandsSize(a + b) == CommandsSize(a) + CommandsSize(b)
  {
    if a == [] {
      assert a + b == b;
    } else {
      CommandsSizeConcat(a[1..], b);
      assert (a + b)[1..] == a[1..] + b;
    }
  }

  lemma {:induction false} SelectorsSizeConcat(a: seq<Selector>, b: seq<Selector>)
    ensures SelectorsSize(a + b) == SelectorsSize(a) + SelectorsSize(b)
  {
    if a == [] {
      assert a + b == b;
    } else {
      SelectorsSizeConcat(a[1..], b);
      assert (a + b)[1..] == a[1..] + b;
    }
  }

  // ---------------------------------------------------------------------------
  // File links
  // ---------------------------------------------------------------------------

  /** The links of a command list in preorder: a command's own links, then its children's. */
  function LinksOf(commands: seq<Command>): seq<FileLink> {
    if commands == [] then []
    else commands[0].links + LinksOf(commands[0].children) + LinksOf(commands[1..])
  }

  function FlowLinks(flow: Flow): seq<FileLink> {
    LinksOf(AllCommands(flow))
  }

  lemma LinksOfFirst(command: Command, rest: seq<Command>)
    ensures LinksOf([command] + rest) == command.links + LinksOf(command.children) + LinksOf(rest)
  {
    assert ([command] + rest)[1..] == rest;
  }

  lemma {:induction false} LinksOfConcat(a: seq<Command>, b: seq<Command>)
    ensures LinksOf(a + b) == LinksOf(a) + LinksOf(b)
  {
    if a == [] {
      assert a + b == b;
    } else {
      hide LinksOf;
      LinksOfConcat(a[1..], b);
      assert a + b == [a[0]] + (a[1..] + b) && a == [a[0]] + a[1..];
      LinksOfFirst(a[0], a[1..] + b);
      LinksOfFirst(a[0], a[1..]);
      ConcatIsAssociative(a[0].links + LinksOf(a[0].children), LinksOf(a[1..]), LinksOf(b));
    }
  }

  /** What a push leaves to visit: the pushed items in their own order, then the rest. */
  lemma {:induction false} PushedOrder<T>(stack: seq<T>, items: seq<T>)
    ensures Reversed(stack + Reversed(items)) == items + Reversed(stack)
  {
    ReversedConcat(stack, Reversed(items));
    ReversedTwice(items);
  }

  /** One round of the worklist: the top command gives its links and leaves its children. */
  lemma {:induction false} LinksRound(below: seq<Command>, command: Command)
    ensures LinksOf(Reversed(below + [command]))
         == command.links + LinksOf(Reversed(below + Reversed(command.children)))
    ensures CommandsSize(Reversed(below + Reversed(command.children))) < CommandsSize(Reversed(below + [command]))
  {
    var rest := Reversed(below);
    PushedOrder(below, command.children);
    assert Reversed(below + [command]) == [command] + rest;
    assert ([command] + rest)[0] == command && ([command] + rest)[1..] == rest;
    LinksOfConcat(command.children, rest);
    CommandsSizeConcat(command.children, rest);
  }

  lemma NothingLeft()
    ensures Reversed<Command>([]) == [] && LinksOf(Reversed([])) == []
  {
  }

  /** Collects every link of a flow on an explicit stack. */
  method CollectLinks(flow: Flow) returns (links: seq<FileLink>)
    ensures links == FlowLinks(flow)
  {
    hide LinksOf, AllCommands, CommandsSize;
    var commands := AllCommands(flow);
    var stack := PushReversed([], commands);
    assert Reversed(stack) == commands;
    NothingLeft();
    links := [];
    while |stack| > 0
      invariant links + LinksOf(Reversed(stack)) == LinksOf(commands)
      decreases CommandsSize(Reversed(stack))
    {
      var index := |stack| - 1;
      var command := stack[index];
      LinksRound(stack[..index], command);
      assert stack == stack[..index] + [command];
      stack := stack[..index];
      links := links + command.links;
      stack := PushReversed(stack, command.children);
    }
    assert stack == [];
  }

  // ---------------------------------------------------------------------------
  // Selectors
  // ---------------------------------------------------------------------------

  function Present(selector: Option<Selector>): seq<Selector> {
    if selector.Some? then [selector.value] else []
  }

  /** The relations of a selector in the order they are visited. */
  function Relations(s: Selector): seq<Option<Selector>> {
    [s.below, s.above, s.leftOf, s.rightOf, s.containsChild, s.childOf]
  }

  function PresentOnes(selectors: seq<Option<Selector>>): seq<Selector> {
    if selectors == [] then [] else Present(selectors[0]) + PresentOnes(selectors[1..])
  }

  /** The sub-selectors in visiting order: the relations, then the descendants. */
  function SubSelectors(s: Selector): seq<Selector> {
    PresentOnes(Relations(s)) + s.containsDescendants
  }

  function InspectCSS(selector: Selector, catalog: Catalog, fallback: SourceInfo,
                      platform: Option<ExecutionPlatform>): Option<Violation>
  {
    if selector.css.Some? then
      UnsupportedFeature(catalog, SelectorFeature, "css", SourceForField(selector.fieldSources, "css", fallback),
                         platform)
    else
      None
  }

  lemma {:induction false} PresentSize(s: Option<Selector>, rest: seq<Option<Selector>>)
    ensures SelectorsSize(PresentOnes([s] + rest)) == OptionalSize(s) + SelectorsSize(PresentOnes(rest))
  {
    assert ([s] + rest)[1..] == rest;
    if s.Some? {
      assert ([s.value] + PresentOnes(rest))[1..] == PresentOnes(rest);
    } else {
      assert Present(s) + PresentOnes(rest) == PresentOnes(rest);
    }
  }

  lemma {:induction false} SubSelectorsSize(s: Selector)
    ensures SelectorsSize(SubSelectors(s)) + 1 == SelectorSize(s)
  {
    var r5 := [s.childOf];
    var r4 := [s.containsChild] + r5;
    var r3 := [s.rightOf] + r4;
    var r2 := [s.leftOf] + r3;
    var r1 := [s.above] + r2;
    assert Relations(s) == [s.below] + r1;
    assert r5 == [s.childOf] + [];
    PresentSize(s.below, r1);
    PresentSize(s.above, r2);
    PresentSize(s.leftOf, r3);
    PresentSize(s.rightOf, r4);
    PresentSize(s.containsChild, r5);
    PresentSize(s.childOf, []);
    SelectorsSizeConcat(PresentOnes(Relations(s)), s.containsDescendants);
  }

  /** First violation of a selector list and all sub-selectors, in preorder. */
  function SelectorsViolation(selectors: seq<Selector>, catalog: Catalog, fallback: SourceInfo,
                              platform: Option<ExecutionPlatform>): Option<Violation>
    decreases SelectorsSize(selectors)
  {
    if selectors == [] then None
    else
      SubSelectorsSize(selectors[0]);
      OrElse(InspectCSS(selectors[0], catalog, fallback, platform),
      OrElse(SelectorsViolation(SubSelectors(selectors[0]), catalog, fallback, platform),
             SelectorsViolation(selectors[1..], catalog, fallback, platform)))
  }

  function OptionalViolation(selector: Option<Selector>, catalog: Catalog, fallback: SourceInfo,
                             platform: Option<ExecutionPlatform>): Option<Violation>
  {
    SelectorsViolation(Present(selector), catalog, fallback, platform)
  }

  lemma {:induction false} SelectorsViolationConcat(a: seq<Selector>, b: seq<Selector>, catalog: Catalog,
                                                    fallback: SourceInfo, platform: Option<ExecutionPlatform>)
    ensures SelectorsViolation(a + b, catalog, fallback, platform) ==
            OrElse(SelectorsViolation(a, catalog, fallback, platform),
                   SelectorsViolation(b, catalog, fallback, platform))
  {
    hide SelectorsViolation;
    if a == [] {
      assert a + b == b;
      NoSelectorsViolation(catalog, fallback, platform);
    } else {
      SelectorsViolationConcat(a[1..], b, catalog, fallback, platform);
      MoreSelectorsViolation(a[0], a[1..], b, catalog, fallback, platform);
      assert a == [a[0]] + a[1..];
    }
  }

  lemma NoSelectorsViolation(catalog: Catalog, fallback: SourceInfo, platform: Option<ExecutionPlatform>)
    ensures SelectorsViolation([], catalog, fallback, platform).None?
  {
  }

  lemma MoreSelectorsViolation(first: Selector, rest: seq<Selector>, b: seq<Selector>, catalog: Catalog,
                               fallback: SourceInfo, platform: Option<ExecutionPlatform>)
    requires SelectorsViolation(rest + b, catalog, fallback, platform) ==
             OrElse(SelectorsViolation(rest, catalog, fallback, platform),
                    SelectorsViolation(b, catalog, fallback, platform))
    ensures SelectorsViolation([first] + rest + b, catalog, fallback, platform) ==
            OrElse(SelectorsViolation([first] + rest, catalog, fallback, platform),
                   SelectorsViolation(b, catalog, fallback, platform))
  {
    hide SelectorsViolation, InspectCSS, SubSelectors;
    assert [first] + rest + b == [first] + (rest + b);
    FirstSelectorViolation(first, rest + b, catalog, fallback, platform);
    FirstSelectorViolation(first, rest, catalog, fallback, platform);
  }

  lemma FirstSelectorViolation(selector: Selector, rest: seq<Selector>, catalog: Catalog, fallback: SourceInfo,
                               platform: Option<ExecutionPlatform>)
    ensures SelectorsViolation([selector] + rest, catalog, fallback, platform)
         == OrElse(InspectCSS(selector, catalog, fallback, platform),
            OrElse(SelectorsViolation(SubSelectors(selector), catalog, fallback, platform),
                   SelectorsViolation(rest, catalog, fallback, platform)))
  {
    assert ([selector] + rest)[1..] == rest;
  }

  /** One round of the worklist: the top selector is checked and leaves its sub-selectors. */
  lemma {:induction false} SelectorsRound(below: seq<Selector>, s: Selector, catalog: Catalog,
                                          fallback: SourceInfo, platform: Option<ExecutionPlatform>)
    ensures SelectorsViolation(Reversed(below + [s]), catalog, fallback, platform)
         == OrElse(InspectCSS(s, catalog, fallback, platform),
                   SelectorsViolation(Reversed(below + Reversed(SubSelectors(s))), catalog, fallback, platform))
    ensures SelectorsSize(Reversed(below + Reversed(SubSelectors(s)))) < SelectorsSize(Reversed(below + [s]))
  {
    var rest := Reversed(below);
    PushedOrder(below, SubSelectors(s));
    assert Reversed(below + [s]) == [s] + rest;
    assert ([s] + rest)[0] == s && ([s] + rest)[1..] == rest;
    SelectorsViolationConcat(SubSelectors(s), rest, catalog, fallback, platform);
    SelectorsSizeConcat(SubSelectors(s), rest);
    SubSelectorsSize(s);
  }

  /** Pushes the descendants and then the present relations, each last-first. */
  method PushSubSelectors(stack: seq<Selector>, s: Selector) returns (grown: seq<Selector>)
    ensures grown == stack + Reversed(SubSelectors(s))
  {
    hide PresentOnes, Reversed;
    grown := PushReversed(stack, s.containsDescendants);
    ghost var base := grown;
    var children := Relations(s);
    var i := |children|;
    NoPresent(base, children);
    while i > 0
      invariant 0 <= i <= |children|
      invariant grown == base + Reversed(PresentOnes(children[i..]))
    {
      i := i - 1;
      PushPresent(base, children, i);
      if children[i].Some? {
        grown := grown + [children[i].value];
      }
    }
    assert children[0..] == children;
    ReversedConcat(PresentOnes(children), s.containsDescendants);
  }

  lemma NoPresent(base: seq<Selector>, children: seq<Option<Selector>>)
    ensures base + Reversed(PresentOnes(children[|children|..])) == base
  {
  }

  lemma PushPresent(base: seq<Selector>, children: seq<Option<Selector>>, i: nat)
    requires i < |children|
    ensures base + Reversed(PresentOnes(children[i..])) ==
            base + Reversed(PresentOnes(children[i + 1..])) + (if children[i].Some? then [children[i].value] else [])
  {
    assert PresentOnes(children[i..]) == Present(children[i]) + PresentOnes(children[i + 1..]);
    hide PresentOnes;
    ReversedConcat(Present(children[i]), PresentOnes(children[i + 1..]));
    assert Reversed(Present(children[i])) == Present(children[i]);
  }

  lemma NoSelectorsLeft(catalog: Catalog, fallback: SourceInfo, platform: Option<ExecutionPlatform>)
    ensures SelectorsViolation(Reversed([]), catalog, fallback, platform).None?
  {
  }

  /** Inspects a selector and its sub-selectors on an explicit stack. */
  method InspectSelector(selector: Option<Selector>, catalog: Catalog, fallback: SourceInfo,
                         platform: Option<ExecutionPlatform>) returns (violation: Option<Violation>)
    ensures violation == OptionalViolation(selector, catalog, fallback, platform)
  {
    hide SelectorsViolation, SelectorsSize, SubSelectors, SourceForField;
    NoSelectorsLeft(catalog, fallback, platform);
    if selector.None? {
      assert Present(selector) == Reversed([]);
      return None;
    }
    var stack := [selector.value];
    assert Reversed(stack) == Present(selector);
    while |stack| > 0
      invariant SelectorsViolation(Reversed(stack), catalog, fallback, platform)
             == OptionalViolation(selector, catalog, fallback, platform)
      decreases SelectorsSize(Reversed(stack))
    {
      var index := |stack| - 1;
      var current := stack[index];
      SelectorsRound(stack[..index], current, catalog, fallback, platform);
      assert stack == stack[..index] + [current];
      stack := stack[..index];
      if current.css.Some? {
        violation := UnsupportedFeature(catalog, SelectorFeature, "css",
                                        SourceForField(current.fieldSources, "css", fallback), platform);
        if violation.Some? {
          return;
        }
      }
      stack := PushSubSelectors(stack, current);
    }
    violation := None;
    assert stack == [];
  }

  // ---------------------------------------------------------------------------
  // Conditions and commands
  // ---------------------------------------------------------------------------

  predicate ConditionExcludesPlatform(condition: Option<Condition>, selected: Option<ExecutionPlatform>) {
    if condition.None? || condition.value.platform.None? || selected.None? then false
    else match condition.value.platform.value
      case AndroidPlatform => !selected.value.Android?
      case IOSPlatform => !selected.value.IOSSimulator?
      case WebPlatform => !selected.value.Web?
      case UnknownPlatform(_) => false
  }

  function WebConditionViolation(condition: Condition, catalog: Catalog, fallback: SourceInfo,
                                 platform: Option<ExecutionPlatform>): Option<Violation>
  {
    if condition.platform == Some(WebPlatform) then
      UnsupportedFeature(catalog, DevicePlatformFeature, "web",
                         SourceForField(condition.fieldSources, "platform", fallback), platform)
    else
      None
  }

  function ConditionViolation(condition: Option<Condition>, catalog: Catalog, fallback: SourceInfo,
                              platform: Option<ExecutionPlatform>): Option<Violation>
  {
    match condition
    case None => None
    case Some(c) =>
      OrElse(WebConditionViolation(c, catalog, fallback, platform),
      OrElse(OptionalViolation(c.visible, catalog, SourceForField(c.fieldSources, "visible", fallback), platform),
             OptionalViolation(c.notVisible, catalog, SourceForField(c.fieldSources, "notVisible", fallback),
                               platform)))
  }

  method InspectCondition(condition: Option<Condition>, catalog: Catalog, fallback: SourceInfo,
                          platform: Option<ExecutionPlatform>) returns (violation: Option<Violation>)
    ensures violation == ConditionViolation(condition, catalog, fallback, platform)
  {
    if condition.None? {
      return None;
    }
    var c := condition.value;
    if c.platform == Some(WebPlatform) {
      violation := UnsupportedFeature(catalog, DevicePlatformFeature, "web",
                                      SourceForField(c.fieldSources, "platform", fallback), platform);
      if violation.Some? {
        return;
      }
    }
    violation := InspectSelector(c.visible, catalog, SourceForField(c.fieldSources, "visible", fallback), platform);
    if violation.Some? {
      return;
    }
    violation := InspectSelector(c.notVisible, catalog, SourceForField(c.fieldSources, "notVisible", fallback),
                                 platform);
  }

  /** Tables the driver contract supplies: key spellings, and the platforms that accept a command or a value of it. */
  datatype DriverTables = DriverTables(
    interpolates: string -> bool,
    canonicalKey: string -> Option<string>,
    isBack: string -> bool,
    commandPlatforms: string -> seq<string>,
    valuePlatforms: (string, string) -> seq<string>)

  datatype Authored = Unconstrained | OnlyOn(platforms: seq<string>) | Unprovable

  /** The platforms that the authored value of a command restricts it to. */
  function AuthoredPlatforms(command: Command, tables: DriverTables): Authored {
    match command.arguments
    case TextArguments(text) =>
      if command.keyword == "pressKey" then
        if tables.interpolates(text) then Unprovable
        else if tables.canonicalKey(text).None? then Unconstrained
        else OnlyOn(tables.valuePlatforms("pressKey", tables.canonicalKey(text).value))
      else if command.keyword == "action" && tables.isBack(text) then
        OnlyOn(tables.commandPlatforms("back"))
      else Unconstrained
    case LinkArguments(browser) =>
      if command.keyword == "openLink" && browser == Some(true) then OnlyOn(tables.commandPlatforms("openBrowser"))
      else Unconstrained
    case OtherArguments => Unconstrained
  }

  predicate AuthoredValueRuns(command: Command, tables: DriverTables, platform: Option<ExecutionPlatform>) {
    platform.Some? ==>
      match AuthoredPlatforms(command, tables)
      case Unconstrained => true
      case OnlyOn(platforms) => PlatformName(platform.value) in platforms
      case Unprovable => false
  }

  function CommandViolation(command: Command, catalog: Catalog, tables: DriverTables,
                            platform: Option<ExecutionPlatform>): Option<Violation>
  {
    OrElse(UnsupportedFeature(catalog, CommandFeature, command.keyword, command.source, platform),
           if AuthoredValueRuns(command, tables, platform) then None
           else Some(Violation(UnsupportedPlatform, Some((CommandFeature, command.keyword)), command.source, [], None)))
  }

  /** What inspection finds in a command itself, leaving its children aside. */
  function OwnViolation(command: Command, catalog: Catalog, tables: DriverTables,
                        platform: Option<ExecutionPlatform>): Option<Violation>
  {
    if ConditionExcludesPlatform(command.condition, platform) then
      ConditionViolation(command.condition, catalog, command.source, None)
    else
      OrElse(CommandViolation(command, catalog, tables, platform),
      OrElse(ConditionViolation(command.condition, catalog, command.source, platform),
             OptionalViolation(command.selector, catalog, command.source, platform)))
  }

  /** The children that inspection goes on to: none under a condition for another platform. */
  function InspectedChildren(command: Command, platform: Option<ExecutionPlatform>): seq<Command> {
    if ConditionExcludesPlatform(command.condition, platform) then [] else command.children
  }

  /** First violation of a command list, in preorder. */
  function CommandsViolation(commands: seq<Command>, catalog: Catalog, tables: DriverTables,
                             platform: Option<ExecutionPlatform>): Option<Violation>
    decreases commands
  {
    if commands == [] then None
    else
      OrElse(OwnViolation(commands[0], catalog, tables, platform),
      OrElse(if ConditionExcludesPlatform(commands[0].condition, platform) then None
             else CommandsViolation(commands[0].children, catalog, tables, platform),
             CommandsViolation(commands[1..], catalog, tables, platform)))
  }

  lemma {:induction false} CommandsViolationConcat(a: seq<Command>, b: seq<Command>, catalog: Catalog,
                                                   tables: DriverTables, platform: Option<ExecutionPlatform>)
    ensures CommandsViolation(a + b, catalog, tables, platform) ==
            OrElse(CommandsViolation(a, catalog, tables, platform), CommandsViolation(b, catalog, tables, platform))
  {
    hide CommandsViolation;
    if a == [] {
      assert a + b == b;
      NoCommandsViolation(catalog, tables, platform);
    } else {
      CommandsViolationConcat(a[1..], b, catalog, tables, platform);
      MoreCommandsViolation(a[0], a[1..], b, catalog, tables, platform);
      assert a == [a[0]] + a[1..];
    }
  }

  lemma NoCommandsViolation(catalog: Catalog, tables: DriverTables, platform: Option<ExecutionPlatform>)
    ensures CommandsViolation([], catalog, tables, platform).None?
  {
  }

  lemma MoreCommandsViolation(first: Command, rest: seq<Command>, b: seq<Command>, catalog: Catalog,
                              tables: DriverTables, platform: Option<ExecutionPlatform>)
    requires CommandsViolation(rest + b, catalog, tables, platform) ==
             OrElse(CommandsViolation(rest, catalog, tables, platform), CommandsViolation(b, catalog, tables, platform))
    ensures CommandsViolation([first] + rest + b, catalog, tables, platform) ==
            OrElse(CommandsViolation([first] + rest, catalog, tables, platform),
                   CommandsViolation(b, catalog, tables, platform))
  {
    hide CommandsViolation, OwnViolation, ConditionExcludesPlatform;
    assert [first] + rest + b == [first] + (rest + b);
    FirstCommandViolation(first, rest + b, catalog, tables, platform);
    FirstCommandViolation(first, rest, catalog, tables, platform);
  }

  lemma FirstCommandViolation(command: Command, rest: seq<Command>, catalog: Catalog, tables: DriverTables,
                              platform: Option<ExecutionPlatform>)
    ensures CommandsViolation([command] + rest, catalog, tables, platform)
         == OrElse(OwnViolation(command, catalog, tables, platform),
            OrElse(if ConditionExcludesPlatform(command.condition, platform) then None
                   else CommandsViolation(command.children, catalog, tables, platform),
                   CommandsViolation(rest, catalog, tables, platform)))
  {
    assert ([command] + rest)[1..] == rest;
  }

  /** One round of the worklist: the top command is checked and leaves the children to inspect. */
  lemma {:induction false} CommandsRound(below: seq<Command>, command: Command, catalog: Catalog,
                                         tables: DriverTables, platform: Option<ExecutionPlatform>)
    ensures CommandsViolation(Reversed(below + [command]), catalog, tables, platform)
         == OrElse(OwnViolation(command, catalog, tables, platform),
                   CommandsViolation(Reversed(below + Reversed(InspectedChildren(command, platform))), catalog, tables,
                                     platform))
    ensures CommandsSize(Reversed(below + Reversed(InspectedChildren(command, platform))))
          < CommandsSize(Reversed(below + [command]))
  {
    var rest := Reversed(below);
    PushedOrder(below, InspectedChildren(command, platform));
    assert Reversed(below + [command]) == [command] + rest;
    assert ([command] + rest)[0] == command && ([command] + rest)[1..] == rest;
    CommandsViolationConcat(InspectedChildren(command, platform), rest, catalog, tables, platform);
    CommandsSizeConcat(InspectedChildren(command, platform), rest);
  }

  function ExtName(entry: ExtEntry): string {
    if entry.key == "androidWebViewHierarchy" || entry.key == "jsEngine" then
      entry.key + "=" + (if entry.value.TextValue? then entry.value.text else "<invalid>")
    else
      entry.key
  }

  function ExtViolation(entry: ExtEntry, config: Config, catalog: Catalog,
                        platform: Option<ExecutionPlatform>): Option<Violation>
  {
    UnsupportedFeature(catalog, ConfigExtensionFeature, ExtName(entry),
                       SourceForField(config.fieldSources, entry.key, config.source), platform)
  }

  /** First violation among the extension entries, in key order. */
  function ExtViolations(entries: seq<ExtEntry>, config: Config, catalog: Catalog,
                         platform: Option<ExecutionPlatform>): Option<Violation>
  {
    if entries == [] then None
    else OrElse(ExtViolation(entries[0], config, catalog, platform),
                ExtViolations(entries[1..], config, catalog, platform))
  }

  /** First violation of a flow: its URL, its extensions in key order, then its commands in preorder.
      A configured URL decides the inspection on its own. */
  function FlowViolation(flow: Flow, catalog: Catalog, tables: DriverTables,
                         platform: Option<ExecutionPlatform>): Option<Violation>
  {
    if flow.config.url != "" then
      UnsupportedFeature(catalog, ConfigExtensionFeature, "url",
                         SourceForField(flow.config.fieldSources, "url", flow.config.source), platform)
    else
      OrElse(ExtViolations(flow.config.ext, flow.config, catalog, platform),
             CommandsViolation(AllCommands(flow), catalog, tables, platform))
  }

  method InspectExtensions(config: Config, catalog: Catalog, platform: Option<ExecutionPlatform>)
    returns (violation: Option<Violation>)
    ensures violation == ExtViolations(config.ext, config, catalog, platform)
  {
    for i := 0 to |config.ext|
      invariant ExtViolations(config.ext, config, catalog, platform)
             == ExtViolations(config.ext[i..], config, catalog, platform)
    {
      violation := ExtViolation(config.ext[i], config, catalog, platform);
      if violation.Some? {
        return;
      }
      assert config.ext[i..][1..] == config.ext[i + 1..];
    }
    violation := None;
  }

  /** Inspects one command without its children; an excluded one only for its condition. */
  method InspectCommandItself(command: Command, catalog: Catalog, tables: DriverTables,
                              platform: Option<ExecutionPlatform>) returns (violation: Option<Violation>)
    ensures violation == OwnViolation(command, catalog, tables, platform)
  {
    if ConditionExcludesPlatform(command.condition, platform) {
      violation := InspectCondition(command.condition, catalog, command.source, None);
      return;
    }
    violation := CommandViolation(command, catalog, tables, platform);
    if violation.Some? {
      return;
    }
    violation := InspectCondition(command.condition, catalog, command.source, platform);
    if violation.Some? {
      return;
    }
    violation := InspectSelector(command.selector, catalog, command.source, platform);
  }

  /** Walks a command list on an explicit stack, leaving out subtrees conditioned on another platform. */
  method InspectCommands(commands: seq<Command>, catalog: Catalog, tables: DriverTables,
                         platform: Option<ExecutionPlatform>) returns (violation: Option<Violation>)
    ensures violation == CommandsViolation(commands, catalog, tables, platform)
  {
    var stack := PushReversed([], commands);
    assert Reversed(stack) == commands;
    while |stack| > 0
      invariant CommandsViolation(Reversed(stack), catalog, tables, platform)
             == CommandsViolation(commands, catalog, tables, platform)
      decreases CommandsSize(Reversed(stack))
    {
      var index := |stack| - 1;
      var command := stack[index];
      CommandsRound(stack[..index], command, catalog, tables, platform);
      assert stack == stack[..index] + [command];
      stack := stack[..index];
      violation := InspectCommandItself(command, catalog, tables, platform);
      if violation.Some? {
        return;
      }
      if ConditionExcludesPlatform(command.condition, platform) {
        assert stack + Reversed(InspectedChildren(command, platform)) == stack;
        continue;
      }
      stack := PushReversed(stack, command.children);
    }
    assert stack == [];
    violation := None;
  }

  /** Inspects a flow: a configured URL alone, or else the extensions and then the commands. */
  method InspectFlow(flow: Flow, catalog: Catalog, tables: DriverTables,
                     platform: Option<ExecutionPlatform>) returns (violation: Option<Violation>)
    ensures violation == FlowViolation(flow, catalog, tables, platform)
  {
    if flow.config.url != "" {
      return UnsupportedFeature(catalog, ConfigExtensionFeature, "url",
                                SourceForField(flow.config.fieldSources, "url", flow.config.source), platform);
    }
    violation := InspectExtensions(flow.config, catalog, platform);
    if violation.Some? {
      return;
    }
    violation := InspectCommands(AllCommands(flow), catalog, tables, platform);
  }

  // ---------------------------------------------------------------------------
  // What a passed inspection means
  // ---------------------------------------------------------------------------

  /** `place` addresses a command: an index into the list, then indices into children. */
  ghost predicate Addresses(commands: seq<Command>, place: seq<nat>) {
    && place != []
    && place[0] < |commands|
    && (|place| > 1 ==> Addresses(commands[place[0]].children, place[1..]))
  }

  ghost function CommandAt(commands: seq<Command>, place: seq<nat>): Command
    requires Addresses(commands, place)
  {
    if |place| == 1 then commands[place[0]] else CommandAt(commands[place[0]].children, place[1..])
  }

  /** The platform that the devices of a selected platform report to a running condition. */
  ghost function Reported(selected: ExecutionPlatform): Option<Platform> {
    match selected
    case Android => Some(AndroidPlatform)
    case IOSSimulator => Some(IOSPlatform)
    case Web => Some(WebPlatform)
    case UnknownSelection(_) => None
  }

  /** A run whose device reports `device` evaluates the condition to false for its platform alone. */
  ghost predicate SkippedOn(condition: Option<Condition>, device: Platform) {
    condition.Some? && condition.value.platform.Some? && condition.value.platform.value != device
  }

  /** The condition names a known platform other than the one that devices of the selected platform report. */
  ghost predicate ForAnotherPlatform(condition: Option<Condition>, selected: Option<ExecutionPlatform>) {
    && condition.Some? && condition.value.platform.Some? && selected.Some?
    && !condition.value.platform.value.UnknownPlatform?
    && condition.value.platform != Reported(selected.value)
  }

  lemma ExcludedExactlyWhenForAnother(condition: Option<Condition>, selected: Option<ExecutionPlatform>)
    ensures ConditionExcludesPlatform(condition, selected) <==> ForAnotherPlatform(condition, selected)
  {
  }

  /** What inspection leaves out for its platform is what a run on the selected platform skips for it, except
      that inspection does look at conditions on platforms nobody knows. */
  lemma ExcludedExactlyWhenSkipped(condition: Option<Condition>, selected: ExecutionPlatform)
    requires !selected.UnknownSelection?
    ensures ConditionExcludesPlatform(condition, Some(selected)) <==>
              && SkippedOn(condition, Reported(selected).value)
              && !condition.value.platform.value.UnknownPlatform?
  {
  }

  /** No command strictly above the addressed one is conditioned on another platform. */
  ghost predicate Unskipped(commands: seq<Command>, place: seq<nat>, platform: Option<ExecutionPlatform>)
    requires Addresses(commands, place)
  {
    |place| > 1 ==>
      && !ForAnotherPlatform(commands[place[0]].condition, platform)
      && Unskipped(commands[place[0]].children, place[1..], platform)
  }

  /** Every command that inspection must look at is clean in itself. */
  ghost predicate AllReachedClean(commands: seq<Command>, catalog: Catalog, tables: DriverTables,
                                  platform: Option<ExecutionPlatform>)
  {
    forall place :: Addresses(commands, place) && Unskipped(commands, place, platform) ==>
      OwnViolation(CommandAt(commands, place), catalog, tables, platform).None?
  }

  lemma {:induction false} CleanSplits(commands: seq<Command>, catalog: Catalog, tables: DriverTables,
                                       platform: Option<ExecutionPlatform>)
    requires commands != []
    ensures AllReachedClean(commands, catalog, tables, platform) <==>
            && OwnViolation(commands[0], catalog, tables, platform).None?
            && AllReachedClean(InspectedChildren(commands[0], platform), catalog, tables, platform)
            && AllReachedClean(commands[1..], catalog, tables, platform)
  {
    hide ForAnotherPlatform, ConditionExcludesPlatform;
    var head, tail := commands[0], commands[1..];
    var inner := InspectedChildren(head, platform);
    ExcludedExactlyWhenForAnother(head.condition, platform);
    if AllReachedClean(commands, catalog, tables, platform) {
      assert Addresses(commands, [0]) && CommandAt(commands, [0]) == head;
      forall place | Addresses(inner, place) && Unskipped(inner, place, platform)
        ensures OwnViolation(CommandAt(inner, place), catalog, tables, platform).None?
      {
        var outer := [0] + place;
        assert outer[1..] == place;
        assert CommandAt(commands, outer) == CommandAt(inner, place);
      }
      forall place | Addresses(tail, place) && Unskipped(tail, place, platform)
        ensures OwnViolation(CommandAt(tail, place), catalog, tables, platform).None?
      {
        var outer := [place[0] + 1] + place[1..];
        assert outer[1..] == place[1..] && commands[outer[0]] == tail[place[0]];
        assert CommandAt(commands, outer) == CommandAt(tail, place);
      }
    }
    if OwnViolation(head, catalog, tables, platform).None? && AllReachedClean(inner, catalog, tables, platform)
       && AllReachedClean(tail, catalog, tables, platform)
    {
      forall place | Addresses(commands, place) && Unskipped(commands, place, platform)
        ensures OwnViolation(CommandAt(commands, place), catalog, tables, platform).None?
      {
        if place[0] > 0 {
          var shifted := [place[0] - 1] + place[1..];
          assert shifted[1..] == place[1..] && tail[shifted[0]] == commands[place[0]];
          assert CommandAt(commands, place) == CommandAt(tail, shifted);
        } else if |place| > 1 {
          assert inner == head.children && Addresses(inner, place[1..]) && Unskipped(inner, place[1..], platform);
        }
      }
    }
  }

  /** Inspection of a command list passes exactly when every command outside the subtrees
      conditioned on another platform is clean. */
  lemma {:induction false} InspectionIsComplete(commands: seq<Command>, catalog: Catalog, tables: DriverTables,
                                                platform: Option<ExecutionPlatform>)
    ensures CommandsViolation(commands, catalog, tables, platform).None?
       <==> AllReachedClean(commands, catalog, tables, platform)
    decreases commands
  {
    if commands != [] {
      CleanSplits(commands, catalog, tables, platform);
      if !ConditionExcludesPlatform(commands[0].condition, platform) {
        InspectionIsComplete(commands[0].children, catalog, tables, platform);
      }
      InspectionIsComplete(commands[1..], catalog, tables, platform);
    }
  }

  /** `place` addresses a selector inside a selector. */
  ghost predicate SelectorAddresses(s: Selector, place: seq<nat>)
    decreases |place|
  {
    place != [] ==> place[0] < |SubSelectors(s)| && SelectorAddresses(SubSelectors(s)[place[0]], place[1..])
  }

  ghost function SelectorAt(s: Selector, place: seq<nat>): Selector
    requires SelectorAddresses(s, place)
    decreases |place|
  {
    if place == [] then s else SelectorAt(SubSelectors(s)[place[0]], place[1..])
  }

  lemma {:induction false} ListedSelectorClean(selectors: seq<Selector>, i: nat, catalog: Catalog,
                                               fallback: SourceInfo, platform: Option<ExecutionPlatform>)
    requires SelectorsViolation(selectors, catalog, fallback, platform).None? && i < |selectors|
    ensures InspectCSS(selectors[i], catalog, fallback, platform).None?
    ensures SelectorsViolation(SubSelectors(selectors[i]), catalog, fallback, platform).None?
  {
    if i > 0 {
      ListedSelectorClean(selectors[1..], i - 1, catalog, fallback, platform);
    }
  }

  /** A selector list that passes has no css clause at any depth unless css selectors are supported. */
  lemma {:induction false} CleanSelectorHasOnlySupportedCSS(selectors: seq<Selector>, i: nat, place: seq<nat>,
                                                            catalog: Catalog, fallback: SourceInfo,
                                                            platform: Option<ExecutionPlatform>)
    requires SelectorsViolation(selectors, catalog, fallback, platform).None? && i < |selectors|
    requires SelectorAddresses(selectors[i], place) && SelectorAt(selectors[i], place).css.Some?
    ensures Supported(catalog, SelectorFeature, "css", platform)
    decreases |place|
  {
    ListedSelectorClean(selectors, i, catalog, fallback, platform);
    if place != [] {
      CleanSelectorHasOnlySupportedCSS(SubSelectors(selectors[i]), place[0], place[1..], catalog, fallback, platform);
    }
  }

  /** What the fail-closed promise asks of flows that carry the URL `url`. */
  ghost predicate InspectionGuards(url: string, catalog: Catalog, tables: DriverTables,
                                   platform: Option<ExecutionPlatform>)
  {
    forall flow: Flow :: flow.config.url == url && FlowViolation(flow, catalog, tables, platform).None? ==>
      AllReachedClean(AllCommands(flow), catalog, tables, platform)
  }

  /** The promise fails for flows with a URL: once the URL itself is supported no command is looked at.
      It holds exactly when no URL is configured or URLs are refused on the selected platform.
      `unknown` is any keyword that the catalog refuses. */
  lemma {:induction false} InspectionGuardsExactlyWithoutURL(
      url: string, unknown: string, source: SourceInfo, catalog: Catalog, tables: DriverTables,
      platform: Option<ExecutionPlatform>)
    requires UnsupportedFeature(catalog, CommandFeature, unknown, source, platform).Some?
    ensures InspectionGuards(url, catalog, tables, platform)
       <==> url == "" || UnsupportedFeature(catalog, ConfigExtensionFeature, "url", source, platform).Some?
  {
    if url == "" || UnsupportedFeature(catalog, ConfigExtensionFeature, "url", source, platform).Some? {
      forall flow: Flow | flow.config.url == url && FlowViolation(flow, catalog, tables, platform).None?
        ensures AllReachedClean(AllCommands(flow), catalog, tables, platform)
      {
        InspectionIsComplete(AllCommands(flow), catalog, tables, platform);
      }
    } else {
      var command := Command(unknown, OtherArguments, None, None, [], [], source);
      var flow := Flow(AST_VERSION_V0, Config(url, [], [], [], source, map[]), [command], source);
      assert FlowViolation(flow, catalog, tables, platform).None?;
      assert AllCommands(flow) == [command];
      assert Addresses([command], [0]) && CommandAt([command], [0]) == command;
      assert Unskipped([command], [0], platform);
      assert OwnViolation(command, catalog, tables, platform).Some?;
    }
  }

  /** A link of a command anywhere in a flow is among the collected links. */
  lemma {:induction false} AddressedLinkIsCollected(commands: seq<Command>, place: seq<nat>, link: FileLink)
    requires Addresses(commands, place) && link in CommandAt(commands, place).links
    ensures link in LinksOf(commands)
    decreases |place|, |commands|
  {
    if place[0] > 0 {
      var shifted := [place[0] - 1] + place[1..];
      assert shifted[1..] == place[1..] && commands[1..][shifted[0]] == commands[place[0]];
      assert CommandAt(commands[1..], shifted) == CommandAt(commands, place);
      AddressedLinkIsCollected(commands[1..], shifted, link);
    } else if |place| > 1 {
      AddressedLinkIsCollected(commands[0].children, place[1..], link);
    }
  }
}
