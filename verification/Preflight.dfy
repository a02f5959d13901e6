/** Capability preflight: the search over all flows reachable from the selected roots that
    accepts or rejects an execution plan before anything is opened. */
module Preflight {
  import opened Wrappers
  import opened Sequences
  import opened FlowModel
  import opened Registry
  import opened Inspection
  import opened FlowGraphs
  import opened RecordingLoader
  import opened DepthFirst

  datatype Setup = Setup(
    rules: PathRules,
    catalog: Catalog,
    required: set<Key>,
    tables: DriverTables,
    platform: Option<ExecutionPlatform>)

  datatype CheckError =
    | NoSelectedRoots
    | InvalidRegistry(reason: RegistryError)
    | UnknownSelectedPlatform
    | Rejected(violation: Violation)

  // ---------------------------------------------------------------------------
  // Violations raised by the search itself
  // ---------------------------------------------------------------------------

  function StartOf(path: string): SourceInfo {
    SourceInfo(path, 1, 1)
  }

  function PathViolation(path: string, source: Option<SourceInfo>, error: LoadError,
                         chain: seq<GraphEdge>): (violation: Violation)
    ensures violation.chain == chain && violation.cause == Some(error)
  {
    var location := if source.Some? then source.value else StartOf(path);
    var code := match error
      case IsDirectory => DirectoryLink
      case NonRegular => NonRegularLink
      case NotExist => MissingLink
      case _ => LinkError;
    Violation(code, None, location, chain, Some(error))
  }

  function LoadViolation(path: string, error: LoadError, chain: seq<GraphEdge>): (violation: Violation)
    ensures violation.chain == chain && violation.cause == Some(error)
  {
    match error
    case Unparsable(source) => Violation(FlowParseError, None, source, chain, Some(error))
    case _ =>
      var violation := PathViolation(path, Some(StartOf(path)), error, chain);
      if violation.code.LinkError? then violation.(code := FlowLoadError) else violation
  }

  function AstVersionViolation(path: string, flow: Flow, chain: seq<GraphEdge>): (violation: Violation)
    ensures violation.chain == chain && violation.code == UnsupportedAstVersion
  {
    var location := if flow.source.path != "" then flow.source
                    else if flow.config.source.path != "" then flow.config.source
                    else StartOf(path);
    Violation(UnsupportedAstVersion, None, location, chain, None)
  }

  function LinkViolation(code: ViolationCode, link: FileLink, chain: seq<GraphEdge>): Violation {
    Violation(code, None, link.source, chain, None)
  }

  // ---------------------------------------------------------------------------
  // What the outcomes mean
  // ---------------------------------------------------------------------------

  /** The flow graph that the followed links span. */
  ghost function Successors(hops: Hops): Graph {
    map p | p in hops :: TargetsOf(HopsOf(hops, p))
  }

  /** What was followed from a flow; nothing from one that was not loaded. */
  ghost function HopsOf(hops: Hops, p: string): seq<Hop> {
    if p in hops then hops[p] else []
  }

  ghost function TargetsOf(hops: seq<Hop>): set<string> {
    set k | 0 <= k < |hops| && hops[k].link.kind.FlowLink? :: hops[k].target
  }

  lemma SuccessorEdge(hops: Hops, from: string, to: string)
    ensures FlowHop(hops, from, to) <==> Edge(Successors(hops), from, to)
  {
  }

  /** What preflight has to say about a flow once the loader has answered for it. */
  function FlowProblem(setup: Setup, path: string, answer: Result<Flow, LoadError>,
                       chain: seq<GraphEdge>): (problem: Option<Violation>)
    ensures problem.Some? ==> problem.value.chain == chain
  {
    match answer
    case Failure(error) => Some(LoadViolation(path, error, chain))
    case Success(flow) =>
      if flow.schemaVersion != AST_VERSION_V0 then Some(AstVersionViolation(path, flow, chain))
      else InspectionProblem(FlowViolation(flow, setup.catalog, setup.tables, setup.platform), chain)
  }

  function InspectionProblem(found: Option<Violation>, chain: seq<GraphEdge>): Option<Violation> {
    if found.Some? then Some(found.value.(chain := chain)) else None
  }

  /** The call site of a link, as reported before its target is judged. */
  function CallSite(rules: PathRules, from: string, link: FileLink, answer: Result<string, LoadError>): GraphEdge {
    match answer
    case Failure(_) => GraphEdge(from, rules.clean(LinkTarget(rules, from, link)), link.kind, link.source)
    case Success(target) => EdgeOf(rules, from, Hop(link, target))
  }

  /** What preflight has to say about a link once the loader has answered for its target.
      `trail` lists the flows on the active path, ending in the one that holds the link. */
  function LinkProblem(rules: PathRules, from: string, link: FileLink, answer: Result<string, LoadError>,
                       trail: seq<string>, chain: seq<GraphEdge>): (problem: Option<Violation>)
    ensures problem.Some? ==> problem.value.chain == chain
  {
    match answer
    case Failure(error) => Some(PathViolation(LinkTarget(rules, from, link), Some(link.source), error, chain))
    case Success(target) =>
      if link.kind.FlowLink? then
        if target in trail then Some(LinkViolation(ActiveCycle, link, chain)) else None
      else if target == from then Some(LinkViolation(SelfLink, link, chain))
      else if link.kind.UnknownLink? then Some(LinkViolation(UnknownLinkKind, link, chain))
      else None
  }

  ghost predicate Clear(setup: Setup, flow: Flow) {
    FlowProblem(setup, "", Success(flow), []).None?
  }

  ghost predicate HopRecorded(rules: PathRules, canonical: CanonicalTable, p: string, hop: Hop) {
    LinkTarget(rules, p, hop.link) in canonical && canonical[LinkTarget(rules, p, hop.link)] == Success(hop.target)
  }

  /** Every followed link led where the loader said. */
  ghost predicate HopsRecorded(rules: PathRules, canonical: CanonicalTable, hops: Hops) {
    forall p, k :: p in hops && 0 <= k < |hops[p]| ==> HopRecorded(rules, canonical, p, hops[p][k])
  }

  ghost predicate FlowsRecorded(flows: FlowTable, loaded: map<string, Flow>) {
    forall p :: p in loaded ==> p in flows && flows[p] == Success(loaded[p])
  }

  /** The followed links are the first links of their recorded flows, in order, with their recorded targets. */
  ghost predicate HopsGenuine(rules: PathRules, canonical: CanonicalTable, flows: FlowTable, hops: Hops) {
    && HopsRecorded(rules, canonical, hops)
    && forall p :: p in hops ==>
         && p in flows && flows[p].Success? && |hops[p]| <= |FlowLinks(flows[p].value)|
         && forall k :: 0 <= k < |hops[p]| ==> hops[p][k].link == FlowLinks(flows[p].value)[k]
  }

  ghost predicate FlowsClear(setup: Setup, loaded: map<string, Flow>) {
    forall p :: p in loaded ==> Clear(setup, loaded[p])
  }

  ghost predicate RootsRecorded(selected: seq<string>, canonical: CanonicalTable, roots: seq<string>) {
    |roots| <= |selected| &&
    forall i :: 0 <= i < |roots| ==> selected[i] in canonical && canonical[selected[i]] == Success(roots[i])
  }

  /** A flow of an accepted plan: loaded, clear, and with every link followed and reported once. */
  ghost predicate NodeAccepted(setup: Setup, canonical: CanonicalTable, flows: FlowTable, edges: seq<GraphEdge>,
                               hops: Hops, p: string)
  {
    && p in flows && flows[p].Success? && Clear(setup, flows[p].value)
    && p in hops && |hops[p]| == |FlowLinks(flows[p].value)|
    && (forall k :: 0 <= k < |hops[p]| ==>
          && hops[p][k].link == FlowLinks(flows[p].value)[k]
          && HopRecorded(setup.rules, canonical, p, hops[p][k])
          && ResourceHopOk(p, hops[p][k]))
    && EdgesOf(setup.rules, edges, p, hops[p])
  }

  /** What preflight establishes when it raises no error. */
  ghost predicate Accepted(setup: Setup, selected: seq<string>, canonical: CanonicalTable, flows: FlowTable,
                           report: Report, hops: Hops, finish: seq<string>)
  {
    && selected != []
    && |report.roots| == |selected| && RootsRecorded(selected, canonical, report.roots)
    && Distinct(report.nodes) && Elements(report.nodes) == hops.Keys
    && (forall p :: p in hops ==> NodeAccepted(setup, canonical, flows, report.edges, hops, p))
    && (forall i :: 0 <= i < |report.edges| ==> report.edges[i].from in hops)
    && Elements(report.roots) <= hops.Keys
    && (forall p :: p in hops ==> Reachable(Successors(hops), Elements(report.roots), p))
    && ChildrenFirst(Successors(hops), finish)
  }

  /** `edge` is the call site through which flow `from` links flow `to`. */
  ghost predicate ChainLink(rules: PathRules, hops: Hops, from: string, to: string, edge: GraphEdge) {
    from in hops && exists k :: 0 <= k < |hops[from]| && hops[from][k].link.kind.FlowLink? && hops[from][k].target == to
                      && edge == EdgeOf(rules, from, hops[from][k])
  }

  /** The chain names the call sites from each flow of the trail to the next. */
  ghost predicate ChainAlong(rules: PathRules, hops: Hops, trail: seq<string>, chain: seq<GraphEdge>) {
    |chain| + 1 == |trail| && forall i :: 0 <= i < |chain| ==> ChainLink(rules, hops, trail[i], trail[i + 1], chain[i])
  }

  /** The k-th link of the last flow of the trail is why the plan was rejected. */
  ghost predicate LinkRefused(rules: PathRules, canonical: CanonicalTable, flows: FlowTable, hops: Hops,
                              trail: seq<string>, k: nat, v: Violation)
    requires trail != []
  {
    var n := trail[|trail| - 1];
    && n in flows && flows[n].Success? && k < |FlowLinks(flows[n].value)|
    && var link := FlowLinks(flows[n].value)[k];
       var target := LinkTarget(rules, n, link);
       && target in canonical
       && |v.chain| == |trail| && ChainAlong(rules, hops, trail, v.chain[..|trail| - 1])
       && v.chain[|trail| - 1] == CallSite(rules, n, link, canonical[target])
       && LinkProblem(rules, n, link, canonical[target], trail, v.chain) == Some(v)
  }

  /** The last flow of the trail itself is why the plan was rejected. */
  ghost predicate FlowRefused(setup: Setup, flows: FlowTable, hops: Hops, trail: seq<string>, v: Violation)
    requires trail != []
  {
    var n := trail[|trail| - 1];
    && n in flows && ChainAlong(setup.rules, hops, trail, v.chain)
    && FlowProblem(setup, n, flows[n], v.chain) == Some(v)
  }

  /** Every rejection is backed by the recorded answers: a root that does not resolve, or a trail of
      distinct flows from the latest root to the one that is refused. */
  ghost predicate Justified(setup: Setup, selected: seq<string>, roots: seq<string>, canonical: CanonicalTable,
                            flows: FlowTable, hops: Hops, trail: seq<string>, v: Violation)
  {
    && RootsRecorded(selected, canonical, roots)
    && HopsGenuine(setup.rules, canonical, flows, hops)
    && if trail == [] then
         && |roots| < |selected| && selected[|roots|] in canonical && canonical[selected[|roots|]].Failure?
         && v == PathViolation(selected[|roots|], None, canonical[selected[|roots|]].error, [])
       else
         && roots != [] && trail[0] == roots[|roots| - 1] && Distinct(trail)
         && (FlowRefused(setup, flows, hops, trail, v)
             || exists k :: LinkRefused(setup.rules, canonical, flows, hops, trail, k, v))
  }

  /** What the report of a rejected plan shows: every loaded flow once, the call sites of all followed links,
      and last, where a link is refused, the call site of that link. */
  ghost predicate ShowsProgress(rules: PathRules, nodes: seq<string>, edges: seq<GraphEdge>, hops: Hops,
                                trail: seq<string>, v: Violation) {
    && Distinct(nodes) && Elements(nodes) == hops.Keys
    && if |v.chain| < |trail| || trail == [] then EdgesAgree(rules, edges, hops)
       else
         && edges != [] && v.chain != [] && edges[|edges| - 1] == v.chain[|v.chain| - 1]
         && EdgesAgree(rules, edges[..|edges| - 1], hops)
  }

  lemma ProgressIsShown(s: Search, rules: PathRules, roots: set<string>, trail: seq<string>, v: Violation)
    requires Inv(s, rules, roots) && (|v.chain| < |trail| || trail == [])
    ensures ShowsProgress(rules, s.nodes, s.edges, s.hops, trail, v)
  {
    hide EdgesAgree, StackOk, FinishOk, LinksFollowed, Discovered;
  }

  lemma RefusedLinkIsShown(s: Search, rules: PathRules, roots: set<string>, trail: seq<string>, edge: GraphEdge,
                           v: Violation)
    requires Inv(s, rules, roots) && |v.chain| == |trail| > 0 && v.chain[|v.chain| - 1] == edge
    ensures ShowsProgress(rules, s.nodes, s.edges + [edge], s.hops, trail, v)
  {
    hide EdgesAgree, StackOk, FinishOk, LinksFollowed, Discovered;
    assert (s.edges + [edge])[..|s.edges|] == s.edges;
  }

  // ---------------------------------------------------------------------------
  // Chains
  // ---------------------------------------------------------------------------

  function Chain(stack: seq<Frame>): seq<GraphEdge> {
    if |stack| <= 1 then []
    else
      var top := stack[|stack| - 1];
      Chain(stack[..|stack| - 1]) + (if top.incoming.Some? then [top.incoming.value] else [])
  }

  method ChainForStack(stack: seq<Frame>) returns (chain: seq<GraphEdge>)
    requires |stack| > 0
    ensures chain == Chain(stack)
  {
    chain := [];
    for index := 1 to |stack|
      invariant chain == Chain(stack[..index])
    {
      assert stack[..index + 1][..index] == stack[..index];
      if stack[index].incoming.Some? {
        chain := chain + [stack[index].incoming.value];
      }
    }
    assert stack[..|stack|] == stack;
  }

  ghost function Trail(stack: seq<Frame>): (trail: seq<string>)
    ensures |trail| == |stack| && forall i :: 0 <= i < |stack| ==> trail[i] == stack[i].path
  {
    seq(|stack|, i requires 0 <= i < |stack| => stack[i].path)
  }

  lemma {:induction false} ChainFollowsStack(s: Search, rules: PathRules, n: nat)
    requires StackOk(s, rules) && 0 < n <= |s.stack|
    ensures ChainAlong(rules, s.hops, Trail(s.stack[..n]), Chain(s.stack[..n]))
  {
    if n > 1 {
      ChainFollowsStack(s, rules, n - 1);
      assert s.stack[..n][..n - 1] == s.stack[..n - 1];
      assert FrameLinked(s, rules, n - 1);
      var from := s.stack[n - 2].path;
      assert ChainLink(rules, s.hops, from, s.stack[n - 1].path, s.stack[n - 1].incoming.value) by {
        var k := |s.hops[from]| - 1;
        assert s.hops[from][k].target == s.stack[n - 1].path;
      }
    }
  }

  lemma StackChain(s: Search, rules: PathRules)
    requires StackOk(s, rules) && s.stack != []
    ensures ChainAlong(rules, s.hops, Trail(s.stack), Chain(s.stack)) && Distinct(Trail(s.stack))
  {
    ChainFollowsStack(s, rules, |s.stack|);
    assert s.stack[..|s.stack|] == s.stack;
  }

  // ---------------------------------------------------------------------------
  // The search
  // ---------------------------------------------------------------------------

  /** Canonical answers stay within a finite set of paths. */
  ghost predicate Confined(base: BaseLoader, universe: set<string>) {
    forall t, path :: base.canonical(t, path).Success? ==> base.canonical(t, path).value in universe
  }

  ghost function Unread(stack: seq<Frame>): nat {
    if stack == [] then 0
    else
      var top := stack[|stack| - 1];
      Unread(stack[..|stack| - 1]) + (if top.nextLink <= |top.links| then |top.links| - top.nextLink else 0)
  }

  lemma OpenedRecorded(setup: Setup, canonical: CanonicalTable, flows: FlowTable, hops: Hops, loaded: map<string, Flow>,
                       path: string, flow: Flow)
    requires HopsRecorded(setup.rules, canonical, hops) && FlowsRecorded(flows, loaded)
    requires path in flows && flows[path] == Success(flow)
    ensures HopsRecorded(setup.rules, canonical, hops[path := []]) && FlowsRecorded(flows, loaded[path := flow])
    ensures FlowsClear(setup, loaded) && Clear(setup, flow) ==> FlowsClear(setup, loaded[path := flow])
  {
    hide Clear;
  }

  class Checker {
    const setup: Setup
    const recorder: Recorder
    var colors: map<string, Color>
    var loaded: map<string, Flow>
    var roots: seq<string>
    var nodes: seq<string>
    var edges: seq<GraphEdge>
    var stack: seq<Frame>
    ghost var hops: Hops
    ghost var finish: seq<string>

    constructor (setup: Setup, recorder: Recorder)
      requires recorder.Valid()
      ensures this.setup == setup && this.recorder == recorder && roots == []
      ensures Valid() && stack == []
    {
      this.setup := setup;
      this.recorder := recorder;
      colors, loaded, roots, nodes, edges, stack := map[], map[], [], [], [], [];
      hops, finish := map[], [];
      new;
      EmptySearch(setup.rules);
      assert Elements(roots) == {};
    }

    ghost function View(): Search
      reads this
    {
      Search(colors, loaded, nodes, edges, stack, hops, finish)
    }

    /** Everything recorded so far is consistent; the flow on top may still await inspection. */
    ghost predicate Consistent()
      reads this, recorder
    {
      && recorder.Valid()
      && Inv(View(), setup.rules, Elements(roots))
      && HopsRecorded(setup.rules, recorder.canonical, hops)
      && FlowsRecorded(recorder.flows, loaded)
      && (stack != [] ==> roots != [] && stack[0].path == roots[|roots| - 1])
    }

    ghost predicate Valid()
      reads this, recorder
    {
      Consistent() && FlowsClear(setup, loaded)
    }

    ghost predicate Refuses(v: Violation)
      reads this, recorder
    {
      && stack != [] && roots != [] && stack[0].path == roots[|roots| - 1] && Distinct(Trail(stack))
      && HopsGenuine(setup.rules, recorder.canonical, recorder.flows, hops)
      && ShowsProgress(setup.rules, nodes, edges, hops, Trail(stack), v)
      && (FlowRefused(setup, recorder.flows, hops, Trail(stack), v)
          || exists k :: LinkRefused(setup.rules, recorder.canonical, recorder.flows, hops, Trail(stack), k, v))
    }

    /** Asks the recorder for the flow on top. */
    method LoadTop() returns (answer: Result<Flow, LoadError>)
      requires Valid() && stack != []
      modifies recorder
      ensures Valid() && recorder.canonical == old(recorder.canonical)
      ensures stack[|stack| - 1].path in recorder.flows && recorder.flows[stack[|stack| - 1].path] == answer
    {
      hide Inv, HopsRecorded, FlowsClear, Recorder.Valid;
      answer := recorder.Load(stack[|stack| - 1].path);
    }

    /** Lists and paints the top flow, and sets out its links. */
    method OpenTop(flow: Flow)
      requires Valid() && CanEnter(View())
      requires stack[|stack| - 1].path in recorder.flows && recorder.flows[stack[|stack| - 1].path] == Success(flow)
      modifies this
      ensures Consistent() && View() == Enter(old(View()), flow) && roots == old(roots)
      ensures Clear(setup, flow) ==> Valid()
    {
      hide Inv, Recorder.Valid, Clear, HopsRecorded, FlowsRecorded, FlowsClear;
      EnterKeeps(View(), setup.rules, Elements(roots), flow);
      OpenedRecorded(setup, recorder.canonical, recorder.flows, hops, loaded, stack[|stack| - 1].path, flow);
      var index := |stack| - 1;
      var frame := stack[index];
      loaded := loaded[frame.path := flow];
      nodes := nodes + [frame.path];
      colors := colors[frame.path := Gray];
      var links := CollectLinks(flow);
      stack := stack[index := frame.(entered := true, links := links)];
      hops := hops[frame.path := []];
    }

    /** Lists, paints and inspects the top flow. */
    method InspectTop(flow: Flow) returns (violation: Option<Violation>)
      requires Valid() && CanEnter(View()) && flow.schemaVersion == AST_VERSION_V0
      requires stack[|stack| - 1].path in recorder.flows && recorder.flows[stack[|stack| - 1].path] == Success(flow)
      modifies this
      ensures roots == old(roots) && recorder.Valid()
      ensures violation.None? ==> Valid() && Entered(old(View()), View())
      ensures violation.Some? ==> Refuses(violation.value)
    {
      hide Inv, HopsRecorded, FlowsRecorded, FlowsClear, Recorder.Valid, ChainAlong, LinkRefused, FrameOk, Clear;
      hide HopsGenuine, ShowsProgress;
      OpenTop(flow);
      var found := InspectFlow(flow, setup.catalog, setup.tables, setup.platform);
      if found.Some? {
        TopFacts(View(), setup.rules, Elements(roots));
        var chain := ChainForStack(stack);
        GenuineHops(View(), setup.rules, Elements(roots), recorder.canonical, recorder.flows);
        violation := InspectionProblem(found, chain);
        ProgressIsShown(View(), setup.rules, Elements(roots), Trail(stack), violation.value);
        return;
      }
      ClearFlow(setup, flow);
      violation := None;
    }

    /** Loads, lists, paints and inspects the flow on top of the stack. The flow is white here, so it
        has not been loaded before. */
    method EnterTop() returns (violation: Option<Violation>)
      requires Valid() && CanEnter(View())
      modifies this, recorder
      ensures recorder.Valid()
      ensures roots == old(roots) && recorder.canonical == old(recorder.canonical)
      ensures violation.None? ==> Valid() && Entered(old(View()), View())
      ensures violation.Some? ==> Refuses(violation.value)
    {
      hide Inv, HopsRecorded, FlowsRecorded, FlowsClear, Recorder.Valid, ChainAlong, LinkRefused, FrameOk, HopsGenuine;
      hide ShowsProgress;
      var path := stack[|stack| - 1].path;
      TopFacts(View(), setup.rules, Elements(roots));
      assert path !in loaded;
      var answer := LoadTop();
      if answer.Failure? || answer.value.schemaVersion != AST_VERSION_V0 {
        var chain := ChainForStack(stack);
        GenuineHops(View(), setup.rules, Elements(roots), recorder.canonical, recorder.flows);
        violation := FlowProblem(setup, path, answer, chain);
        ProgressIsShown(View(), setup.rules, Elements(roots), Trail(stack), violation.value);
        return;
      }
      violation := InspectTop(answer.value);
    }

    /** Asks the recorder where the next link of the top flow leads. */
    method AskNext() returns (answer: Result<string, LoadError>)
      requires Valid() && CanFollow(View())
      modifies recorder
      ensures Valid() && recorder.flows == old(recorder.flows) && Extends(old(recorder.canonical), recorder.canonical)
      ensures NextTarget(setup.rules, View()) in recorder.canonical
      ensures recorder.canonical[NextTarget(setup.rules, View())] == answer
    {
      hide Inv, FlowsClear, FlowsRecorded, Recorder.Valid;
      var frame := stack[|stack| - 1];
      answer := recorder.Canonical(LinkTarget(setup.rules, frame.path, frame.links[frame.nextLink]));
    }

    /** Records the next link of the top flow as followed to `target`; a white flow is pushed. */
    method Advance(target: string, edge: GraphEdge)
      requires Valid() && CanFollow(View())
      requires HopRecorded(setup.rules, recorder.canonical, Top(View()).path, NextHop(View(), target))
      requires edge == EdgeOf(setup.rules, Top(View()).path, NextHop(View(), target))
      requires LinkProblem(setup.rules, Top(View()).path, NextHop(View(), target).link, Success(target), Trail(stack),
                           []).None?
      modifies this
      ensures Valid() && Advanced(old(View()), View()) && roots == old(roots)
    {
      hide Inv, Recorder.Valid, FlowsClear, FlowsRecorded, HopsRecorded, HopRecorded, EdgeOf, LinkTarget;
      ghost var before := View();
      NextStepKeeps(before, setup.rules, Elements(roots), target);
      NextStepRecorded(before, setup.rules, recorder.canonical, target);
      var index := |stack| - 1;
      var frame := stack[index];
      var link := frame.links[frame.nextLink];
      stack := stack[index := frame.(nextLink := frame.nextLink + 1)];
      edges := edges + [edge];
      hops := hops[frame.path := hops[frame.path] + [Hop(link, target)]];
      if link.kind.FlowLink? && Find(colors, target).None? {
        stack := stack + [Frame(target, Some(edge), false, [], 0)];
      }
      assert View() == NextStep(before, setup.rules, target);
    }

    /** Follows the next link of the top flow, or says why the plan must be rejected. */
    method FollowNext() returns (violation: Option<Violation>)
      requires Valid() && CanFollow(View())
      modifies this, recorder
      ensures recorder.Valid()
      ensures roots == old(roots) && Extends(old(recorder.canonical), recorder.canonical)
      ensures violation.None? ==> Valid() && Advanced(old(View()), View())
      ensures violation.Some? ==> Refuses(violation.value)
    {
      hide Inv, Recorder.Valid, FlowsClear, HopsRecorded, FlowsRecorded, ChainAlong, LinkRefused, EdgeOf, LinkTarget;
      hide PathViolation, Chain, HopsGenuine, ShowsProgress;
      var answer := AskNext();
      var frame := stack[|stack| - 1];
      var link := frame.links[frame.nextLink];
      var edge := CallSite(setup.rules, frame.path, link, answer);
      var code := None;
      if answer.Success? && link.kind.FlowLink? {
        GrayIsOnTrail(View(), setup.rules, Elements(roots), answer.value);
        if Find(colors, answer.value) == Some(Gray) {
          code := Some(ActiveCycle);
        }
      } else if answer.Success? {
        if answer.value == frame.path {
          code := Some(SelfLink);
        } else if !link.kind.ScriptLink? && !link.kind.MediaLink? {
          code := Some(UnknownLinkKind);
        }
      }
      if answer.Failure? || code.Some? {
        var chain := ChainForStack(stack);
        var target := LinkTarget(setup.rules, frame.path, link);
        violation := Some(if answer.Failure? then PathViolation(target, Some(link.source), answer.error, chain + [edge])
                          else LinkViolation(code.value, link, chain + [edge]));
        RefuseLink(View(), setup.rules, Elements(roots), recorder.canonical, recorder.flows, violation.value);
        GenuineHops(View(), setup.rules, Elements(roots), recorder.canonical, recorder.flows);
        edges := edges + [edge];
        return;
      }
      Advance(answer.value, edge);
      violation := None;
    }

    /** Turns the top flow black once its links are all followed. */
    method RetireTop()
      requires Valid() && CanRetire(View())
      modifies this
      ensures Valid() && Left(old(View()), View()) && roots == old(roots)
    {
      hide Inv, Recorder.Valid, FlowsClear, FlowsRecorded, HopsRecorded;
      RetireKeeps(View(), setup.rules, Elements(roots));
      RetireLeaves(View(), setup.rules, Elements(roots));
      var path := stack[|stack| - 1].path;
      colors := colors[path := Black];
      stack := stack[..|stack| - 1];
      finish := finish + [path];
      assert View() == Retire(old(View()));
    }

    /** Leaves the entered flow on top if all its links are followed, and follows its next link otherwise. */
    method LeaveOrFollow(ghost universe: set<string>) returns (violation: Option<Violation>)
      requires Valid() && Confined(recorder.base, universe) && stack != [] && stack[|stack| - 1].entered
      modifies this, recorder
      ensures recorder.Valid()
      ensures roots == old(roots) && Extends(old(recorder.canonical), recorder.canonical)
      ensures violation.None? ==>
                && Valid() && colors.Keys == old(colors.Keys)
                && (Unread(stack) < old(Unread(stack))
                    || (Unread(stack) == old(Unread(stack)) && |stack| < old(|stack|)))
                && (stack != [] && !stack[|stack| - 1].entered ==> stack[|stack| - 1].path in universe)
                && (stack == [] ==> roots != [] && roots[|roots| - 1] in colors)
      ensures violation.Some? ==> Refuses(violation.value)
    {
      hide Inv, FlowsClear, FlowsRecorded, HopsRecorded, ChainAlong, LinkRefused, FlowRefused, FrameOk, Recorder.Valid;
      hide Confined, HopsGenuine, Checker.Refuses;
      TopFacts(View(), setup.rules, Elements(roots));
      if stack[|stack| - 1].nextLink >= |stack[|stack| - 1].links| {
        ghost var root := stack[0].path;
        assert |stack| == 1 ==> root == stack[|stack| - 1].path;
        RetireTop();
        return None;
      }
      violation := FollowNext();
      if violation.None? && !stack[|stack| - 1].entered {
        TopConfined(View(), setup.rules, Elements(roots), recorder, universe);
      }
    }

    /** Searches everything below the latest root. Every round paints a white flow, follows a link, or
        leaves a finished flow, so the search ends. */
    method Explore(ghost universe: set<string>) returns (violation: Option<Violation>)
      requires Valid() && Confined(recorder.base, universe)
      requires |stack| == 1 && stack[0].path in universe
      modifies this, recorder
      ensures recorder.Valid()
      ensures roots == old(roots) && Extends(old(recorder.canonical), recorder.canonical)
      ensures violation.None? ==>
                Valid() && stack == [] && roots[|roots| - 1] in colors && old(colors.Keys) <= colors.Keys
      ensures violation.Some? ==> Refuses(violation.value)
    {
      hide Inv, FlowsClear, FlowsRecorded, HopsRecorded, ChainAlong, LinkRefused, FlowRefused, FrameOk, Recorder.Valid;
      hide Confined, HopsGenuine, Checker.Refuses;
      while |stack| > 0
        invariant Valid() && roots == old(roots) && Extends(old(recorder.canonical), recorder.canonical)
        invariant |stack| > 0 && !stack[|stack| - 1].entered ==> stack[|stack| - 1].path in universe
        invariant old(colors.Keys) <= colors.Keys && roots != []
        invariant |stack| == 0 ==> roots[|roots| - 1] in colors
        decreases universe - colors.Keys, Unread(stack), |stack|
      {
        TopFacts(View(), setup.rules, Elements(roots));
        if !stack[|stack| - 1].entered {
          violation := EnterTop();
          if violation.Some? {
            return;
          }
          TopFacts(View(), setup.rules, Elements(roots));
        }
        violation := LeaveOrFollow(universe);
        if violation.Some? {
          return;
        }
      }
      violation := None;
    }

    method AskRoot(selectedRoot: string) returns (answer: Result<string, LoadError>)
      requires Valid()
      modifies recorder
      ensures Valid() && recorder.flows == old(recorder.flows) && Extends(old(recorder.canonical), recorder.canonical)
      ensures selectedRoot in recorder.canonical && recorder.canonical[selectedRoot] == answer
    {
      hide Inv, FlowsClear, FlowsRecorded, Recorder.Valid;
      answer := recorder.Canonical(selectedRoot);
    }

    /** Makes a white root the only frame of the stack. */
    method OpenRoot(root: string)
      requires Valid() && stack == [] && root !in colors
      modifies this
      ensures Valid() && roots == old(roots) + [root] && colors == old(colors)
      ensures |stack| == 1 && stack[0].path == root
    {
      hide Inv, FlowsClear, FlowsRecorded, Recorder.Valid, HopsRecorded;
      assert Elements(roots + [root]) == Elements(roots) + {root};
      StartRoot(View(), setup.rules, Elements(roots), root);
      roots := roots + [root];
      stack := [Frame(root, None, false, [], 0)];
    }

    /** A root that is already black needs no search. */
    method SkipRoot(root: string)
      requires Valid() && stack == []
      modifies this
      ensures Valid() && roots == old(roots) + [root] && colors == old(colors) && stack == []
    {
      hide Inv, FlowsClear, FlowsRecorded, Recorder.Valid, HopsRecorded;
      assert Elements(roots + [root]) == Elements(roots) + {root};
      KnownRoot(View(), setup.rules, Elements(roots), root);
      roots := roots + [root];
    }

    /** Resolves the next selected root and searches below it unless it is already black. */
    method VisitRoot(selected: seq<string>, ghost universe: set<string>) returns (violation: Option<Violation>)
      requires Valid() && stack == [] && Confined(recorder.base, universe)
      requires |roots| < |selected| && RootsRecorded(selected, recorder.canonical, roots)
      requires Elements(roots) <= colors.Keys
      modifies this, recorder
      ensures violation.None? ==>
                && Valid() && stack == [] && |roots| == old(|roots|) + 1
                && RootsRecorded(selected, recorder.canonical, roots) && Elements(roots) <= colors.Keys
      ensures recorder.Valid()
      ensures violation.Some? ==>
                && Justified(setup, selected, roots, recorder.canonical, recorder.flows, hops, Trail(stack),
                             violation.value)
                && ShowsProgress(setup.rules, nodes, edges, hops, Trail(stack), violation.value)
    {
      hide Inv, FlowsClear, FlowsRecorded, HopsRecorded, FlowRefused, LinkRefused, Recorder.Valid, Confined;
      hide PathViolation, HopsGenuine, ShowsProgress;
      var selectedRoot := selected[|roots|];
      var answer := AskRoot(selectedRoot);
      if answer.Failure? {
        GenuineHops(View(), setup.rules, Elements(roots), recorder.canonical, recorder.flows);
        violation := Some(PathViolation(selectedRoot, None, answer.error, []));
        ProgressIsShown(View(), setup.rules, Elements(roots), Trail(stack), violation.value);
        return;
      }
      AnswersConfined(recorder, selectedRoot, universe);
      NothingGray(View(), setup.rules, Elements(roots));
      if Find(colors, answer.value) == Some(Black) {
        SkipRoot(answer.value);
        return None;
      }
      OpenRoot(answer.value);
      violation := Explore(universe);
    }
  }

  /** Between roots nothing is gray. */
  lemma NothingGray(s: Search, rules: PathRules, roots: set<string>)
    requires Inv(s, rules, roots) && s.stack == []
    ensures forall p :: p in s.colors ==> s.colors[p] == Black
  {
  }

  /** A pushed flow is one the loader has named. */
  lemma TopConfined(s: Search, rules: PathRules, roots: set<string>, recorder: Recorder, universe: set<string>)
    requires Inv(s, rules, roots) && |s.stack| >= 2 && HopsRecorded(rules, recorder.canonical, s.hops)
    requires recorder.Valid() && Confined(recorder.base, universe)
    ensures Top(s).path in universe
  {
    hide FrameOk, FinishOk, LinksFollowed, EdgesAgree, Discovered, EdgeOf, Recorder.Valid, Confined;
    assert FrameLinked(s, rules, |s.stack| - 1);
    var below := s.stack[|s.stack| - 2].path;
    var hop := s.hops[below][|s.hops[below]| - 1];
    AnswersConfined(recorder, LinkTarget(rules, below, hop.link), universe);
  }

  lemma AnswersConfined(recorder: Recorder, path: string, universe: set<string>)
    requires recorder.Valid() && Confined(recorder.base, universe) && path in recorder.canonical
    ensures recorder.canonical[path].Success? ==> recorder.canonical[path].value in universe
  {
  }

  ghost predicate Extends(before: CanonicalTable, after: CanonicalTable) {
    forall path :: path in before ==> path in after && after[path] == before[path]
  }

  ghost function NextHop(s: Search, target: string): Hop
    requires CanFollow(s)
  {
    Hop(Top(s).links[Top(s).nextLink], target)
  }

  ghost function NextTarget(rules: PathRules, s: Search): string
    requires CanFollow(s)
  {
    LinkTarget(rules, Top(s).path, Top(s).links[Top(s).nextLink])
  }

  ghost function NextStep(s: Search, rules: PathRules, target: string): Search
    requires CanFollow(s)
  {
    if NextHop(s, target).link.kind.FlowLink? && target !in s.colors then FollowDown(s, rules, target)
    else Follow(s, rules, target)
  }

  lemma GrayIsOnTrail(s: Search, rules: PathRules, roots: set<string>, target: string)
    requires Inv(s, rules, roots) && CanFollow(s)
    ensures Find(s.colors, target) == Some(Gray) <==> target in Trail(s.stack)
  {
    hide FrameLinked, FinishOk, LinksFollowed, EdgesAgree, Discovered, FlowLinks;
    forall i | 0 <= i < |s.stack| ensures Find(s.colors, s.stack[i].path) == Some(Gray) {
      assert FrameOk(s, i);
    }
    if Find(s.colors, target) == Some(Gray) {
      var i :| 0 <= i < |s.stack| && s.stack[i].path == target;
      assert Trail(s.stack)[i] == target;
    }
  }

  lemma NextStepKeeps(s: Search, rules: PathRules, roots: set<string>, target: string)
    requires Inv(s, rules, roots) && CanFollow(s)
    requires LinkProblem(rules, Top(s).path, NextHop(s, target).link, Success(target), Trail(s.stack), []).None?
    ensures Inv(NextStep(s, rules, target), rules, roots) && Advanced(s, NextStep(s, rules, target))
  {
    hide Inv;
    GrayIsOnTrail(s, rules, roots, target);
    var t := Follow(s, rules, target);
    var n := |s.stack| - 1;
    assert t.stack[..n] == s.stack[..n];
    assert Unread(t.stack) < Unread(s.stack);
    if NextHop(s, target).link.kind.FlowLink? && target !in s.colors {
      DescendKeeps(s, rules, roots, target);
      var u := FollowDown(s, rules, target);
      assert u.stack[..n + 1] == t.stack;
      assert Unread(u.stack) == Unread(t.stack);
    } else {
      FollowKeeps(s, rules, roots, target);
    }
  }

  lemma NextStepRecorded(s: Search, rules: PathRules, canonical: CanonicalTable, target: string)
    requires CanFollow(s) && HopsRecorded(rules, canonical, s.hops)
    requires HopRecorded(rules, canonical, Top(s).path, NextHop(s, target))
    ensures HopsRecorded(rules, canonical, NextStep(s, rules, target).hops)
  {
    hide HopRecorded;
  }

  /** The step from `before` to `after` consumed a link and painted nothing. */
  ghost predicate Advanced(before: Search, after: Search) {
    && before.stack != [] && after.stack != []
    && (Top(after).entered || |after.stack| >= 2)
    && after.colors == before.colors
    && Unread(after.stack) < Unread(before.stack)
  }

  /** The step from `before` to `after` left the top flow behind. */
  ghost predicate Left(before: Search, after: Search) {
    && before.stack != [] && |after.stack| == |before.stack| - 1
    && (after.stack != [] ==> Top(after).entered)
    && after.colors.Keys == before.colors.Keys && Top(before).path in after.colors
    && Unread(after.stack) <= Unread(before.stack)
  }

  lemma RetireLeaves(s: Search, rules: PathRules, roots: set<string>)
    requires Inv(s, rules, roots) && CanRetire(s)
    ensures Left(s, Retire(s))
  {
    hide FrameLinked, FinishOk, LinksFollowed, EdgesAgree, Discovered, FlowLinks;
    assert FrameOk(s, |s.stack| - 1);
    if |s.stack| > 1 {
      assert FrameOk(s, |s.stack| - 2);
    }
  }

  lemma GenuineHops(s: Search, rules: PathRules, roots: set<string>, canonical: CanonicalTable, flows: FlowTable)
    requires Inv(s, rules, roots) && HopsRecorded(rules, canonical, s.hops) && FlowsRecorded(flows, s.loaded)
    ensures HopsGenuine(rules, canonical, flows, s.hops)
  {
    hide StackOk, FinishOk, EdgesAgree, Discovered, HopRecorded;
  }

  lemma RefuseLink(s: Search, rules: PathRules, roots: set<string>, canonical: CanonicalTable, flows: FlowTable,
                   v: Violation)
    requires Inv(s, rules, roots) && CanFollow(s) && FlowsRecorded(flows, s.loaded)
    requires NextTarget(rules, s) in canonical
    requires v.chain == Chain(s.stack) + [CallSite(rules, Top(s).path, Top(s).links[Top(s).nextLink],
                                                   canonical[NextTarget(rules, s)])]
    requires LinkProblem(rules, Top(s).path, Top(s).links[Top(s).nextLink], canonical[NextTarget(rules, s)],
                         Trail(s.stack), v.chain) == Some(v)
    ensures LinkRefused(rules, canonical, flows, s.hops, Trail(s.stack), Top(s).nextLink, v)
    ensures Distinct(Trail(s.stack))
    ensures ShowsProgress(rules, s.nodes, s.edges + [v.chain[|v.chain| - 1]], s.hops, Trail(s.stack), v)
  {
    hide Inv, ChainAlong, LinkProblem, CallSite, ShowsProgress;
    TopFacts(s, rules, roots);
    assert ChainAlong(rules, s.hops, Trail(s.stack), Chain(s.stack));
    assert v.chain[..|v.chain| - 1] == Chain(s.stack);
    ChainLength(rules, s.hops, Trail(s.stack), Chain(s.stack));
    RefusedLinkIsShown(s, rules, roots, Trail(s.stack), v.chain[|v.chain| - 1], v);
  }

  lemma ChainLength(rules: PathRules, hops: Hops, trail: seq<string>, chain: seq<GraphEdge>)
    requires ChainAlong(rules, hops, trail, chain)
    ensures |chain| + 1 == |trail|
  {
  }

  lemma ClearFlow(setup: Setup, flow: Flow)
    requires flow.schemaVersion == AST_VERSION_V0
    requires FlowViolation(flow, setup.catalog, setup.tables, setup.platform).None?
    ensures Clear(setup, flow)
  {
  }

  /** The step from `before` to `after` entered the top frame. */
  ghost predicate Entered(before: Search, after: Search) {
    && before.stack != [] && |after.stack| == |before.stack|
    && after.colors.Keys == before.colors.Keys + {Top(before).path}
    && Top(after).entered
  }

  /** What the search methods need to know about the frame on top. */
  lemma TopFacts(s: Search, rules: PathRules, roots: set<string>)
    requires Inv(s, rules, roots) && s.stack != []
    ensures ChainAlong(rules, s.hops, Trail(s.stack), Chain(s.stack)) && Distinct(Trail(s.stack))
    ensures FrameOk(s, |s.stack| - 1)
    ensures Top(s).path !in s.colors ==> Top(s).path !in s.loaded
    ensures Top(s).entered <==> Top(s).path in s.colors
    ensures Top(s).entered ==> Top(s).path in s.hops
  {
    StackChain(s, rules);
    assert FrameOk(s, |s.stack| - 1);
  }

  // ---------------------------------------------------------------------------
  // The whole check
  // ---------------------------------------------------------------------------

  /** With no frame left, every listed flow is black, and the finish order proves the graph acyclic. */
  lemma AllBlack(s: Search, rules: PathRules, roots: set<string>)
    requires Inv(s, rules, roots) && s.stack == []
    ensures ChildrenFirst(Successors(s.hops), s.finish)
    ensures forall p :: p in s.hops ==> p in s.loaded && |s.hops[p]| == |FlowLinks(s.loaded[p])|
  {
    assert Elements(s.finish) == s.hops.Keys;
    forall parent, child | Edge(Successors(s.hops), parent, child) ensures Precedes(s.finish, child, parent) {
      var k :| 0 <= k < |s.hops[parent]| && s.hops[parent][k].link.kind.FlowLink? && s.hops[parent][k].target == child;
      assert HopSettled(s, parent, k);
    }
  }

  lemma {:induction false} ListedIsReachable(s: Search, roots: set<string>, i: nat)
    requires Discovered(s, roots) && i < |s.nodes|
    ensures Reachable(Successors(s.hops), roots, s.nodes[i])
  {
    assert DiscoveredAt(roots, s.nodes, s.hops, i);
    if s.nodes[i] in roots {
      RootReachable(Successors(s.hops), roots, s.nodes[i]);
    } else {
      var j :| 0 <= j < i && FlowHop(s.hops, s.nodes[j], s.nodes[i]);
      ListedIsReachable(s, roots, j);
      SuccessorEdge(s.hops, s.nodes[j], s.nodes[i]);
      ReachableStep(Successors(s.hops), roots, s.nodes[j], s.nodes[i]);
    }
  }

  lemma FinishedNodeAccepted(s: Search, setup: Setup, roots: set<string>, canonical: CanonicalTable, flows: FlowTable,
                             p: string)
    requires Inv(s, setup.rules, roots) && s.stack == []
    requires HopsRecorded(setup.rules, canonical, s.hops) && FlowsRecorded(flows, s.loaded)
    requires FlowsClear(setup, s.loaded)
    requires p in s.hops
    ensures NodeAccepted(setup, canonical, flows, s.edges, s.hops, p)
  {
    hide Clear, HopRecorded, ResourceHopOk, FinishOk, StackOk;
    AllBlack(s, setup.rules, roots);
  }

  lemma FinishedIsAccepted(s: Search, setup: Setup, selected: seq<string>, report: Report,
                           canonical: CanonicalTable, flows: FlowTable)
    requires Inv(s, setup.rules, Elements(report.roots)) && s.stack == []
    requires HopsRecorded(setup.rules, canonical, s.hops) && FlowsRecorded(flows, s.loaded)
    requires FlowsClear(setup, s.loaded)
    requires selected != [] && |report.roots| == |selected| && RootsRecorded(selected, canonical, report.roots)
    requires report.nodes == s.nodes && report.edges == s.edges
    requires Elements(report.roots) <= s.colors.Keys
    ensures Accepted(setup, selected, canonical, flows, report, s.hops, s.finish)
  {
    hide HopRecorded, NodeAccepted, FinishOk, StackOk, ChildrenFirst, LinksFollowed, Discovered, Reachable;
    AllBlack(s, setup.rules, Elements(report.roots));
    forall p | p in s.hops ensures NodeAccepted(setup, canonical, flows, s.edges, s.hops, p) {
      FinishedNodeAccepted(s, setup, Elements(report.roots), canonical, flows, p);
    }
    forall p | p in s.hops ensures Reachable(Successors(s.hops), Elements(report.roots), p) {
      assert p in s.nodes;
      var i :| 0 <= i < |s.nodes| && s.nodes[i] == p;
      ListedIsReachable(s, Elements(report.roots), i);
    }
  }

  /** The registry and platform an accepted plan was checked against. */
  ghost predicate SetupOk(setup: Setup) {
    ValidCatalog(setup.catalog, setup.required)
    && (setup.platform.Some? ==> !setup.platform.value.UnknownSelection?)
  }

  /** Validates the setup and searches the flows below every selected root, in order. */
  method Check(setup: Setup, recorder: Recorder, selected: seq<string>, ghost universe: set<string>)
    returns (report: Report, error: Option<CheckError>, ghost hops: Hops, ghost finish: seq<string>,
             ghost trail: seq<string>)
    requires recorder.Valid() && Confined(recorder.base, universe)
    modifies recorder
    ensures recorder.Valid()
    ensures error.None? ==>
              SetupOk(setup) && Accepted(setup, selected, recorder.canonical, recorder.flows, report, hops, finish)
    ensures error.Some? && error.value.Rejected? ==>
              && selected != [] && SetupOk(setup)
              && Justified(setup, selected, report.roots, recorder.canonical, recorder.flows, hops, trail,
                           error.value.violation)
              && ShowsProgress(setup.rules, report.nodes, report.edges, hops, trail, error.value.violation)
    ensures error.Some? && error.value.NoSelectedRoots? ==> selected == []
    ensures error.Some? && error.value.InvalidRegistry? ==> !ValidCatalog(setup.catalog, setup.required)
    ensures error.Some? && error.value.UnknownSelectedPlatform? ==>
              setup.platform.Some? && setup.platform.value.UnknownSelection?
    ensures selected == [] ==> error == Some(NoSelectedRoots)
    ensures selected != [] ==> (SetupOk(setup) <==> error.None? || error.value.Rejected?)
  {
    hide Inv, Accepted, ValidCatalog, HopsGenuine, LinkRefused, FlowRefused, Recorder.Valid, Confined, HopsRecorded;
    hide FlowsRecorded, FlowsClear, ShowsProgress;
    report, hops, finish, trail := Report([], [], []), map[], [], [];
    if |selected| == 0 {
      error := Some(NoSelectedRoots);
      return;
    }
    var invalid := Validate(setup.catalog, setup.required);
    if invalid.Some? {
      error := Some(InvalidRegistry(invalid.value));
      return;
    }
    if setup.platform.Some? && setup.platform.value.UnknownSelection? {
      error := Some(UnknownSelectedPlatform);
      return;
    }
    var checker := new Checker(setup, recorder);
    for i := 0 to |selected|
      invariant fresh(checker) && checker.recorder == recorder && checker.setup == setup
      invariant checker.Valid() && checker.stack == [] && |checker.roots| == i
      invariant RootsRecorded(selected, recorder.canonical, checker.roots)
      invariant Elements(checker.roots) <= checker.colors.Keys
    {
      var violation := checker.VisitRoot(selected, universe);
      if violation.Some? {
        report := Report(checker.roots, checker.nodes, checker.edges);
        hops, finish := checker.hops, checker.finish;
        trail := Trail(checker.stack);
        error := Some(Rejected(violation.value));
        return;
      }
    }
    report := Report(checker.roots, checker.nodes, checker.edges);
    hops, finish := checker.hops, checker.finish;
    error := None;
    FinishedIsAccepted(checker.View(), setup, selected, report, recorder.canonical, recorder.flows);
  }
}
