/** Compiling a prepared program: every flow after the flows it links, every link resolved from
    recorded aliases. After an accepted preflight the compiler's "cannot happen" errors cannot happen. */
module Compiler {
  import opened Wrappers
  import opened Sequences
  import opened FlowModel
  import opened Inspection
  import opened FlowGraphs
  import opened RecordingLoader
  import opened DepthFirst
  import opened Preflight
  import opened PreflightTheorems
  import opened Programs
  import opened Compilation

  /** What the handler of a command asks of the compiler. */
  datatype HandlerPlan = Refuse(reason: string) | Standalone | LinksAFlow

  datatype Dispatch = Dispatch(command: Command, linked: Option<CompiledFlow>, children: seq<Dispatch>)

  datatype CompiledFlow = CompiledFlow(
    path: string,
    config: Config,
    onStart: seq<Dispatch>,
    body: seq<Dispatch>,
    onComplete: seq<Dispatch>)

  type CompiledFlows = map<string, CompiledFlow>

  datatype CompileError =
    | OrderFailed(order: OrderError)
    | HandlerRefused(reason: string)
    | Unresolved(resolution: ResolveError)
    | AbsentFromGraph
    | NotCompiledBeforeParent
    | FlowMissing
    | RootMissing

  /** Everything the compiler of one flow can see. */
  datatype Env = Env(
    rules: PathRules,
    program: Program,
    children: Graph,
    handlers: Command -> HandlerPlan)

  function RequireFlow(env: Env, compiled: CompiledFlows, path: string,
                       link: FileLink): Result<CompiledFlow, CompileError> {
    match LinkResolution(env.rules, env.program, path, link)
    case Failure(error) => Failure(Unresolved(error))
    case Success(canonical) =>
      if path !in env.children || canonical !in env.children[path] then Failure(AbsentFromGraph)
      else if canonical !in compiled then Failure(NotCompiledBeforeParent)
      else Success(compiled[canonical])
  }

  /** A handler that links a flow takes the command's only link, which must be a flow link with a path. */
  function CompileLink(env: Env, compiled: CompiledFlows, path: string,
                       command: Command): Result<Option<CompiledFlow>, CompileError> {
    match env.handlers(command)
    case Refuse(reason) => Failure(HandlerRefused(reason))
    case Standalone => Success(None)
    case LinksAFlow =>
      if |command.links| != 1 then Failure(HandlerRefused("exactly one flow link"))
      else if !command.links[0].kind.FlowLink? || Blank(command.links[0].path)
          then Failure(HandlerRefused("not a flow link"))
      else match RequireFlow(env, compiled, path, command.links[0])
        case Failure(error) => Failure(error)
        case Success(flow) => Success(Some(flow))
  }

  /** Compiles a command list in order, each command before its children. */
  function CompileSequence(env: Env, compiled: CompiledFlows, path: string,
                           commands: seq<Command>): Result<seq<Dispatch>, CompileError>
    decreases commands
  {
    if commands == [] then Success([])
    else
      match CompileLink(env, compiled, path, commands[0])
      case Failure(error) => Failure(error)
      case Success(linked) =>
        match CompileSequence(env, compiled, path, commands[0].children)
        case Failure(error) => Failure(error)
        case Success(children) =>
          match CompileSequence(env, compiled, path, commands[1..])
          case Failure(error) => Failure(error)
          case Success(rest) => Success([Dispatch(commands[0], linked, children)] + rest)
  }

  function CompileFlow(env: Env, compiled: CompiledFlows, path: string,
                       flow: Flow): Result<CompiledFlow, CompileError> {
    match CompileSequence(env, compiled, path, flow.config.onFlowStart)
    case Failure(error) => Failure(error)
    case Success(onStart) =>
      match CompileSequence(env, compiled, path, flow.commands)
      case Failure(error) => Failure(error)
      case Success(body) =>
        match CompileSequence(env, compiled, path, flow.config.onFlowComplete)
        case Failure(error) => Failure(error)
        case Success(onComplete) => Success(CompiledFlow(path, flow.config, onStart, body, onComplete))
  }

  /** The flows compiled after the first n of the order, or the first error. */
  function CompiledUpTo(env: Env, order: seq<string>, n: nat): Result<CompiledFlows, CompileError>
    requires n <= |order|
  {
    if n == 0 then Success(map[])
    else
      match CompiledUpTo(env, order, n - 1)
      case Failure(error) => Failure(error)
      case Success(compiled) =>
        match Find(env.program.flows, order[n - 1])
        case None => Failure(FlowMissing)
        case Some(flow) =>
          match CompileFlow(env, compiled, order[n - 1], flow)
          case Failure(error) => Failure(error)
          case Success(result) => Success(compiled[order[n - 1] := result])
  }

  lemma {:induction false} EarlierFailureStands(env: Env, order: seq<string>, n: nat, m: nat)
    requires n <= m <= |order| && CompiledUpTo(env, order, n).Failure?
    ensures CompiledUpTo(env, order, m) == Failure(CompiledUpTo(env, order, n).error)
  {
    if n < m {
      EarlierFailureStands(env, order, n, m - 1);
    }
  }

  /** Compiles all flows of a program, children before parents, and checks that the roots are among them. */
  method CompileProgram(rules: PathRules, program: Program, handlers: Command -> HandlerPlan)
    returns (result: Result<CompiledFlows, CompileError>, ghost order: seq<string>)
    ensures WellFormed(program) && Acyclic(ReportGraph(program.graph)) ==>
              && ChildrenFirst(ReportGraph(program.graph), order)
              && var compiled := CompiledUpTo(Env(rules, program, ReportGraph(program.graph), handlers), order,
                                              |order|);
                 result == if compiled.Success? && !(Elements(program.roots) <= compiled.value.Keys)
                           then Failure(RootMissing) else compiled
    ensures !(WellFormed(program) && Acyclic(ReportGraph(program.graph))) ==>
              result.Failure? && result.error.OrderFailed?
  {
    hide WellFormed, Acyclic, ChildrenFirst, ReportGraph, CompileFlow;
    var error, flowOrder, children := PreparedFlowOrder(program);
    order := flowOrder;
    if error.Some? {
      return Failure(OrderFailed(error.value)), order;
    }
    var env := Env(rules, program, children, handlers);
    var compiled: CompiledFlows := map[];
    for i := 0 to |flowOrder|
      invariant CompiledUpTo(env, flowOrder, i) == Success(compiled)
    {
      var path := flowOrder[i];
      var flow := Find(program.flows, path);
      if flow.None? {
        EarlierFailureStands(env, flowOrder, i + 1, |flowOrder|);
        return Failure(FlowMissing), order;
      }
      var one := CompileFlow(env, compiled, path, flow.value);
      if one.Failure? {
        EarlierFailureStands(env, flowOrder, i + 1, |flowOrder|);
        return Failure(one.error), order;
      }
      compiled := compiled[path := one.value];
    }
    for i := 0 to |program.roots|
      invariant Elements(program.roots[..i]) <= compiled.Keys
    {
      if program.roots[i] !in compiled {
        assert program.roots[i] in Elements(program.roots);
        return Failure(RootMissing), order;
      }
      assert program.roots[..i + 1] == program.roots[..i] + [program.roots[i]];
    }
    assert program.roots[..|program.roots|] == program.roots;
    result := Success(compiled);
  }

  // ---------------------------------------------------------------------------
  // Unreachable errors
  // ---------------------------------------------------------------------------

  /** A prepared program, the record of the preflight that accepted it, and the handlers to compile it with. */
  datatype Preparation = Preparation(
    setup: Setup,
    selected: seq<string>,
    canonical: CanonicalTable,
    flows: FlowTable,
    program: Program,
    hops: Hops,
    finish: seq<string>,
    handlers: Command -> HandlerPlan)

  ghost predicate Genuine(p: Preparation) {
    && Prepared(p.setup, p.selected, p.canonical, p.flows, p.program, p.hops, p.finish)
    && NoBlankPaths(p.program)
  }

  /** Every flow link of the program satisfies the condition under which resolution is faithful. */
  ghost predicate LinksFaithful(rules: PathRules, program: Program) {
    forall path, link :: path in program.flows && link in FlowLinks(program.flows[path]) && link.kind.FlowLink? ==>
        FaithfulLink(rules, path, link)
  }

  ghost predicate LinksNamed(rules: PathRules, program: Program) {
    forall path, link :: path in program.flows && link in FlowLinks(program.flows[path]) && link.kind.FlowLink?
      ==> NamesAgree(rules, path, link)
  }

  /** A prepared program is well formed and acyclic, unless some path is blank. */
  lemma {:induction false} PreparedIsWellFormed(p: Preparation)
    requires Prepared(p.setup, p.selected, p.canonical, p.flows, p.program, p.hops, p.finish)
    ensures WellFormed(p.program) && Acyclic(ReportGraph(p.program.graph)) <==> NoBlankPaths(p.program)
    ensures NoBlankPaths(p.program) ==> ReportGraph(p.program.graph) == Successors(p.hops)
  {
    hide Reachable, NodeAccepted, ChildrenFirst, ReportGraph, Blank;
    var report := p.program.graph;
    if NoBlankPaths(p.program) {
      if "" in report.nodes {
        NodeNotBlank(p.program, "");
      }
      assert "" !in report.nodes;
      AcceptedIsAcyclic(p.setup, p.selected, p.canonical, p.flows, report, p.hops, p.finish);
      ReportGraphIsSuccessors(p.setup, p.selected, p.canonical, p.flows, report, p.hops, p.finish);
      assert report.roots[0] in Elements(report.roots);
      assert report.nodes != [] by {
        assert report.roots[0] in Elements(report.nodes);
      }
      FollowedEdgesInside(p);
    }
  }

  lemma {:induction false} FollowedEdgesInside(p: Preparation)
    requires Genuine(p) && ReportGraph(p.program.graph) == Successors(p.hops)
    ensures EdgesInside(p.program.graph)
  {
    hide Reachable, NodeAccepted, ChildrenFirst, Successors, NoBlankPaths, RootsRecorded;
    var report := p.program.graph;
    OrderedIsClosed(Successors(p.hops), p.finish);
    SuccessorNodes(p.hops);
    forall i | 0 <= i < |report.edges| && report.edges[i].kind.FlowLink?
      ensures report.edges[i].from in report.nodes && report.edges[i].to in report.nodes
    {
      var edge := report.edges[i];
      assert edge.from in Elements(report.nodes);
      assert Edge(ReportGraph(report), edge.from, edge.to);
      assert edge.to in Elements(report.nodes);
    }
  }

  /** All children of the flow are compiled already. */
  ghost predicate ChildrenReady(children: Graph, compiled: CompiledFlows, path: string) {
    path in children && children[path] <= compiled.Keys
  }

  /** The harmless ways for compilation to fail. */
  predicate OrdinaryError(error: CompileError) {
    error.HandlerRefused? || error.Unresolved?
  }

  /** `flow` is the compiled form of the flow that preflight followed hop k of `path` to. */
  ghost predicate CompiledHop(p: Preparation, compiled: CompiledFlows, path: string, k: nat, link: FileLink,
                              flow: CompiledFlow) {
    && path in p.hops && k < |p.hops[path]| && p.hops[path][k].link == link
    && p.hops[path][k].target in compiled && flow == compiled[p.hops[path][k].target]
  }

  /** A command whose handler links a flow carries the compiled form of the very flow that preflight
      followed its only link to; any other command carries none. */
  ghost predicate DispatchLinked(p: Preparation, compiled: CompiledFlows, path: string, d: Dispatch) {
    && (d.linked.Some? <==> p.handlers(d.command).LinksAFlow?)
    && (d.linked.Some? ==>
          |d.command.links| == 1 && exists k :: CompiledHop(p, compiled, path, k, d.command.links[0], d.linked.value))
    && |d.children| == |d.command.children|
    && (forall i :: 0 <= i < |d.children| ==>
          d.children[i].command == d.command.children[i] && DispatchLinked(p, compiled, path, d.children[i]))
  }

  ghost predicate SequenceLinked(p: Preparation, compiled: CompiledFlows, path: string, commands: seq<Command>,
                                 ds: seq<Dispatch>) {
    |ds| == |commands| && forall i :: 0 <= i < |ds| ==>
        ds[i].command == commands[i] && DispatchLinked(p, compiled, path, ds[i])
  }

  /** RequireFlow yields the compiled target that preflight recorded; its two invariant errors do not arise. */
  lemma {:induction false} RequiredFlowIsReady(p: Preparation, env: Env, compiled: CompiledFlows, path: string,
                                               link: FileLink)
    requires Genuine(p) && LinksFaithful(p.setup.rules, p.program)
    requires env.program == p.program && env.rules == p.setup.rules && env.children == Successors(p.hops)
    requires path in p.program.flows && link in FlowLinks(p.program.flows[path]) && link.kind.FlowLink?
    requires ChildrenReady(env.children, compiled, path)
    ensures var r := RequireFlow(env, compiled, path, link);
            && (r.Failure? ==> r.error.Unresolved? && !NamesAgree(p.setup.rules, path, link))
            && (r.Success? ==> exists k :: CompiledHop(p, compiled, path, k, link, r.value))
  {
    hide Prepared, FlowLinks, LinkResolution, NoBlankPaths, NamesAgree, FaithfulLink, Successors;
    var k :| 0 <= k < |FlowLinks(p.program.flows[path])| && FlowLinks(p.program.flows[path])[k] == link;
    ResolutionAgreesWithPreflight(p.setup, p.selected, p.canonical, p.flows, p.program, p.hops, p.finish, path, k);
    if NamesAgree(p.setup.rules, path, link) {
      ParsedLinksAlwaysResolve(p.setup, p.selected, p.canonical, p.flows, p.program, p.hops, p.finish, path, k);
    }
    assert FlowHop(p.hops, path, p.hops[path][k].target);
    SuccessorEdge(p.hops, path, p.hops[path][k].target);
    assert p.hops[path][k].target in env.children[path];
    assert CompiledHop(p, compiled, path, k, link, compiled[p.hops[path][k].target]);
  }

  /** The compiler works on the program of the preparation, in its recorded graph, with its handlers. */
  ghost predicate EnvOf(p: Preparation, env: Env) {
    && env.program == p.program && env.rules == p.setup.rules && env.children == Successors(p.hops)
    && env.handlers == p.handlers
  }

  ghost predicate LinksWithin(p: Preparation, path: string, commands: seq<Command>) {
    path in p.program.flows && forall link :: link in LinksOf(commands) ==> link in FlowLinks(p.program.flows[path])
  }

  /** An error that an accepted preflight leaves possible. */
  ghost predicate PossibleError(p: Preparation, error: CompileError) {
    OrdinaryError(error) && (LinksNamed(p.setup.rules, p.program) ==> error.HandlerRefused?)
  }

  lemma {:induction false} CompiledLinkIsRecorded(p: Preparation, env: Env, compiled: CompiledFlows, path: string,
                                                  commands: seq<Command>)
    requires Genuine(p) && LinksFaithful(p.setup.rules, p.program) && EnvOf(p, env)
    requires ChildrenReady(env.children, compiled, path) && LinksWithin(p, path, commands) && commands != []
    ensures var r := CompileLink(env, compiled, path, commands[0]);
            && (r.Failure? ==> PossibleError(p, r.error))
            && (r.Success? ==> (r.value.Some? <==> p.handlers(commands[0]).LinksAFlow?))
            && (r.Success? && r.value.Some? ==>
                  |commands[0].links| == 1 && exists k :: CompiledHop(p, compiled, path, k, commands[0].links[0],
                                                                      r.value.value))
  {
    hide Genuine, FlowLinks, RequireFlow, LinksFaithful, ChildrenReady, NamesAgree, CompiledHop, Blank;
    var command := commands[0];
    if |command.links| == 1 && command.links[0].kind.FlowLink? {
      assert command.links[0] in LinksOf(commands);
      RequiredFlowIsReady(p, env, compiled, path, command.links[0]);
    }
  }

  lemma LinksOfParts(p: Preparation, path: string, commands: seq<Command>)
    requires LinksWithin(p, path, commands) && commands != []
    ensures LinksWithin(p, path, commands[0].children) && LinksWithin(p, path, commands[1..])
  {
    hide FlowLinks;
  }

  lemma {:induction false} CompiledSequenceIsLinked(p: Preparation, env: Env, compiled: CompiledFlows, path: string,
                                                    commands: seq<Command>)
    requires Genuine(p) && LinksFaithful(p.setup.rules, p.program) && EnvOf(p, env)
    requires ChildrenReady(env.children, compiled, path) && LinksWithin(p, path, commands)
    ensures var r := CompileSequence(env, compiled, path, commands);
            && (r.Failure? ==> PossibleError(p, r.error))
            && (r.Success? ==> SequenceLinked(p, compiled, path, commands, r.value))
    decreases commands
  {
    hide Genuine, LinksFaithful, ChildrenReady, CompileLink, LinksWithin, EnvOf, PossibleError, CompiledHop;
    hide SequenceLinked, HeadLinked;
    if commands == [] {
      NothingLinked(p, compiled, path);
    } else {
      HeadIsLinked(p, env, compiled, path, commands);
      LinksOfParts(p, path, commands);
      CompiledSequenceIsLinked(p, env, compiled, path, commands[0].children);
      CompiledSequenceIsLinked(p, env, compiled, path, commands[1..]);
      var head := CompileLink(env, compiled, path, commands[0]);
      var children := CompileSequence(env, compiled, path, commands[0].children);
      var rest := CompileSequence(env, compiled, path, commands[1..]);
      if head.Success? && children.Success? && rest.Success? {
        MoreLinked(p, compiled, path, commands, head.value, children.value, rest.value);
      }
    }
  }

  /** The linked flow of a command is the one preflight followed its only link to, if its handler links one. */
  ghost predicate HeadLinked(p: Preparation, compiled: CompiledFlows, path: string, command: Command,
                             linked: Option<CompiledFlow>) {
    && (linked.Some? <==> p.handlers(command).LinksAFlow?)
    && (linked.Some? ==>
          |command.links| == 1 && exists k :: CompiledHop(p, compiled, path, k, command.links[0], linked.value))
  }

  lemma HeadIsLinked(p: Preparation, env: Env, compiled: CompiledFlows, path: string, commands: seq<Command>)
    requires Genuine(p) && LinksFaithful(p.setup.rules, p.program) && EnvOf(p, env)
    requires ChildrenReady(env.children, compiled, path) && LinksWithin(p, path, commands) && commands != []
    ensures var r := CompileLink(env, compiled, path, commands[0]);
            && (r.Failure? ==> PossibleError(p, r.error))
            && (r.Success? ==> HeadLinked(p, compiled, path, commands[0], r.value))
  {
    hide Genuine, LinksFaithful, ChildrenReady, CompileLink, LinksWithin, EnvOf, PossibleError, CompiledHop;
    CompiledLinkIsRecorded(p, env, compiled, path, commands);
  }

  lemma NothingLinked(p: Preparation, compiled: CompiledFlows, path: string)
    ensures SequenceLinked(p, compiled, path, [], [])
  {
  }

  lemma MoreLinked(p: Preparation, compiled: CompiledFlows, path: string, commands: seq<Command>,
                   linked: Option<CompiledFlow>, children: seq<Dispatch>, rest: seq<Dispatch>)
    requires commands != [] && HeadLinked(p, compiled, path, commands[0], linked)
    requires SequenceLinked(p, compiled, path, commands[0].children, children)
    requires SequenceLinked(p, compiled, path, commands[1..], rest)
    ensures SequenceLinked(p, compiled, path, commands, [Dispatch(commands[0], linked, children)] + rest)
  {
    hide CompiledHop;
    var head := Dispatch(commands[0], linked, children);
    var all := [head] + rest;
    assert DispatchLinked(p, compiled, path, head);
    hide DispatchLinked;
    forall i | 0 <= i < |all| ensures all[i].command == commands[i] && DispatchLinked(p, compiled, path, all[i]) {
      if i > 0 {
        assert all[i] == rest[i - 1] && commands[i] == commands[1..][i - 1];
      }
    }
  }

  /** The three sequences of a compiled flow are its own commands, linked as recorded. */
  ghost predicate FlowLinked(p: Preparation, compiled: CompiledFlows, path: string, flow: CompiledFlow) {
    && path in p.program.flows && flow.path == path && flow.config == p.program.flows[path].config
    && SequenceLinked(p, compiled, path, p.program.flows[path].config.onFlowStart, flow.onStart)
    && SequenceLinked(p, compiled, path, p.program.flows[path].commands, flow.body)
    && SequenceLinked(p, compiled, path, p.program.flows[path].config.onFlowComplete, flow.onComplete)
  }

  lemma {:induction false} FlowSequencesWithin(p: Preparation, path: string)
    requires path in p.program.flows
    ensures LinksWithin(p, path, p.program.flows[path].config.onFlowStart)
    ensures LinksWithin(p, path, p.program.flows[path].commands)
    ensures LinksWithin(p, path, p.program.flows[path].config.onFlowComplete)
  {
    hide LinksOf;
    var flow := p.program.flows[path];
    LinksOfConcat(flow.config.onFlowStart, flow.commands);
    LinksOfConcat(flow.config.onFlowStart + flow.commands, flow.config.onFlowComplete);
  }

  lemma {:induction false} CompiledFlowIsLinked(p: Preparation, env: Env, compiled: CompiledFlows, path: string)
    requires Genuine(p) && LinksFaithful(p.setup.rules, p.program) && EnvOf(p, env)
    requires path in p.program.flows && ChildrenReady(env.children, compiled, path)
    ensures var r := CompileFlow(env, compiled, path, p.program.flows[path]);
            && (r.Failure? ==> PossibleError(p, r.error))
            && (r.Success? ==> FlowLinked(p, compiled, path, r.value))
  {
    hide Genuine, LinksFaithful, ChildrenReady, LinksWithin, EnvOf, PossibleError, SequenceLinked, CompileSequence;
    var flow := p.program.flows[path];
    FlowSequencesWithin(p, path);
    CompiledSequenceIsLinked(p, env, compiled, path, flow.config.onFlowStart);
    CompiledSequenceIsLinked(p, env, compiled, path, flow.commands);
    CompiledSequenceIsLinked(p, env, compiled, path, flow.config.onFlowComplete);
  }

  // Compiling a later flow does not disturb the links of earlier ones.

  ghost predicate Grows(before: CompiledFlows, after: CompiledFlows) {
    forall path :: path in before ==> path in after && after[path] == before[path]
  }

  lemma {:induction false} DispatchStaysLinked(p: Preparation, before: CompiledFlows, after: CompiledFlows,
                                               path: string, d: Dispatch)
    requires Grows(before, after) && DispatchLinked(p, before, path, d)
    ensures DispatchLinked(p, after, path, d)
  {
    if d.linked.Some? {
      var k :| CompiledHop(p, before, path, k, d.command.links[0], d.linked.value);
      assert CompiledHop(p, after, path, k, d.command.links[0], d.linked.value);
    }
    forall i | 0 <= i < |d.children| ensures DispatchLinked(p, after, path, d.children[i]) {
      DispatchStaysLinked(p, before, after, path, d.children[i]);
    }
  }

  lemma {:induction false} SequenceStaysLinked(p: Preparation, before: CompiledFlows, after: CompiledFlows,
                                               path: string,
                                               commands: seq<Command>, ds: seq<Dispatch>)
    requires Grows(before, after) && SequenceLinked(p, before, path, commands, ds)
    ensures SequenceLinked(p, after, path, commands, ds)
  {
    hide DispatchLinked;
    forall i | 0 <= i < |ds| ensures DispatchLinked(p, after, path, ds[i]) {
      DispatchStaysLinked(p, before, after, path, ds[i]);
    }
  }

  lemma FlowStaysLinked(p: Preparation, before: CompiledFlows, after: CompiledFlows, path: string, flow: CompiledFlow)
    requires Grows(before, after) && FlowLinked(p, before, path, flow)
    ensures FlowLinked(p, after, path, flow)
  {
    hide SequenceLinked, Grows;
    var source := p.program.flows[path];
    SequenceStaysLinked(p, before, after, path, source.config.onFlowStart, flow.onStart);
    SequenceStaysLinked(p, before, after, path, source.commands, flow.body);
    SequenceStaysLinked(p, before, after, path, source.config.onFlowComplete, flow.onComplete);
  }

  /** All compiled flows are linked to each other as preflight recorded. */
  ghost predicate ProgramLinked(p: Preparation, compiled: CompiledFlows) {
    forall path :: path in compiled ==> FlowLinked(p, compiled, path, compiled[path])
  }

  lemma NextFlowKeepsProgramLinked(p: Preparation, compiled: CompiledFlows, path: string, flow: CompiledFlow)
    requires ProgramLinked(p, compiled) && path !in compiled && FlowLinked(p, compiled, path, flow)
    ensures ProgramLinked(p, compiled[path := flow])
  {
    hide FlowLinked;
    var after := compiled[path := flow];
    assert Grows(compiled, after);
    forall q | q in after ensures FlowLinked(p, after, q, after[q]) {
      FlowStaysLinked(p, compiled, after, q, after[q]);
    }
  }

  lemma EarlierChildrenReady(g: Graph, order: seq<string>, n: nat)
    requires ChildrenFirst(g, order) && n < |order|
    ensures order[n] in g && g[order[n]] <= Elements(order[..n])
  {
    assert order[n] in Elements(order);
    forall child | child in g[order[n]] ensures child in Elements(order[..n]) {
      assert Edge(g, order[n], child);
      assert Precedes(order, child, order[n]);
      var i, j :| 0 <= i < j < |order| && order[i] == child && order[j] == order[n];
      assert order[..n][i] == child;
    }
  }

  /** Compiling in a children-first order, the first n flows are compiled and linked as recorded, or a
      handler refused, or a link whose two names disagree did not resolve. */
  lemma {:induction false} CompiledUpToIsLinked(p: Preparation, env: Env, order: seq<string>, n: nat)
    requires Genuine(p) && LinksFaithful(p.setup.rules, p.program) && EnvOf(p, env)
    requires ChildrenFirst(env.children, order) && n <= |order|
    ensures var r := CompiledUpTo(env, order, n);
            && (r.Failure? ==> PossibleError(p, r.error))
            && (r.Success? ==> r.value.Keys == Elements(order[..n]) && ProgramLinked(p, r.value))
  {
    hide Genuine, LinksFaithful, PossibleError, FlowLinked, CompileFlow, ChildrenFirst;
    if n > 0 {
      CompiledUpToIsLinked(p, env, order, n - 1);
      var earlier := CompiledUpTo(env, order, n - 1);
      if earlier.Success? {
        var path := order[n - 1];
        EarlierChildrenReady(env.children, order, n - 1);
        OrderedFlowIsPrepared(p, path);
        CompiledFlowIsLinked(p, env, earlier.value, path);
        FreshInOrder(env.children, order, n - 1);
        assert order[..n] == order[..n - 1] + [path];
        var r := CompileFlow(env, earlier.value, path, p.program.flows[path]);
        if r.Success? {
          NextFlowKeepsProgramLinked(p, earlier.value, path, r.value);
        }
      }
    }
  }

  lemma FreshInOrder(g: Graph, order: seq<string>, n: nat)
    requires ChildrenFirst(g, order) && n < |order|
    ensures order[n] !in Elements(order[..n])
  {
  }

  lemma OrderedFlowIsPrepared(p: Preparation, path: string)
    requires Genuine(p) && path in Successors(p.hops)
    ensures path in p.program.flows
  {
    hide NodeAccepted, ChildrenFirst, Reachable, RootsRecorded, NoBlankPaths;
  }

  lemma PreparedRoots(p: Preparation)
    requires Genuine(p)
    ensures Elements(p.program.roots) <= Successors(p.hops).Keys
  {
    hide NodeAccepted, ChildrenFirst, Reachable, RootsRecorded, NoBlankPaths;
  }

  // ---------------------------------------------------------------------------
  // When compilation succeeds
  // ---------------------------------------------------------------------------

  /** The command has one link, to a flow, by a path. */
  ghost predicate LinksOneFlow(command: Command) {
    |command.links| == 1 && command.links[0].kind.FlowLink? && !Blank(command.links[0].path)
  }

  /** The handler refuses the command, or wants one flow link that it does not have or that does not resolve. */
  ghost predicate Broken(p: Preparation, path: string, command: Command) {
    match p.handlers(command)
    case Refuse(_) => true
    case Standalone => false
    case LinksAFlow =>
      !LinksOneFlow(command) || LinkResolution(p.setup.rules, p.program, path, command.links[0]).Failure?
  }

  /** No command of the list is broken, at any depth. */
  ghost predicate Intact(p: Preparation, path: string, commands: seq<Command>) {
    forall place :: Addresses(commands, place) ==> !Broken(p, path, CommandAt(commands, place))
  }

  ghost predicate FlowIntact(p: Preparation, path: string)
    requires path in p.program.flows
  {
    && Intact(p, path, p.program.flows[path].config.onFlowStart)
    && Intact(p, path, p.program.flows[path].commands)
    && Intact(p, path, p.program.flows[path].config.onFlowComplete)
  }

  lemma {:induction false} IntactSplits(p: Preparation, path: string, commands: seq<Command>)
    requires commands != []
    ensures Intact(p, path, commands) <==>
            && !Broken(p, path, commands[0])
            && Intact(p, path, commands[0].children)
            && Intact(p, path, commands[1..])
  {
    hide Broken;
    var head, tail := commands[0], commands[1..];
    if Intact(p, path, commands) {
      assert Addresses(commands, [0]) && CommandAt(commands, [0]) == head;
      forall place | Addresses(head.children, place) ensures !Broken(p, path, CommandAt(head.children, place)) {
        var outer := [0] + place;
        assert outer[1..] == place;
        assert CommandAt(commands, outer) == CommandAt(head.children, place);
      }
      forall place | Addresses(tail, place) ensures !Broken(p, path, CommandAt(tail, place)) {
        var outer := [place[0] + 1] + place[1..];
        assert outer[1..] == place[1..] && commands[outer[0]] == tail[place[0]];
        assert CommandAt(commands, outer) == CommandAt(tail, place);
      }
    }
    if !Broken(p, path, head) && Intact(p, path, head.children) && Intact(p, path, tail) {
      forall place | Addresses(commands, place) ensures !Broken(p, path, CommandAt(commands, place)) {
        if place[0] > 0 {
          var shifted := [place[0] - 1] + place[1..];
          assert shifted[1..] == place[1..] && tail[shifted[0]] == commands[place[0]];
          assert CommandAt(commands, place) == CommandAt(tail, shifted);
        } else if |place| > 1 {
          assert Addresses(head.children, place[1..]);
        }
      }
    }
  }

  lemma HeadCompilesExactlyWhenIntact(p: Preparation, env: Env, compiled: CompiledFlows, path: string,
                                      commands: seq<Command>)
    requires Genuine(p) && LinksFaithful(p.setup.rules, p.program) && EnvOf(p, env)
    requires ChildrenReady(env.children, compiled, path) && LinksWithin(p, path, commands) && commands != []
    ensures CompileLink(env, compiled, path, commands[0]).Success? <==> !Broken(p, path, commands[0])
  {
    hide Genuine, FlowLinks, LinksFaithful, ChildrenReady, NamesAgree, CompiledHop, Blank, LinkResolution;
    var command := commands[0];
    if LinksOneFlow(command) {
      assert command.links[0] in LinksOf(commands);
      RequiredFlowIsReady(p, env, compiled, path, command.links[0]);
    }
  }

  /** A command list compiles exactly when no handler refuses a command of it and every flow link that a
      handler wants is there and resolves. */
  lemma {:induction false} CompilesExactlyWhenIntact(p: Preparation, env: Env, compiled: CompiledFlows, path: string,
                                                     commands: seq<Command>)
    requires Genuine(p) && LinksFaithful(p.setup.rules, p.program) && EnvOf(p, env)
    requires ChildrenReady(env.children, compiled, path) && LinksWithin(p, path, commands)
    ensures CompileSequence(env, compiled, path, commands).Success? <==> Intact(p, path, commands)
    decreases commands
  {
    hide Genuine, LinksFaithful, ChildrenReady, CompileLink, LinksWithin, EnvOf, Intact;
    if commands == [] {
      NothingIsBroken(p, path);
    } else {
      HeadCompilesExactlyWhenIntact(p, env, compiled, path, commands);
      IntactSplits(p, path, commands);
      LinksOfParts(p, path, commands);
      CompilesExactlyWhenIntact(p, env, compiled, path, commands[0].children);
      CompilesExactlyWhenIntact(p, env, compiled, path, commands[1..]);
    }
  }

  lemma NothingIsBroken(p: Preparation, path: string)
    ensures Intact(p, path, [])
  {
  }

  lemma FlowCompilesExactlyWhenIntact(p: Preparation, env: Env, compiled: CompiledFlows, path: string)
    requires Genuine(p) && LinksFaithful(p.setup.rules, p.program) && EnvOf(p, env)
    requires path in p.program.flows && ChildrenReady(env.children, compiled, path)
    ensures CompileFlow(env, compiled, path, p.program.flows[path]).Success? <==> FlowIntact(p, path)
  {
    hide Genuine, LinksFaithful, ChildrenReady, LinksWithin, EnvOf, Intact, CompileSequence;
    var flow := p.program.flows[path];
    FlowSequencesWithin(p, path);
    CompilesExactlyWhenIntact(p, env, compiled, path, flow.config.onFlowStart);
    CompilesExactlyWhenIntact(p, env, compiled, path, flow.commands);
    CompilesExactlyWhenIntact(p, env, compiled, path, flow.config.onFlowComplete);
  }

  ghost predicate AllIntact(p: Preparation, order: seq<string>, n: nat)
    requires n <= |order|
  {
    forall i :: 0 <= i < n ==> order[i] in p.program.flows && FlowIntact(p, order[i])
  }

  /** Compiling in a children-first order succeeds exactly when no command of the flows is broken. */
  lemma {:induction false} CompiledUpToExactlyWhenIntact(p: Preparation, env: Env, order: seq<string>, n: nat)
    requires Genuine(p) && LinksFaithful(p.setup.rules, p.program) && EnvOf(p, env)
    requires ChildrenFirst(env.children, order) && n <= |order|
    ensures CompiledUpTo(env, order, n).Success? <==> AllIntact(p, order, n)
  {
    hide Genuine, LinksFaithful, FlowLinked, FlowIntact, CompileFlow, ChildrenFirst, PossibleError;
    if n > 0 {
      var path := order[n - 1];
      CompiledUpToExactlyWhenIntact(p, env, order, n - 1);
      CompiledUpToIsLinked(p, env, order, n - 1);
      EarlierChildrenReady(env.children, order, n - 1);
      OrderedFlowIsPrepared(p, path);
      var earlier := CompiledUpTo(env, order, n - 1);
      if earlier.Success? {
        FlowCompilesExactlyWhenIntact(p, env, earlier.value, path);
      }
    }
  }

  // ---------------------------------------------------------------------------
  // End to end
  // ---------------------------------------------------------------------------

  /** Preflight, preparation and compilation in one run. Once preflight accepts and no canonical path is
      blank, compilation succeeds exactly when no handler refuses a command and every flow link that a handler
      wants is there and resolves. It then links every flow exactly as preflight followed its links; otherwise
      it fails in a handler, or in the resolution of a link whose two names disagree. The errors for an
      unordered, missing, undeclared or uncompiled flow never occur. */
  method PrepareAndCompile(setup: Setup, base: BaseLoader, selected: seq<string>, handlers: Command -> HandlerPlan,
                           ghost universe: set<string>)
    returns (prepared: Result<Program, PrepareError>, compiled: Result<CompiledFlows, CompileError>,
             ghost p: Preparation)
    requires Confined(base, universe)
    ensures prepared.Success? ==>
              && SetupOk(setup) && p.program == prepared.value && p.setup == setup && p.handlers == handlers
              && Prepared(setup, selected, p.canonical, p.flows, p.program, p.hops, p.finish)
    ensures prepared.Success? ==> AnsweredBy(base, p.canonical, p.flows)
    ensures prepared.Success? && !NoBlankPaths(p.program) ==> compiled.Failure? && compiled.error.OrderFailed?
    ensures prepared.Success? && NoBlankPaths(p.program) && LinksFaithful(p.setup.rules, p.program) ==>
              && (compiled.Success? <==> ProgramIntact(p))
              && (compiled.Failure? ==> PossibleError(p, compiled.error))
              && (compiled.Success? ==>
                    compiled.value.Keys == Elements(p.program.paths) && ProgramLinked(p, compiled.value))
  {
    hide Prepared, SetupOk, AnsweredBy, LinksFaithful, Confined, PossibleError, ProgramLinked, WellFormed, Acyclic;
    hide ChildrenFirst, ProgramIntact;
    var program, canonical, flows, hops, finish := Prepare(setup, base, selected, universe);
    prepared := program;
    if program.Failure? {
      compiled := Failure(RootMissing);
      p := Preparation(setup, selected, canonical, flows, Program([], [], map[], map[], Report([], [], [])), hops,
                       finish, handlers);
      return;
    }
    p := Preparation(setup, selected, canonical, flows, program.value, hops, finish, handlers);
    ghost var order;
    compiled, order := CompileProgram(setup.rules, program.value, handlers);
    PreparedIsWellFormed(p);
    if NoBlankPaths(p.program) && LinksFaithful(p.setup.rules, p.program) {
      CompiledProgram(p, Env(setup.rules, program.value, ReportGraph(program.value.graph), handlers), order);
    }
  }

  lemma CompiledProgram(p: Preparation, env: Env, order: seq<string>)
    requires Genuine(p) && LinksFaithful(p.setup.rules, p.program) && EnvOf(p, env)
    requires ChildrenFirst(env.children, order)
    ensures var r := CompiledUpTo(env, order, |order|);
            && (r.Success? <==> ProgramIntact(p))
            && (r.Failure? ==> PossibleError(p, r.error))
            && (r.Success? ==> r.value.Keys == Elements(p.program.paths) && Elements(p.program.roots) <= r.value.Keys
                               && ProgramLinked(p, r.value))
  {
    hide Prepared, LinksFaithful, PossibleError, ProgramLinked, CompiledUpTo, NoBlankPaths, AllIntact, ProgramIntact;
    CompiledUpToIsLinked(p, env, order, |order|);
    CompiledUpToExactlyWhenIntact(p, env, order, |order|);
    OrderedIsEverything(p, order);
    assert order[..|order|] == order;
    PreparedRoots(p);
    PreparedKeys(p);
  }

  ghost predicate ProgramIntact(p: Preparation) {
    forall path :: path in p.program.flows ==> FlowIntact(p, path)
  }

  lemma OrderedIsEverything(p: Preparation, order: seq<string>)
    requires Genuine(p) && ChildrenFirst(Successors(p.hops), order)
    ensures AllIntact(p, order, |order|) <==> ProgramIntact(p)
  {
    hide Prepared, NoBlankPaths, FlowIntact;
    PreparedKeys(p);
    OrderedNodes(Successors(p.hops), order);
    forall i | 0 <= i < |order| ensures order[i] in p.program.flows {
      assert order[i] in Elements(order);
    }
    forall path | path in p.program.flows ensures exists i :: 0 <= i < |order| && order[i] == path {
      assert path in Elements(order);
    }
  }

  lemma OrderedNodes(g: Graph, order: seq<string>)
    requires ChildrenFirst(g, order)
    ensures Elements(order) == g.Keys
  {
  }

  lemma PreparedKeys(p: Preparation)
    requires Genuine(p)
    ensures Successors(p.hops).Keys == Elements(p.program.paths) == p.program.flows.Keys
  {
    hide NodeAccepted, ChildrenFirst, Reachable, RootsRecorded, NoBlankPaths;
  }
}
