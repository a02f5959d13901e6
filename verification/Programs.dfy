/** The prepared program: what preflight recorded, frozen, and the resolution of links against it. */
module Programs {
  import opened Wrappers
  import opened Sequences
  import opened FlowModel
  import opened Inspection
  import opened FlowGraphs
  import opened RecordingLoader
  import opened DepthFirst
  import opened Preflight
  import opened PreflightTheorems

  datatype Program = Program(
    roots: seq<string>,
    paths: seq<string>,
    flows: map<string, Flow>,
    aliases: map<string, string>,
    graph: Report)

  datatype PrepareError = PreflightFailed(error: CheckError) | NodeNotRecorded(path: string)

  /** The program holds what an accepted preflight recorded. `hops` are the followed links. */
  ghost predicate Prepared(setup: Setup, selected: seq<string>, canonical: CanonicalTable, flows: FlowTable,
                           program: Program, hops: Hops, finish: seq<string>)
  {
    && Accepted(setup, selected, canonical, flows, program.graph, hops, finish)
    && program.roots == program.graph.roots
    && program.paths == program.graph.nodes
    && program.flows.Keys == Elements(program.graph.nodes)
    && (forall p :: p in program.flows ==> p in flows && flows[p] == Success(program.flows[p]))
    && program.aliases == AliasesOf(canonical)
  }

  lemma AcceptedFlow(setup: Setup, selected: seq<string>, canonical: CanonicalTable, flows: FlowTable,
                     report: Report, hops: Hops, finish: seq<string>, i: nat)
    requires Accepted(setup, selected, canonical, flows, report, hops, finish) && i < |report.nodes|
    ensures report.nodes[i] in flows && flows[report.nodes[i]].Success?
  {
    hide ChildrenFirst, Reachable, RootsRecorded, Clear, HopRecorded, ResourceHopOk, FlowLinks, EdgesOf;
    assert report.nodes[i] in Elements(report.nodes);
  }

  /** Copies the recorded flow of every listed node, in order. */
  method FreezeFlows(recorder: Recorder, nodes: seq<string>)
    returns (result: Result<(seq<string>, map<string, Flow>), PrepareError>)
    ensures result.Success? <==> forall i :: 0 <= i < |nodes| ==>
              nodes[i] in recorder.flows && recorder.flows[nodes[i]].Success?
    ensures result.Success? ==>
              && result.value.0 == nodes && result.value.1.Keys == Elements(nodes)
              && forall p :: p in result.value.1 ==>
                  p in recorder.flows && recorder.flows[p] == Success(result.value.1[p])
  {
    var paths, flows := [], map[];
    for i := 0 to |nodes|
      invariant paths == nodes[..i] && flows.Keys == Elements(nodes[..i])
      invariant forall p :: p in flows ==> p in recorder.flows && recorder.flows[p] == Success(flows[p])
      invariant forall k :: 0 <= k < i ==> nodes[k] in flows
    {
      var flow := recorder.Recorded(nodes[i]);
      if flow.None? {
        return Failure(NodeNotRecorded(nodes[i]));
      }
      assert nodes[..i + 1] == nodes[..i] + [nodes[i]];
      paths := paths + [nodes[i]];
      flows := flows[nodes[i] := flow.value];
    }
    result := Success((paths, flows));
  }

  /** All recorded answers were given by the source loader at some time. */
  ghost predicate AnsweredBy(base: BaseLoader, canonical: CanonicalTable, flows: FlowTable) {
    && (forall path :: path in canonical ==> exists t :: canonical[path] == base.canonical(t, path))
    && (forall path :: path in flows ==> exists t :: flows[path] == base.load(t, path))
  }

  lemma RecorderAnswers(recorder: Recorder)
    requires recorder.Valid()
    ensures AnsweredBy(recorder.base, recorder.canonical, recorder.flows)
  {
  }

  /** A rejection that the recorded answers justify. */
  ghost predicate Backed(setup: Setup, selected: seq<string>, canonical: CanonicalTable, flows: FlowTable, hops: Hops,
                         v: Violation)
  {
    exists roots, trail :: Justified(setup, selected, roots, canonical, flows, hops, trail, v)
  }

  /** Runs preflight through a fresh recorder and freezes its report, flows and aliases. The invariant
      error of an unrecorded node never arises. */
  method Prepare(setup: Setup, base: BaseLoader, selected: seq<string>, ghost universe: set<string>)
    returns (result: Result<Program, PrepareError>, ghost canonical: CanonicalTable, ghost flows: FlowTable,
             ghost hops: Hops, ghost finish: seq<string>)
    requires Confined(base, universe)
    ensures result.Success? ==>
              SetupOk(setup) && Prepared(setup, selected, canonical, flows, result.value, hops, finish)
    ensures result.Failure? ==> result.error.PreflightFailed?
    ensures result.Failure? && selected != [] && SetupOk(setup) ==>
              && result.error.error.Rejected?
              && Backed(setup, selected, canonical, flows, hops, result.error.error.violation)
    ensures AnsweredBy(base, canonical, flows)
  {
    hide Accepted, Justified, SetupOk, Recorder.Valid, AnsweredBy, Confined;
    var recorder := new Recorder(base);
    var report, error, followed, order, trail := Check(setup, recorder, selected, universe);
    RecorderAnswers(recorder);
    canonical, flows, hops, finish := recorder.canonical, recorder.flows, followed, order;
    if error.Some? {
      result := Failure(PreflightFailed(error.value));
      return;
    }
    forall i | 0 <= i < |report.nodes| ensures report.nodes[i] in flows && flows[report.nodes[i]].Success? {
      AcceptedFlow(setup, selected, canonical, flows, report, hops, finish, i);
    }
    var aliases := recorder.Aliases();
    var frozen := FreezeFlows(recorder, report.nodes);
    match frozen {
      case Failure(problem) => result := Failure(problem);
      case Success(program) => result := Success(Program(report.roots, program.0, program.1, aliases, report));
    }
  }

  lemma SteadyTables(base: BaseLoader, canonical: CanonicalTable, flows: FlowTable)
    requires Steady(base) && AnsweredBy(base, canonical, flows)
    ensures TablesFrom(base, canonical, flows)
  {
  }

  /** A plan that can only fail by a cycle is prepared exactly when its flows have no reachable cycle. */
  method PrepareSoundPlan(setup: Setup, base: BaseLoader, selected: seq<string>, ghost universe: set<string>)
    returns (result: Result<Program, PrepareError>, ghost canonical: CanonicalTable, ghost flows: FlowTable,
             ghost hops: Hops, ghost finish: seq<string>)
    requires SetupOk(setup) && selected != [] && SoundWorld(setup, base, universe, selected)
    ensures result.Success? <==> !ReachableCycle(WorldGraph(setup.rules, base, universe), WorldRoots(base, selected))
    ensures result.Success? ==> Prepared(setup, selected, canonical, flows, result.value, hops, finish)
    ensures TablesFrom(base, canonical, flows)
  {
    hide Accepted, Justified, SetupOk, WorldGraph, Steady, TablesFrom, AnsweredBy, SoundFlow, Confined, WorldRoots;
    result, canonical, flows, hops, finish := Prepare(setup, base, selected, universe);
    SteadyTables(base, canonical, flows);
    if result.Success? {
      var report := result.value.graph;
      AcceptedRoots(setup, selected, canonical, flows, report, hops, finish);
      RecordedRoots(base, selected, canonical, flows, report.roots);
      AcceptanceExcludesCycles(setup, base, universe, selected, canonical, flows, report, hops, finish);
    } else {
      ghost var v := result.error.error.violation;
      ghost var roots, trail :| Justified(setup, selected, roots, canonical, flows, hops, trail, v);
      SoundRejectionIsCycle(setup, base, universe, selected, roots, canonical, flows, hops, trail, v);
      JustifiedRoots(setup, selected, roots, canonical, flows, hops, trail, v);
      RecordedRoots(base, selected, canonical, flows, roots);
      assert trail[0] in Elements(roots);
    }
  }

  // ---------------------------------------------------------------------------
  // Link resolution
  // ---------------------------------------------------------------------------

  datatype ResolveError = NotAFlowLink | BlankContainer | BlankLink | OutsideProgram | Ambiguous | NotProven

  function CanonicalAlias(rules: PathRules, program: Program, target: string): Option<string> {
    var cleaned := rules.clean(target);
    if target in program.aliases then Some(program.aliases[target])
    else if cleaned in program.aliases then Some(program.aliases[cleaned])
    else if target in program.flows then Some(target)
    else if cleaned in program.flows then Some(cleaned)
    else None
  }

  /** The paths a link may be known under, the resolved one first. */
  function TargetsOfLink(rules: PathRules, containing: string, link: FileLink): seq<string> {
    (if !Blank(link.resolvedPath) then [link.resolvedPath] else [])
    + (if !Blank(link.path) then [PathTarget(rules, containing, link)] else [])
  }

  /** Combines one more target with what the earlier ones resolved to; "" stands for nothing yet. */
  function Combine(program: Program, resolved: string, alias: Option<string>): Result<string, ResolveError> {
    if alias.None? then Success(resolved)
    else if alias.value !in program.flows then Failure(OutsideProgram)
    else if resolved != "" && resolved != alias.value then Failure(Ambiguous)
    else Success(alias.value)
  }

  function ResolveTargets(rules: PathRules, program: Program, targets: seq<string>): Result<string, ResolveError> {
    if targets == [] then Success("")
    else
      var last := |targets| - 1;
      var earlier := ResolveTargets(rules, program, targets[..last]);
      if earlier.Failure? then earlier
      else Combine(program, earlier.value, CanonicalAlias(rules, program, targets[last]))
  }

  function LinkResolution(rules: PathRules, program: Program, containing: string,
                          link: FileLink): Result<string, ResolveError> {
    if !link.kind.FlowLink? then Failure(NotAFlowLink)
    else if Blank(containing) then Failure(BlankContainer)
    else
      var targets := TargetsOfLink(rules, containing, link);
      if targets == [] then Failure(BlankLink)
      else
        var resolved := ResolveTargets(rules, program, targets);
        if resolved == Success("") then Failure(NotProven) else resolved
  }

  /** Folds the targets from first to last, stopping at the first that fails. */
  method ResolveAll(rules: PathRules, program: Program, targets: seq<string>)
    returns (result: Result<string, ResolveError>)
    ensures result == ResolveTargets(rules, program, targets)
  {
    hide CanonicalAlias, Combine;
    var resolved := "";
    for i := 0 to |targets|
      invariant ResolveTargets(rules, program, targets[..i]) == Success(resolved)
    {
      assert targets[..i + 1][..i] == targets[..i];
      var alias := CanonicalAlias(rules, program, targets[i]);
      result := Combine(program, resolved, alias);
      if result.Failure? {
        FailedPrefix(rules, program, targets, i + 1);
        return;
      }
      resolved := result.value;
    }
    assert targets[..|targets|] == targets;
    result := Success(resolved);
  }

  /** Maps a prepared flow link to the canonical flow, from recorded aliases alone. */
  method ResolveFlowLink(rules: PathRules, program: Program, containing: string, link: FileLink)
    returns (result: Result<string, ResolveError>)
    ensures result == LinkResolution(rules, program, containing, link)
  {
    hide ResolveTargets, PathTarget, Blank;
    if !link.kind.FlowLink? {
      return Failure(NotAFlowLink);
    }
    if Blank(containing) {
      return Failure(BlankContainer);
    }
    var targets := [];
    if !Blank(link.resolvedPath) {
      targets := targets + [link.resolvedPath];
    }
    if !Blank(link.path) {
      targets := targets + [PathTarget(rules, containing, link)];
    }
    assert targets == TargetsOfLink(rules, containing, link);
    if |targets| == 0 {
      return Failure(BlankLink);
    }
    result := ResolveAll(rules, program, targets);
    if result == Success("") {
      result := Failure(NotProven);
    }
  }

  /** A target that fails decides the resolution. */
  lemma {:induction false} FailedPrefix(rules: PathRules, program: Program, targets: seq<string>, i: nat)
    requires i <= |targets| && ResolveTargets(rules, program, targets[..i]).Failure?
    ensures ResolveTargets(rules, program, targets) == ResolveTargets(rules, program, targets[..i])
  {
    if i < |targets| {
      var shorter := targets[..|targets| - 1];
      assert shorter[..i] == targets[..i];
      FailedPrefix(rules, program, shorter, i);
    } else {
      assert targets[..i] == targets;
    }
  }

  /** The link names this path: its resolved path, or its own one, cleaned or taken from the directory of the
      containing flow. A blank path names nothing. */
  ghost predicate NamesPath(rules: PathRules, containing: string, link: FileLink, target: string) {
    || (!Blank(link.resolvedPath) && target == link.resolvedPath)
    || (!Blank(link.path) && rules.isAbs(link.path) && target == rules.clean(link.path))
    || (!Blank(link.path) && !rules.isAbs(link.path) && target == rules.join(rules.dir(containing), link.path))
  }

  /** What a path stands for in a program: what it is recorded as, under its own spelling or else its cleaned
      one; a path that is not recorded at all stands for itself if it is a flow. */
  ghost predicate StandsFor(rules: PathRules, program: Program, target: string, c: string) {
    var cleaned := rules.clean(target);
    && (target in program.aliases ==> c == program.aliases[target])
    && (target !in program.aliases && cleaned in program.aliases ==> c == program.aliases[cleaned])
    && (target !in program.aliases && cleaned !in program.aliases ==>
          c in program.flows && (c == target || (target !in program.flows && c == cleaned)))
  }

  lemma AliasIsWhatItStandsFor(rules: PathRules, program: Program, target: string)
    ensures forall c :: CanonicalAlias(rules, program, target) == Some(c) <==> StandsFor(rules, program, target, c)
  {
  }

  lemma {:induction false} TargetsAreTheNames(rules: PathRules, containing: string, link: FileLink)
    ensures |TargetsOfLink(rules, containing, link)| <= 2
    ensures forall target :: target in TargetsOfLink(rules, containing, link) <==>
              NamesPath(rules, containing, link, target)
  {
    hide Blank;
  }

  /** A link resolves to a flow exactly when one of its names stands for that flow and none for anything else,
      and is not proven exactly when none of its names stands for anything. */
  lemma {:induction false} ResolvesExactlyWhen(rules: PathRules, program: Program, containing: string, link: FileLink,
                                               c: string)
    requires link.kind.FlowLink? && !Blank(containing) && "" !in program.flows
    ensures LinkResolution(rules, program, containing, link) == Success(c) <==>
            && c in program.flows
            && (exists target :: NamesPath(rules, containing, link, target) && StandsFor(rules, program, target, c))
            && (forall target, d ::
                  NamesPath(rules, containing, link, target) && StandsFor(rules, program, target, d) ==> d == c)
    ensures LinkResolution(rules, program, containing, link) in {Failure(NotProven), Failure(BlankLink)} <==>
              !exists target, d ::
                NamesPath(rules, containing, link, target) && StandsFor(rules, program, target, d)
  {
    hide Blank, NamesPath, StandsFor, CanonicalAlias, TargetsOfLink;
    var targets := TargetsOfLink(rules, containing, link);
    TargetsAreTheNames(rules, containing, link);
    forall target ensures forall d ::
        CanonicalAlias(rules, program, target) == Some(d) <==> StandsFor(rules, program, target, d)
    {
      AliasIsWhatItStandsFor(rules, program, target);
    }
    FewTargets(rules, program, targets);
  }

  lemma FewTargets(rules: PathRules, program: Program, targets: seq<string>)
    requires |targets| <= 2
    ensures targets == [] ==> ResolveTargets(rules, program, targets) == Success("")
    ensures |targets| == 1 ==>
              ResolveTargets(rules, program, targets) ==
              Combine(program, "", CanonicalAlias(rules, program, targets[0]))
    ensures |targets| == 2 ==>
              ResolveTargets(rules, program, targets) ==
              var first := Combine(program, "", CanonicalAlias(rules, program, targets[0]));
              if first.Failure? then first
              else Combine(program, first.value, CanonicalAlias(rules, program, targets[1]))
  {
    hide CanonicalAlias, Combine;
    if |targets| == 2 {
      assert targets[..1][..0] == [];
    }
  }

  // ---------------------------------------------------------------------------
  // Resolution agrees with preflight
  // ---------------------------------------------------------------------------

  ghost predicate NoBlankPaths(program: Program) {
    forall i :: 0 <= i < |program.paths| ==> !Blank(program.paths[i])
  }

  /** The link asks preflight and the resolver about the same path first. */
  ghost predicate AskedAlike(link: FileLink) {
    link.resolvedPath == "" || !Blank(link.resolvedPath)
  }

  /** Or the resolver has no other path to ask about, or its path is the same one. */
  ghost predicate FaithfulLink(rules: PathRules, containing: string, link: FileLink) {
    AskedAlike(link) || Blank(link.path) || PathTarget(rules, containing, link) == link.resolvedPath
  }

  /** If the first target of a link is recorded as `c`, the link resolves to `c` or not at all. */
  lemma {:induction false} RecordedTargetWins(rules: PathRules, program: Program, containing: string, link: FileLink,
                                              c: string)
    requires FaithfulLink(rules, containing, link) && c != "" && c in program.flows
    requires CanonicalAlias(rules, program, LinkTarget(rules, containing, link)) == Some(c)
    ensures var r := LinkResolution(rules, program, containing, link); r.Failure? || r == Success(c)
  {
    hide CanonicalAlias, PathTarget;
    var targets := TargetsOfLink(rules, containing, link);
    assert Blank("");
    if targets != [] {
      assert targets[0] == LinkTarget(rules, containing, link);
      assert ResolveTargets(rules, program, targets[..1]) == Success(c) by {
        assert targets[..1][..0] == [];
      }
      if |targets| == 2 {
        assert targets[..|targets| - 1] == targets[..1];
      } else {
        assert targets == targets[..1];
      }
    }
  }

  lemma NodeNotBlank(program: Program, p: string)
    requires NoBlankPaths(program) && p in program.paths
    ensures !Blank(p) && p != ""
  {
    assert Blank("");
  }

  /** The k-th link of a prepared flow was followed to another prepared flow, and is an alias of it. */
  lemma FollowedTarget(setup: Setup, selected: seq<string>, canonical: CanonicalTable, flows: FlowTable,
                       program: Program,
                       hops: Hops, finish: seq<string>, p: string, k: nat)
    requires Prepared(setup, selected, canonical, flows, program, hops, finish)
    requires p in program.flows && k < |FlowLinks(program.flows[p])| && FlowLinks(program.flows[p])[k].kind.FlowLink?
    ensures p in hops && k < |hops[p]| && hops[p][k].link == FlowLinks(program.flows[p])[k]
    ensures p in program.paths && hops[p][k].target in program.paths && hops[p][k].target in program.flows
    ensures FlowHop(hops, p, hops[p][k].target)
    ensures HopRecorded(setup.rules, canonical, p, hops[p][k])
  {
    hide Reachable, RootsRecorded, Clear, HopRecorded, ResourceHopOk, FlowLinks, EdgesOf, ChildrenFirst;
    assert NodeAccepted(setup, canonical, flows, program.graph.edges, hops, p);
    assert FlowHop(hops, p, hops[p][k].target);
    SuccessorEdge(hops, p, hops[p][k].target);
    OrderedChildIsNode(Successors(hops), finish, p, hops[p][k].target);
    assert p in Elements(program.paths) && hops[p][k].target in Elements(program.paths);
  }

  lemma FollowedAlias(setup: Setup, selected: seq<string>, canonical: CanonicalTable, flows: FlowTable,
                      program: Program,
                      hops: Hops, finish: seq<string>, p: string, k: nat)
    requires Prepared(setup, selected, canonical, flows, program, hops, finish) && NoBlankPaths(program)
    requires p in program.flows && k < |FlowLinks(program.flows[p])| && FlowLinks(program.flows[p])[k].kind.FlowLink?
    ensures p in hops && k < |hops[p]| && hops[p][k].link == FlowLinks(program.flows[p])[k]
    ensures hops[p][k].target in program.flows && hops[p][k].target != "" && !Blank(p)
    ensures CanonicalAlias(setup.rules, program, LinkTarget(setup.rules, p, FlowLinks(program.flows[p])[k])) ==
            Some(hops[p][k].target)
  {
    hide Accepted, FlowLinks, LinkTarget, NoBlankPaths, Blank;
    FollowedTarget(setup, selected, canonical, flows, program, hops, finish, p, k);
    NodeNotBlank(program, hops[p][k].target);
    NodeNotBlank(program, p);
    var target := LinkTarget(setup.rules, p, FlowLinks(program.flows[p])[k]);
    assert target in program.aliases && program.aliases[target] == hops[p][k].target;
  }

  /** A link of a prepared flow resolves to exactly the target preflight followed, or to an error. */
  lemma {:induction false} ResolutionAgreesWithPreflight(
      setup: Setup, selected: seq<string>, canonical: CanonicalTable, flows: FlowTable, program: Program,
      hops: Hops, finish: seq<string>, p: string, k: nat)
    requires Prepared(setup, selected, canonical, flows, program, hops, finish) && NoBlankPaths(program)
    requires p in program.flows && k < |FlowLinks(program.flows[p])|
    requires FlowLinks(program.flows[p])[k].kind.FlowLink?
    requires FaithfulLink(setup.rules, p, FlowLinks(program.flows[p])[k])
    ensures p in hops && k < |hops[p]| && hops[p][k].link == FlowLinks(program.flows[p])[k]
    ensures hops[p][k].target in program.flows
    ensures var r := LinkResolution(setup.rules, program, p, FlowLinks(program.flows[p])[k]);
            r.Failure? || r == Success(hops[p][k].target)
  {
    hide Prepared, FlowLinks, LinkTarget, LinkResolution, CanonicalAlias, NoBlankPaths, Blank, FaithfulLink;
    FollowedAlias(setup, selected, canonical, flows, program, hops, finish, p, k);
    RecordedTargetWins(setup.rules, program, p, FlowLinks(program.flows[p])[k], hops[p][k].target);
  }

  /** The two names of the link agree, as they do in a link parsed from a flow file. */
  ghost predicate NamesAgree(rules: PathRules, containing: string, link: FileLink) {
    && !Blank(link.path)
    && (link.resolvedPath == ""
        || (!Blank(link.resolvedPath) && link.resolvedPath == PathTarget(rules, containing, link)))
  }

  lemma {:induction false} AgreedNamesResolve(rules: PathRules, program: Program, containing: string, link: FileLink,
                                              c: string)
    requires link.kind.FlowLink? && !Blank(containing) && NamesAgree(rules, containing, link)
    requires c != "" && c in program.flows
    requires CanonicalAlias(rules, program, LinkTarget(rules, containing, link)) == Some(c)
    ensures LinkResolution(rules, program, containing, link) == Success(c)
  {
    hide CanonicalAlias, PathTarget;
    assert Blank("");
    var target := LinkTarget(rules, containing, link);
    var targets := TargetsOfLink(rules, containing, link);
    assert forall i :: 0 <= i < |targets| ==> targets[i] == target;
    assert targets[..1] == [target] && [target][..0] == [];
    assert ResolveTargets(rules, program, targets[..1]) == Success(c);
    if |targets| == 2 {
      assert targets[..|targets| - 1] == targets[..1];
    } else {
      assert targets == targets[..1];
    }
  }

  /** A link whose own path and resolved path name the same file always resolves, and correctly. */
  lemma {:induction false} ParsedLinksAlwaysResolve(
      setup: Setup, selected: seq<string>, canonical: CanonicalTable, flows: FlowTable, program: Program,
      hops: Hops, finish: seq<string>, p: string, k: nat)
    requires Prepared(setup, selected, canonical, flows, program, hops, finish) && NoBlankPaths(program)
    requires p in program.flows && k < |FlowLinks(program.flows[p])|
    requires FlowLinks(program.flows[p])[k].kind.FlowLink? && NamesAgree(setup.rules, p, FlowLinks(program.flows[p])[k])
    ensures p in hops && k < |hops[p]|
    ensures LinkResolution(setup.rules, program, p, FlowLinks(program.flows[p])[k]) == Success(hops[p][k].target)
  {
    hide Prepared, FlowLinks, LinkTarget, LinkResolution, CanonicalAlias, NoBlankPaths, NamesAgree, Blank;
    FollowedAlias(setup, selected, canonical, flows, program, hops, finish, p, k);
    AgreedNamesResolve(setup.rules, program, p, FlowLinks(program.flows[p])[k], hops[p][k].target);
  }

  /** Whatever aliases and flows are recorded, resolving the link never contradicts them. */
  ghost predicate NeverMisresolved(rules: PathRules, containing: string, link: FileLink) {
    forall program: Program, c ::
      c != "" && c in program.flows
          && CanonicalAlias(rules, program, LinkTarget(rules, containing, link)) == Some(c) ==>
        var r := LinkResolution(rules, program, containing, link); r.Failure? || r == Success(c)
  }

  /** A resolved path made of white space is asked about by preflight and skipped by the resolver, which then
      trusts the link's own path. Resolution is faithful exactly when that cannot happen, or when the link
      cannot be resolved at all. */
  lemma {:induction false} FaithfulExactlyWhen(rules: PathRules, containing: string, link: FileLink, some: Flow)
    ensures NeverMisresolved(rules, containing, link)
       <==> !link.kind.FlowLink? || Blank(containing) || FaithfulLink(rules, containing, link)
  {
    if !link.kind.FlowLink? || Blank(containing) {
      assert forall program :: LinkResolution(rules, program, containing, link).Failure?;
    } else if FaithfulLink(rules, containing, link) {
      forall program: Program, c | c != "" && c in program.flows
          && CanonicalAlias(rules, program, LinkTarget(rules, containing, link)) == Some(c)
        ensures var r := LinkResolution(rules, program, containing, link); r.Failure? || r == Success(c)
      {
        RecordedTargetWins(rules, program, containing, link, c);
      }
    } else {
      SkippedResolvedPath(rules, containing, link, some);
    }
  }

  /** A link whose resolved path is skipped resolves to what its own path is recorded as. */
  lemma OwnPathDecides(rules: PathRules, program: Program, containing: string, link: FileLink, c: string)
    requires link.kind.FlowLink? && !Blank(containing) && Blank(link.resolvedPath) && !Blank(link.path)
    requires c != "" && c in program.flows
    requires CanonicalAlias(rules, program, PathTarget(rules, containing, link)) == Some(c)
    ensures LinkResolution(rules, program, containing, link) == Success(c)
  {
    hide Blank, CanonicalAlias, PathTarget;
    FewTargets(rules, program, TargetsOfLink(rules, containing, link));
  }

  lemma {:induction false} SkippedResolvedPath(rules: PathRules, containing: string, link: FileLink, some: Flow)
    requires link.kind.FlowLink? && !Blank(containing) && !FaithfulLink(rules, containing, link)
    ensures !NeverMisresolved(rules, containing, link)
  {
    var a, b := "a", "b";
    assert a[0] != b[0] && a != "" && b != "";
    hide Blank, PathTarget, LinkResolution;
    var own := PathTarget(rules, containing, link);
    var program := Program([], [a, b], map[a := some, b := some], map[link.resolvedPath := a, own := b],
                           Report([], [], []));
    assert CanonicalAlias(rules, program, LinkTarget(rules, containing, link)) == Some(a);
    assert CanonicalAlias(rules, program, own) == Some(b);
    OwnPathDecides(rules, program, containing, link, b);
  }
}
