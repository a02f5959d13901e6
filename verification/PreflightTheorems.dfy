/** What acceptance and rejection by preflight mean for the graph of flows. */
module PreflightTheorems {
  import opened Wrappers
  import opened Sequences
  import opened FlowModel
  import opened Inspection
  import opened FlowGraphs
  import Registry
  import opened RecordingLoader
  import opened DepthFirst
  import opened Preflight

  /** The graph that the flow edges of a report span over its nodes. */
  ghost function ReportGraph(report: Report): Graph {
    map p | p in report.nodes :: LinkedFrom(report, p)
  }

  /** What the flow edges from a node lead to; nothing from what is no node. */
  ghost function LinkedFrom(report: Report, p: string): set<string> {
    set i | 0 <= i < |report.edges| && report.edges[i].kind.FlowLink? && report.edges[i].from == p && p in report.nodes
      :: report.edges[i].to
  }

  lemma {:induction false} EdgeIsListed(edges: seq<GraphEdge>, i: nat) returns (k: nat)
    requires i < |edges|
    ensures k < |EdgesFrom(edges, edges[i].from)| && EdgesFrom(edges, edges[i].from)[k] == edges[i]
  {
    var last := |edges| - 1;
    if i == last {
      k := |EdgesFrom(edges, edges[i].from)| - 1;
    } else {
      k := EdgeIsListed(edges[..last], i);
    }
  }

  lemma {:induction false} ListedIsEdge(edges: seq<GraphEdge>, p: string, k: nat) returns (i: nat)
    requires k < |EdgesFrom(edges, p)|
    ensures i < |edges| && edges[i] == EdgesFrom(edges, p)[k] && edges[i].from == p
  {
    var last := |edges| - 1;
    var before := EdgesFrom(edges[..last], p);
    if k < |before| {
      i := ListedIsEdge(edges[..last], p, k);
    } else {
      i := last;
    }
  }

  /** A followed flow link never leaves the accepted flows. */
  lemma TargetsAreNodes(hops: Hops, finish: seq<string>, p: string, k: nat)
    requires ChildrenFirst(Successors(hops), finish)
    requires p in hops && k < |hops[p]| && hops[p][k].link.kind.FlowLink?
    ensures hops[p][k].target in hops
  {
    OrderedChildIsNode(Successors(hops), finish, p, hops[p][k].target);
  }

  /** Unless a flow has the empty name, the report's flow edges are the followed flow links. */
  lemma {:induction false} ReportGraphIsSuccessors(setup: Setup, selected: seq<string>, canonical: CanonicalTable,
                                                   flows: FlowTable,
                                                   report: Report, hops: Hops, finish: seq<string>)
    requires Accepted(setup, selected, canonical, flows, report, hops, finish)
    requires "" !in report.nodes
    ensures ReportGraph(report) == Successors(hops)
  {
    hide ChildrenFirst, Reachable, Clear, HopRecorded, ResourceHopOk, RootsRecorded;
    forall p | p in hops ensures p in ReportGraph(report) && ReportGraph(report)[p] == TargetsOf(hops[p]) {
      assert p in Elements(report.nodes);
      forall k | 0 <= k < |hops[p]| && hops[p][k].link.kind.FlowLink? ensures hops[p][k].target != "" {
        TargetsAreNodes(hops, finish, p, k);
        assert hops[p][k].target in Elements(report.nodes);
      }
      NodeEdges(setup, canonical, flows, report, hops, p);
    }
    assert ReportGraph(report).Keys == Elements(report.nodes) == hops.Keys;
  }

  lemma {:induction false} NodeEdges(setup: Setup, canonical: CanonicalTable, flows: FlowTable, report: Report,
                                     hops: Hops, p: string)
    requires NodeAccepted(setup, canonical, flows, report.edges, hops, p)
    requires p in report.nodes
    requires forall k :: 0 <= k < |hops[p]| && hops[p][k].link.kind.FlowLink? ==> hops[p][k].target != ""
    ensures ReportGraph(report)[p] == TargetsOf(hops[p])
  {
    hide Clear, HopRecorded, ResourceHopOk;
    var reported := ReportGraph(report)[p];
    forall to | to in reported ensures to in TargetsOf(hops[p]) {
      var i :| 0 <= i < |report.edges| && report.edges[i].kind.FlowLink? && report.edges[i].from == p
          && report.edges[i].to == to;
      var k := EdgeIsListed(report.edges, i);
      assert report.edges[i] == EdgeOf(setup.rules, p, hops[p][k]);
    }
    forall to | to in TargetsOf(hops[p]) ensures to in reported {
      var k :| 0 <= k < |hops[p]| && hops[p][k].link.kind.FlowLink? && hops[p][k].target == to;
      var i := ListedIsEdge(report.edges, p, k);
      assert report.edges[i] == EdgeOf(setup.rules, p, hops[p][k]);
    }
  }

  /** The flow edges of an accepted report contain no cycle. */
  lemma {:induction false} AcceptedIsAcyclic(setup: Setup, selected: seq<string>, canonical: CanonicalTable,
                                             flows: FlowTable,
                                             report: Report, hops: Hops, finish: seq<string>)
    requires Accepted(setup, selected, canonical, flows, report, hops, finish)
    ensures Acyclic(Successors(hops))
    ensures "" !in report.nodes ==> Acyclic(ReportGraph(report))
  {
    hide Reachable, NodeAccepted, RootsRecorded, ChildrenFirst;
    OrderedIsAcyclic(Successors(hops), finish);
    if "" !in report.nodes {
      ReportGraphIsSuccessors(setup, selected, canonical, flows, report, hops, finish);
    }
  }

  lemma SuccessorNodes(hops: Hops)
    ensures Successors(hops).Keys == hops.Keys
  {
  }

  /** The listed flows are exactly those reachable from the selected roots. */
  lemma {:induction false} NodesAreTheReachableFlows(
      setup: Setup, selected: seq<string>, canonical: CanonicalTable, flows: FlowTable,
      report: Report, hops: Hops, finish: seq<string>, p: string)
    requires Accepted(setup, selected, canonical, flows, report, hops, finish)
    ensures p in report.nodes <==> Reachable(Successors(hops), Elements(report.roots), p)
  {
    hide NodeAccepted, RootsRecorded, ChildrenFirst, Successors;
    var g := Successors(hops);
    OrderedIsClosed(g, finish);
    SuccessorNodes(hops);
    assert p in report.nodes <==> p in Elements(report.nodes);
    if Reachable(g, Elements(report.roots), p) {
      var w :| Walk(g, w) && w[0] in Elements(report.roots) && w[|w| - 1] == p;
      ReachableStaysInside(g, Elements(report.roots), hops.Keys, w);
    }
  }

  // ---------------------------------------------------------------------------
  // The report counts call sites exactly
  // ---------------------------------------------------------------------------

  ghost function LinkCount(nodes: seq<string>, flows: FlowTable): nat
    requires forall i :: 0 <= i < |nodes| ==> nodes[i] in flows && flows[nodes[i]].Success?
  {
    if nodes == [] then 0
    else LinkCount(nodes[..|nodes| - 1], flows) + |FlowLinks(flows[nodes[|nodes| - 1]].value)|
  }

  /** The edges that leave the first n listed flows. */
  ghost function EdgesLeaving(nodes: seq<string>, edges: seq<GraphEdge>): nat {
    if nodes == [] then 0
    else EdgesLeaving(nodes[..|nodes| - 1], edges) + |EdgesFrom(edges, nodes[|nodes| - 1])|
  }

  lemma {:induction false} OneMoreEdge(nodes: seq<string>, edges: seq<GraphEdge>, edge: GraphEdge)
    requires Distinct(nodes)
    ensures EdgesLeaving(nodes, edges + [edge]) == EdgesLeaving(nodes, edges) + (if edge.from in nodes then 1 else 0)
  {
    if nodes != [] {
      var rest := nodes[..|nodes| - 1];
      OneMoreEdge(rest, edges, edge);
      EdgesFromAppend(edges, edge, nodes[|nodes| - 1]);
      assert nodes == rest + [nodes[|nodes| - 1]];
    }
  }

  lemma {:induction false} NoEdgesLeave(nodes: seq<string>)
    ensures EdgesLeaving(nodes, []) == 0
  {
    if nodes != [] {
      NoEdgesLeave(nodes[..|nodes| - 1]);
    }
  }

  lemma {:induction false} EveryEdgeLeavesOnce(nodes: seq<string>, edges: seq<GraphEdge>)
    requires Distinct(nodes) && forall i :: 0 <= i < |edges| ==> edges[i].from in nodes
    ensures EdgesLeaving(nodes, edges) == |edges|
  {
    if edges == [] {
      NoEdgesLeave(nodes);
    } else {
      var rest := edges[..|edges| - 1];
      EveryEdgeLeavesOnce(nodes, rest);
      OneMoreEdge(nodes, rest, edges[|edges| - 1]);
      assert edges == rest + [edges[|edges| - 1]];
    }
  }

  lemma {:induction false} LeavingEdgesAreLinks(nodes: seq<string>, setup: Setup, canonical: CanonicalTable,
                                                flows: FlowTable,
                                                edges: seq<GraphEdge>, hops: Hops)
    requires forall i :: 0 <= i < |nodes| ==> NodeAccepted(setup, canonical, flows, edges, hops, nodes[i])
    ensures forall i :: 0 <= i < |nodes| ==> nodes[i] in flows && flows[nodes[i]].Success?
    ensures LinkCount(nodes, flows) == EdgesLeaving(nodes, edges)
  {
    hide Clear, HopRecorded, ResourceHopOk, FlowLinks;
    if nodes != [] {
      var last := nodes[|nodes| - 1];
      LeavingEdgesAreLinks(nodes[..|nodes| - 1], setup, canonical, flows, edges, hops);
      assert NodeAccepted(setup, canonical, flows, edges, hops, last);
    }
  }

  /** Every link of every listed flow is one edge of the report, and there are no other edges. */
  lemma {:induction false} EdgesCountTheLinks(setup: Setup, selected: seq<string>, canonical: CanonicalTable,
                                              flows: FlowTable,
                                              report: Report, hops: Hops, finish: seq<string>)
    requires Accepted(setup, selected, canonical, flows, report, hops, finish)
    ensures forall i :: 0 <= i < |report.nodes| ==> report.nodes[i] in flows && flows[report.nodes[i]].Success?
    ensures |report.edges| == LinkCount(report.nodes, flows)
  {
    hide ChildrenFirst, Reachable, RootsRecorded, Clear, HopRecorded, ResourceHopOk, FlowLinks, EdgesOf;
    forall i | 0 <= i < |report.nodes|
      ensures NodeAccepted(setup, canonical, flows, report.edges, hops, report.nodes[i])
    {
      assert report.nodes[i] in Elements(report.nodes);
    }
    forall i | 0 <= i < |report.edges| ensures report.edges[i].from in report.nodes {
      assert report.edges[i].from in Elements(report.nodes);
    }
    EveryEdgeLeavesOnce(report.nodes, report.edges);
    LeavingEdgesAreLinks(report.nodes, setup, canonical, flows, report.edges, hops);
  }

  // ---------------------------------------------------------------------------
  // Cycles are found exactly when they exist
  // ---------------------------------------------------------------------------

  /** The loader answers the same question the same way every time. */
  ghost predicate Steady(base: BaseLoader) {
    && (forall t, path :: base.canonical(t, path) == base.canonical(0, path))
    && (forall t, path :: base.load(t, path) == base.load(0, path))
  }

  /** The k-th link of flow p is a flow link to `to`. */
  ghost predicate WorldLink(rules: PathRules, base: BaseLoader, p: string, k: nat, to: string) {
    && base.load(0, p).Success? && k < |FlowLinks(base.load(0, p).value)|
    && var link := FlowLinks(base.load(0, p).value)[k];
       link.kind.FlowLink? && base.canonical(0, LinkTarget(rules, p, link)) == Success(to)
  }

  /** All flow links of all flows the loader can name. */
  ghost function WorldGraph(rules: PathRules, base: BaseLoader, universe: set<string>): Graph {
    map p | p in universe ::
      set to | to in universe && p in universe && exists k :: WorldLink(rules, base, p, k, to)
  }

  ghost predicate ReachableCycle(g: Graph, roots: set<string>) {
    exists w, i :: Walk(g, w) && w[0] in roots && 0 <= i < |w| - 1 && w[i] == w[|w| - 1]
  }

  ghost predicate SoundFlow(setup: Setup, base: BaseLoader, p: string) {
    && base.load(0, p).Success? && Clear(setup, base.load(0, p).value)
    && forall k :: 0 <= k < |FlowLinks(base.load(0, p).value)| ==>
         var link := FlowLinks(base.load(0, p).value)[k];
         && base.canonical(0, LinkTarget(setup.rules, p, link)).Success?
         && ResourceHopOk(p, Hop(link, base.canonical(0, LinkTarget(setup.rules, p, link)).value))
  }

  /** Nothing but a cycle can be wrong with the plan. */
  ghost predicate SoundWorld(setup: Setup, base: BaseLoader, universe: set<string>, selected: seq<string>) {
    && Steady(base) && Confined(base, universe)
    && (forall p :: p in universe ==> SoundFlow(setup, base, p))
    && (forall i :: 0 <= i < |selected| ==> base.canonical(0, selected[i]).Success?)
  }

  ghost predicate TablesFrom(base: BaseLoader, canonical: CanonicalTable, flows: FlowTable) {
    && (forall path :: path in canonical ==> canonical[path] == base.canonical(0, path))
    && (forall path :: path in flows ==> flows[path] == base.load(0, path))
  }

  lemma RecorderTables(recorder: Recorder)
    requires recorder.Valid() && Steady(recorder.base)
    ensures TablesFrom(recorder.base, recorder.canonical, recorder.flows)
  {
  }

  lemma GenuineHopIsWorldLink(rules: PathRules, base: BaseLoader, universe: set<string>, canonical: CanonicalTable,
                              flows: FlowTable, hops: Hops, from: string, k: nat)
    requires TablesFrom(base, canonical, flows) && Confined(base, universe)
    requires HopsGenuine(rules, canonical, flows, hops)
    requires from in hops && k < |hops[from]| && hops[from][k].link.kind.FlowLink? && from in universe
    ensures Edge(WorldGraph(rules, base, universe), from, hops[from][k].target)
  {
    hide FlowLinks, LinkTarget;
    assert HopRecorded(rules, canonical, from, hops[from][k]);
    assert WorldLink(rules, base, from, k, hops[from][k].target);
  }

  lemma {:induction false} TrailWalks(setup: Setup, base: BaseLoader, universe: set<string>, canonical: CanonicalTable,
                                      flows: FlowTable, hops: Hops, trail: seq<string>, chain: seq<GraphEdge>, n: nat)
    requires TablesFrom(base, canonical, flows) && Confined(base, universe)
    requires HopsGenuine(setup.rules, canonical, flows, hops)
    requires 0 < n <= |trail| && trail[0] in universe && ChainAlong(setup.rules, hops, trail, chain)
    ensures Walk(WorldGraph(setup.rules, base, universe), trail[..n]) && trail[n - 1] in universe
  {
    hide FlowLinks, LinkTarget, HopsGenuine, EdgeOf, Confined;
    if n > 1 {
      TrailWalks(setup, base, universe, canonical, flows, hops, trail, chain, n - 1);
      var g := WorldGraph(setup.rules, base, universe);
      var from, to := trail[n - 2], trail[n - 1];
      assert ChainLink(setup.rules, hops, from, to, chain[n - 2]);
      var k :| 0 <= k < |hops[from]| && hops[from][k].link.kind.FlowLink? && hops[from][k].target == to;
      GenuineHopIsWorldLink(setup.rules, base, universe, canonical, flows, hops, from, k);
      forall i | 0 <= i < n - 1 ensures Edge(g, trail[..n][i], trail[..n][i + 1]) {
        if i < n - 2 {
          assert Edge(g, trail[..n - 1][i], trail[..n - 1][i + 1]);
        }
      }
    }
  }

  /** A trail that closes on itself is a reachable cycle of the world. */
  lemma {:induction false} ClosingTrailIsCycle(g: Graph, roots: set<string>, trail: seq<string>, back: string)
    requires Walk(g, trail) && trail[0] in roots && Edge(g, trail[|trail| - 1], back) && back in trail
    ensures ReachableCycle(g, roots)
  {
    var i :| 0 <= i < |trail| && trail[i] == back;
    var w := trail + [back];
    forall j | 0 <= j < |w| - 1 ensures Edge(g, w[j], w[j + 1]) {
      if j < |trail| - 1 {
        assert Edge(g, trail[j], trail[j + 1]);
      }
    }
    assert Walk(g, w) && w[0] in roots && w[i] == w[|w| - 1];
  }

  /** In a sound world the only possible rejection is a cycle, and the rejected trail exhibits it. */
  lemma {:induction false} SoundRejectionIsCycle(
      setup: Setup, base: BaseLoader, universe: set<string>, selected: seq<string>, roots: seq<string>,
      canonical: CanonicalTable, flows: FlowTable, hops: Hops, trail: seq<string>, v: Violation)
    requires SoundWorld(setup, base, universe, selected) && TablesFrom(base, canonical, flows)
    requires Justified(setup, selected, roots, canonical, flows, hops, trail, v)
    ensures v.code == ActiveCycle
    ensures trail != [] && ReachableCycle(WorldGraph(setup.rules, base, universe), {trail[0]})
    ensures trail[0] in roots
    ensures ClosesOnTrail(WorldGraph(setup.rules, base, universe), Elements(roots), trail, v.chain)
  {
    hide ChainLink, CallSite, LinkProblem, ClosesOnTrail, Walk, WorldLink, RootsRecorded;
    hide HopsGenuine, WorldGraph, Confined, ChainAlong, EdgeOf, LinkTarget, PathViolation, FlowLinks, Clear;
    hide FlowProblem, ReachableCycle;
    if trail != [] {
      var n := trail[|trail| - 1];
      RootInUniverse(base, universe, selected, canonical, flows, roots, |roots| - 1);
      var k := RefusingLink(setup, base, universe, canonical, flows, hops, trail, v);
      var chain := v.chain[..|trail| - 1];
      TrailWalks(setup, base, universe, canonical, flows, hops, trail, chain, |trail|);
      assert trail[..|trail|] == trail;
      var link := FlowLinks(flows[n].value)[k];
      assert SoundFlow(setup, base, n);
      var target := base.canonical(0, LinkTarget(setup.rules, n, link)).value;
      WorldStep(setup.rules, base, universe, n, k, target);
      ClosingTrailIsCycle(WorldGraph(setup.rules, base, universe), {trail[0]}, trail, target);
      RefusedTrailCloses(WorldGraph(setup.rules, base, universe), Elements(roots), setup.rules, hops, trail, v.chain,
                         link, target);
    }
  }

  /** The call site leads from the last flow of the trail back to a flow that is on it. */
  ghost predicate ReturnsTo(g: Graph, trail: seq<string>, chain: seq<GraphEdge>, back: string)
    requires trail != [] && chain != []
  {
    back in trail && Edge(g, trail[|trail| - 1], back) && (back != "" ==> chain[|chain| - 1].to == back)
  }

  /** The chain runs along a walk of distinct flows from a root, and its last call site returns to one of
      them. A flow with an empty name is reported by the path that was asked for. */
  ghost predicate ClosesOnTrail(g: Graph, roots: set<string>, trail: seq<string>, chain: seq<GraphEdge>) {
    && trail != [] && trail[0] in roots && Walk(g, trail) && Distinct(trail) && |chain| == |trail|
    && (forall i :: 0 <= i < |trail| ==> chain[i].from == trail[i])
    && (forall i :: 0 <= i < |trail| - 1 ==> trail[i + 1] != "" ==> chain[i].to == trail[i + 1])
    && exists back :: ReturnsTo(g, trail, chain, back)
  }

  lemma RefusedTrailCloses(g: Graph, roots: set<string>, rules: PathRules, hops: Hops, trail: seq<string>,
                           chain: seq<GraphEdge>,
                           link: FileLink, target: string)
    requires trail != [] && trail[0] in roots && Walk(g, trail) && Distinct(trail) && |chain| == |trail|
    requires ChainAlong(rules, hops, trail, chain[..|trail| - 1])
    requires chain[|trail| - 1] == CallSite(rules, trail[|trail| - 1], link, Success(target))
    requires Edge(g, trail[|trail| - 1], target) && target in trail
    ensures ClosesOnTrail(g, roots, trail, chain)
  {
    hide ChainAlong, CallSite, Walk, Distinct, Edge;
    ChainNamesTrail(rules, hops, trail, chain[..|trail| - 1]);
    CallSiteNamesTarget(rules, trail[|trail| - 1], link, target);
    assert ReturnsTo(g, trail, chain, target);
    forall i | 0 <= i < |trail|
      ensures chain[i].from == trail[i] && (i < |trail| - 1 && trail[i + 1] != "" ==> chain[i].to == trail[i + 1])
    {
      if i < |trail| - 1 {
        assert chain[i] == chain[..|trail| - 1][i];
      }
    }
  }

  lemma ChainNamesTrail(rules: PathRules, hops: Hops, trail: seq<string>, chain: seq<GraphEdge>)
    requires ChainAlong(rules, hops, trail, chain)
    ensures forall i :: 0 <= i < |chain| ==> chain[i].from == trail[i]
    ensures forall i :: 0 <= i < |chain| ==> trail[i + 1] != "" ==> chain[i].to == trail[i + 1]
  {
    hide LinkTarget;
    forall i | 0 <= i < |chain|
      ensures chain[i].from == trail[i] && (trail[i + 1] != "" ==> chain[i].to == trail[i + 1])
    {
      assert ChainLink(rules, hops, trail[i], trail[i + 1], chain[i]);
    }
  }

  lemma CallSiteNamesTarget(rules: PathRules, from: string, link: FileLink, target: string)
    ensures CallSite(rules, from, link, Success(target)).from == from
    ensures target != "" ==> CallSite(rules, from, link, Success(target)).to == target
  {
    hide LinkTarget;
  }

  lemma WorldStep(rules: PathRules, base: BaseLoader, universe: set<string>, n: string, k: nat, target: string)
    requires n in universe && Confined(base, universe) && WorldLink(rules, base, n, k, target)
    ensures Edge(WorldGraph(rules, base, universe), n, target)
  {
  }

  lemma RootInUniverse(base: BaseLoader, universe: set<string>, selected: seq<string>, canonical: CanonicalTable,
                       flows: FlowTable, roots: seq<string>, i: nat)
    requires TablesFrom(base, canonical, flows) && Confined(base, universe) && RootsRecorded(selected, canonical, roots)
    requires i < |roots|
    ensures roots[i] in universe
  {
    assert canonical[selected[i]] == base.canonical(0, selected[i]);
  }

  lemma {:induction false} RefusingLink(setup: Setup, base: BaseLoader, universe: set<string>,
                                        canonical: CanonicalTable,
                                        flows: FlowTable, hops: Hops, trail: seq<string>, v: Violation) returns (k: nat)
    requires (forall p :: p in universe ==> SoundFlow(setup, base, p)) && TablesFrom(base, canonical, flows)
    requires Confined(base, universe) && HopsGenuine(setup.rules, canonical, flows, hops)
    requires trail != [] && trail[0] in universe
    requires FlowRefused(setup, flows, hops, trail, v)
             || exists k :: LinkRefused(setup.rules, canonical, flows, hops, trail, k, v)
    ensures LinkRefused(setup.rules, canonical, flows, hops, trail, k, v)
    ensures v.code == ActiveCycle
    ensures var n := trail[|trail| - 1];
            && WorldLink(setup.rules, base, n, k,
                         base.canonical(0, LinkTarget(setup.rules, n, FlowLinks(flows[n].value)[k])).value)
            && base.canonical(0, LinkTarget(setup.rules, n, FlowLinks(flows[n].value)[k])).value in trail
  {
    hide HopsGenuine, WorldGraph, Confined, ChainAlong, EdgeOf, LinkTarget, PathViolation, FlowLinks;
    var n := trail[|trail| - 1];
    if FlowRefused(setup, flows, hops, trail, v) {
      TrailWalks(setup, base, universe, canonical, flows, hops, trail, v.chain, |trail|);
      assert SoundFlow(setup, base, n);
      ProblemIgnoresName(setup, n, flows[n], v.chain);
      assert false;
    }
    k :| LinkRefused(setup.rules, canonical, flows, hops, trail, k, v);
    TrailWalks(setup, base, universe, canonical, flows, hops, trail, v.chain[..|trail| - 1], |trail|);
    assert SoundFlow(setup, base, n);
  }

  lemma ProblemIgnoresName(setup: Setup, path: string, answer: Result<Flow, LoadError>, chain: seq<GraphEdge>)
    requires answer.Success? && Clear(setup, answer.value)
    ensures FlowProblem(setup, path, answer, chain).None?
  {
    hide FlowViolation;
  }

  /** An accepted plan in a steady world has no reachable cycle. */
  lemma {:induction false} AcceptanceExcludesCycles(
      setup: Setup, base: BaseLoader, universe: set<string>, selected: seq<string>, canonical: CanonicalTable,
      flows: FlowTable, report: Report, hops: Hops, finish: seq<string>)
    requires Steady(base) && TablesFrom(base, canonical, flows)
    requires Accepted(setup, selected, canonical, flows, report, hops, finish)
    ensures !ReachableCycle(WorldGraph(setup.rules, base, universe), Elements(report.roots))
  {
    hide NodeAccepted, RootsRecorded, ChildrenFirst, Reachable, Successors, WorldGraph;
    var world := WorldGraph(setup.rules, base, universe);
    var g := Successors(hops);
    SuccessorNodes(hops);
    OrderedIsAcyclic(g, finish);
    OrderedIsClosed(g, finish);
    forall w, i | Walk(world, w) && w[0] in Elements(report.roots) && 0 <= i < |w| - 1
      ensures w[i] != w[|w| - 1]
    {
      WorldWalkIsFollowed(setup, base, universe, selected, canonical, flows, report, hops, finish, w);
      AcyclicWalkNeverReturns(g, w, i);
    }
  }

  lemma FollowedEdge(setup: Setup, base: BaseLoader, universe: set<string>, canonical: CanonicalTable, flows: FlowTable,
                     edges: seq<GraphEdge>, hops: Hops, from: string, to: string)
    requires TablesFrom(base, canonical, flows) && NodeAccepted(setup, canonical, flows, edges, hops, from)
    requires Edge(WorldGraph(setup.rules, base, universe), from, to)
    ensures Edge(Successors(hops), from, to)
  {
    hide Clear, ResourceHopOk, EdgesOf, FlowLinks, LinkTarget;
    var k: nat :| WorldLink(setup.rules, base, from, k, to);
    assert HopRecorded(setup.rules, canonical, from, hops[from][k]);
    assert hops[from][k].target == to;
  }

  lemma {:induction false} WorldWalkIsFollowed(
      setup: Setup, base: BaseLoader, universe: set<string>, selected: seq<string>, canonical: CanonicalTable,
      flows: FlowTable, report: Report, hops: Hops, finish: seq<string>, w: seq<string>)
    requires Steady(base) && TablesFrom(base, canonical, flows)
    requires Accepted(setup, selected, canonical, flows, report, hops, finish)
    requires Walk(WorldGraph(setup.rules, base, universe), w) && w[0] in Elements(report.roots)
    ensures Walk(Successors(hops), w) && w[|w| - 1] in hops
    decreases |w|
  {
    hide NodeAccepted, RootsRecorded, ChildrenFirst, Reachable, WorldGraph, Steady, TablesFrom, Successors;
    var world := WorldGraph(setup.rules, base, universe);
    SuccessorNodes(hops);
    if |w| > 1 {
      var last := |w| - 1;
      var prefix := w[..last];
      forall i | 0 <= i < |prefix| - 1 ensures Edge(world, prefix[i], prefix[i + 1]) {
        assert Edge(world, w[i], w[i + 1]);
      }
      WorldWalkIsFollowed(setup, base, universe, selected, canonical, flows, report, hops, finish, prefix);
      assert Edge(world, w[last - 1], w[last]);
      FollowedEdge(setup, base, universe, canonical, flows, report.edges, hops, w[last - 1], w[last]);
      OrderedChildIsNode(Successors(hops), finish, w[last - 1], w[last]);
      forall i | 0 <= i < |w| - 1 ensures Edge(Successors(hops), w[i], w[i + 1]) {
        if i < last - 1 {
          assert Edge(Successors(hops), prefix[i], prefix[i + 1]);
        }
      }
    }
  }

  /** The canonical roots of a plan whose roots all resolve. */
  ghost function WorldRoots(base: BaseLoader, selected: seq<string>): set<string> {
    set i | 0 <= i < |selected| && base.canonical(0, selected[i]).Success? :: base.canonical(0, selected[i]).value
  }

  lemma {:induction false} RecordedRoots(base: BaseLoader, selected: seq<string>, canonical: CanonicalTable,
                                         flows: FlowTable,
                                         roots: seq<string>)
    requires TablesFrom(base, canonical, flows) && RootsRecorded(selected, canonical, roots)
    ensures Elements(roots) <= WorldRoots(base, selected)
    ensures |roots| == |selected| ==> Elements(roots) == WorldRoots(base, selected)
  {
    forall i | 0 <= i < |roots| ensures base.canonical(0, selected[i]) == Success(roots[i]) {
      assert canonical[selected[i]] == base.canonical(0, selected[i]);
    }
  }

  /** A followed flow link is a link of the world. */
  lemma FollowedIsWorldEdge(setup: Setup, base: BaseLoader, universe: set<string>, canonical: CanonicalTable,
                            flows: FlowTable,
                            edges: seq<GraphEdge>, hops: Hops, from: string, to: string)
    requires TablesFrom(base, canonical, flows) && Confined(base, universe) && from in universe
    requires NodeAccepted(setup, canonical, flows, edges, hops, from) && Edge(Successors(hops), from, to)
    ensures Edge(WorldGraph(setup.rules, base, universe), from, to) && to in universe
  {
    hide Clear, ResourceHopOk, EdgesOf, FlowLinks, LinkTarget;
    SuccessorEdge(hops, from, to);
    var k :| 0 <= k < |hops[from]| && hops[from][k].link.kind.FlowLink? && hops[from][k].target == to;
    assert HopRecorded(setup.rules, canonical, from, hops[from][k]);
    assert WorldLink(setup.rules, base, from, k, to);
  }

  lemma {:induction false} FollowedWalkIsWorldWalk(
      setup: Setup, base: BaseLoader, universe: set<string>, selected: seq<string>, canonical: CanonicalTable,
      flows: FlowTable, report: Report, hops: Hops, finish: seq<string>, w: seq<string>)
    requires Confined(base, universe) && TablesFrom(base, canonical, flows)
    requires Accepted(setup, selected, canonical, flows, report, hops, finish)
    requires Walk(Successors(hops), w) && w[0] in Elements(report.roots) && w[0] in universe
    ensures Walk(WorldGraph(setup.rules, base, universe), w) && w[|w| - 1] in universe
    decreases |w|
  {
    hide NodeAccepted, RootsRecorded, ChildrenFirst, Reachable, WorldGraph, TablesFrom, Successors, Confined;
    var world := WorldGraph(setup.rules, base, universe);
    SuccessorNodes(hops);
    if |w| > 1 {
      var last := |w| - 1;
      var prefix := w[..last];
      forall i | 0 <= i < |prefix| - 1 ensures Edge(Successors(hops), prefix[i], prefix[i + 1]) {
        assert Edge(Successors(hops), w[i], w[i + 1]);
      }
      FollowedWalkIsWorldWalk(setup, base, universe, selected, canonical, flows, report, hops, finish, prefix);
      assert Edge(Successors(hops), w[last - 1], w[last]);
      FollowedIsWorldEdge(setup, base, universe, canonical, flows, report.edges, hops, w[last - 1], w[last]);
      forall i | 0 <= i < |w| - 1 ensures Edge(world, w[i], w[i + 1]) {
        if i < last - 1 {
          assert Edge(world, prefix[i], prefix[i + 1]);
        }
      }
    }
  }

  /** With a steady loader, the nodes of an accepted report are exactly the flows that the files themselves
      reach from the roots. */
  lemma {:induction false} NodesAreTheWorldsFlows(
      setup: Setup, base: BaseLoader, universe: set<string>, selected: seq<string>, canonical: CanonicalTable,
      flows: FlowTable, report: Report, hops: Hops, finish: seq<string>, p: string)
    requires Steady(base) && Confined(base, universe) && TablesFrom(base, canonical, flows)
    requires Accepted(setup, selected, canonical, flows, report, hops, finish)
    ensures p in report.nodes <==> Reachable(WorldGraph(setup.rules, base, universe), Elements(report.roots), p)
  {
    hide Accepted, RootsRecorded, TablesFrom, Confined, Successors, WorldGraph, Steady;
    var world := WorldGraph(setup.rules, base, universe);
    AcceptedRoots(setup, selected, canonical, flows, report, hops, finish);
    NodesAreTheReachableFlows(setup, selected, canonical, flows, report, hops, finish, p);
    if Reachable(Successors(hops), Elements(report.roots), p) {
      var w :| Walk(Successors(hops), w) && w[0] in Elements(report.roots) && w[|w| - 1] == p;
      var i :| 0 <= i < |report.roots| && report.roots[i] == w[0];
      RootInUniverse(base, universe, selected, canonical, flows, report.roots, i);
      FollowedWalkIsWorldWalk(setup, base, universe, selected, canonical, flows, report, hops, finish, w);
    }
    if Reachable(world, Elements(report.roots), p) {
      var w :| Walk(world, w) && w[0] in Elements(report.roots) && w[|w| - 1] == p;
      WorldWalkIsFollowed(setup, base, universe, selected, canonical, flows, report, hops, finish, w);
    }
  }

  /** Preflight of a plan that can only fail by a cycle: it is rejected exactly when the flows reachable
      from the roots contain one, with the cycle code and a chain that closes on its own trail; otherwise
      the report lists exactly the reachable flows. */
  method CheckFindsCycles(setup: Setup, base: BaseLoader, selected: seq<string>, ghost universe: set<string>)
    returns (report: Report, rejection: Option<Violation>, ghost trail: seq<string>)
    requires SetupOk(setup) && selected != [] && SoundWorld(setup, base, universe, selected)
    ensures rejection.Some? <==> ReachableCycle(WorldGraph(setup.rules, base, universe), WorldRoots(base, selected))
    ensures rejection.Some? ==>
              && rejection.value.code == ActiveCycle
              && ClosesOnTrail(WorldGraph(setup.rules, base, universe), WorldRoots(base, selected), trail,
                               rejection.value.chain)
    ensures rejection.None? ==> forall p ::
              p in report.nodes <==> Reachable(WorldGraph(setup.rules, base, universe), WorldRoots(base, selected), p)
  {
    hide Accepted, Justified, SoundFlow, WorldGraph, Recorder.Valid, SetupOk, Reachable, ClosesOnTrail;
    SetupIsValid(setup);
    var recorder := new Recorder(base);
    var error: Option<CheckError>;
    ghost var hops: Hops;
    ghost var finish: seq<string>;
    report, error, hops, finish, trail := Check(setup, recorder, selected, universe);
    RecorderTables(recorder);
    if error.Some? {
      rejection := Some(error.value.violation);
      JustifiedRoots(setup, selected, report.roots, recorder.canonical, recorder.flows, hops, trail,
                     error.value.violation);
      RecordedRoots(base, selected, recorder.canonical, recorder.flows, report.roots);
      SoundRejectionIsCycle(setup, base, universe, selected, report.roots, recorder.canonical, recorder.flows, hops,
                            trail,
                            error.value.violation);
      ClosesFromMoreRoots(WorldGraph(setup.rules, base, universe), Elements(report.roots), WorldRoots(base, selected),
                          trail,
                          error.value.violation.chain);
      assert trail[0] in Elements(report.roots);
    } else {
      rejection := None;
      AcceptedRoots(setup, selected, recorder.canonical, recorder.flows, report, hops, finish);
      RecordedRoots(base, selected, recorder.canonical, recorder.flows, report.roots);
      AcceptanceExcludesCycles(setup, base, universe, selected, recorder.canonical, recorder.flows, report, hops,
                               finish);
      forall p
        ensures p in report.nodes <==> Reachable(WorldGraph(setup.rules, base, universe), WorldRoots(base, selected), p)
      {
        NodesAreTheWorldsFlows(setup, base, universe, selected, recorder.canonical, recorder.flows, report, hops,
                               finish, p);
      }
    }
  }

  lemma ClosesFromMoreRoots(g: Graph, roots: set<string>, more: set<string>, trail: seq<string>, chain: seq<GraphEdge>)
    requires ClosesOnTrail(g, roots, trail, chain) && roots <= more
    ensures ClosesOnTrail(g, more, trail, chain)
  {
  }

  lemma SetupIsValid(setup: Setup)
    requires SetupOk(setup)
    ensures Registry.ValidCatalog(setup.catalog, setup.required)
  {
  }

  lemma JustifiedRoots(setup: Setup, selected: seq<string>, roots: seq<string>, canonical: CanonicalTable,
                       flows: FlowTable,
                       hops: Hops, trail: seq<string>, v: Violation)
    requires Justified(setup, selected, roots, canonical, flows, hops, trail, v)
    ensures RootsRecorded(selected, canonical, roots)
  {
  }

  lemma AcceptedRoots(setup: Setup, selected: seq<string>, canonical: CanonicalTable, flows: FlowTable,
                      report: Report, hops: Hops, finish: seq<string>)
    requires Accepted(setup, selected, canonical, flows, report, hops, finish)
    ensures RootsRecorded(selected, canonical, report.roots) && |report.roots| == |selected|
  {
  }
}
