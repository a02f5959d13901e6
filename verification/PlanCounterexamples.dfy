/** Plans that preflight accepts and the engine then gets wrong or refuses: the inputs that the exact
    conditions on link resolution and on canonical paths shut out. */
module PlanCounterexamples {
  import opened Wrappers
  import opened Sequences
  import opened FlowModel
  import opened Registry
  import opened Inspection
  import opened FlowGraphs
  import opened RecordingLoader
  import opened DepthFirst
  import opened Preflight
  import opened PreflightTheorems
  import opened Programs
  import opened Compilation
  import opened Compiler
  import opened FailClosed

  // ---------------------------------------------------------------------------
  // A setup with a single feature
  // ---------------------------------------------------------------------------

  const HERE := SourceInfo("", 1, 1)

  const RULES := PathRules((path: string) => path, (path: string) => "", (dir: string, path: string) => path,
                           (path: string) => false)

  const RUN_FLOW := Entry(CommandFeature, "runFlow", Parseable, PlannedV1, ["all-hosts"], "")

  function SetupWith(tables: DriverTables): Setup {
    Setup(RULES, Catalog(REGISTRY_VERSION_V0, [RUN_FLOW]), {(CommandFeature, "runFlow")}, tables, None)
  }

  lemma SetupIsOk(tables: DriverTables)
    ensures SetupOk(SetupWith(tables))
    ensures Supported(SetupWith(tables).catalog, CommandFeature, "runFlow", None)
  {
    var entries := SetupWith(tables).catalog.entries;
    assert entries == [RUN_FLOW];
    assert !IsSpace(RUN_FLOW.name[0]);
    assert CoherentEntry(RUN_FLOW);
    assert KeyOf(entries[0]) == (CommandFeature, "runFlow");
    assert RUN_FLOW in entries;
  }

  function FlowOf(commands: seq<Command>): Flow {
    Flow(AST_VERSION_V0, Config("", [], [], [], HERE, map[]), commands, HERE)
  }

  function Linking(links: seq<FileLink>): Command {
    Command("runFlow", OtherArguments, None, None, [], links, HERE)
  }

  /** A flow without commands, and one with a single linking command, pass inspection. */
  lemma FlowsAreClear(tables: DriverTables, links: seq<FileLink>)
    ensures Clear(SetupWith(tables), FlowOf([])) && FlowLinks(FlowOf([])) == []
    ensures Clear(SetupWith(tables), FlowOf([Linking(links)])) && FlowLinks(FlowOf([Linking(links)])) == links
  {
    hide SetupOk, Supported, FlowViolation;
    var setup := SetupWith(tables);
    SetupIsOk(tables);
    assert AllCommands(FlowOf([])) == [] && AllCommands(FlowOf([Linking(links)])) == [Linking(links)];
    forall place | Addresses([Linking(links)], place)
      ensures CommandSupported(CommandAt([Linking(links)], place), setup.catalog, tables, None)
    {
      assert |place| > 1 ==> Addresses(Linking(links).children, place[1..]);
      assert place[0] == 0 && |place| == 1;
    }
    ClearExactlyWhenSupported(setup, FlowOf([]));
    ClearExactlyWhenSupported(setup, FlowOf([Linking(links)]));
    LinksOfFirst(Linking(links), []);
    assert [Linking(links)] + [] == [Linking(links)];
  }

  // ---------------------------------------------------------------------------
  // A resolved path of white space
  // ---------------------------------------------------------------------------

  const SPACED := FileLink(FlowLink, "own", " ", HERE)
  const PLAIN := FileLink(FlowLink, "own", "", HERE)

  /** A loader for which white space and "own" name two different flows, and everything else the root. */
  function SpacedLoader(): BaseLoader {
    BaseLoader(
      (t: nat, path: string) => Success(if path == " " then "A" else if path == "own" then "B" else "R"),
      (t: nat, path: string) => Success(FlowOf(if path == "R" then [Linking([SPACED, PLAIN])] else [])))
  }

  ghost const THREE: set<string> := {"R", "A", "B"}

  lemma Names()
    ensures "R" != "A" && "R" != "B" && "A" != "B" && " " != "own" && "own" != ""
    ensures !Blank("R") && !Blank("own") && Blank(" ")
  {
    assert "R"[0] != "A"[0] && "R"[0] != "B"[0] && "A"[0] != "B"[0];
    assert !IsSpace("R"[0]) && !IsSpace("own"[0]);
    assert "\t\n\U{B}\U{C}\r "[5] == ' ';
  }

  lemma SpacedWorldIsSound(tables: DriverTables)
    ensures SoundWorld(SetupWith(tables), SpacedLoader(), THREE, ["R"])
  {
    hide Clear, FlowLinks, Blank;
    FlowsAreClear(tables, [SPACED, PLAIN]);
    Names();
  }

  lemma SpacedWorldHasNoCycle()
    ensures !ReachableCycle(WorldGraph(RULES, SpacedLoader(), THREE), WorldRoots(SpacedLoader(), ["R"]))
  {
    var base := SpacedLoader();
    var g := WorldGraph(RULES, base, THREE);
    SpacedLinks();
    hide WorldLink;
    forall w, i | Walk(g, w) && 0 <= i < |w| - 1 ensures w[i] != w[|w| - 1] {
      assert Edge(g, w[0], w[1]);
      assert |w| > 2 ==> Edge(g, w[1], w[2]);
    }
  }

  lemma SpacedLinks()
    ensures forall p, k, to :: WorldLink(RULES, SpacedLoader(), p, k, to) ==> p == "R" && to != "R"
  {
    Names();
    var flow := FlowOf([Linking([SPACED, PLAIN])]);
    FlowsAreClear(SomeTables(), [SPACED, PLAIN]);
    assert FlowLinks(flow) == [SPACED, PLAIN];
  }

  function SomeTables(): DriverTables {
    DriverTables((text: string) => false, (text: string) => None, (text: string) => false, (name: string) => [],
                 (name: string, value: string) => [])
  }

  /** Preparing the plan succeeds. */
  method PrepareSpacedPlan(tables: DriverTables) returns (program: Program, ghost p: Preparation)
    ensures p.program == program && p.setup == SetupWith(tables)
    ensures Prepared(p.setup, p.selected, p.canonical, p.flows, program, p.hops, p.finish)
    ensures TablesFrom(SpacedLoader(), p.canonical, p.flows) && "R" in p.hops
  {
    hide Prepared, SoundWorld, SetupOk, ReachableCycle, TablesFrom;
    SetupIsOk(tables);
    SpacedWorldIsSound(tables);
    SpacedWorldHasNoCycle();
    var result, canonical, flows, hops, finish := PrepareSoundPlan(SetupWith(tables), SpacedLoader(), ["R"], THREE);
    program := result.value;
    p := Preparation(SetupWith(tables), ["R"], canonical, flows, program, hops, finish,
                     (command: Command) => LinksAFlow);
    RootIsFollowed(p);
  }

  lemma RootIsFollowed(p: Preparation)
    requires Prepared(p.setup, p.selected, p.canonical, p.flows, p.program, p.hops, p.finish) && p.selected == ["R"]
    requires TablesFrom(SpacedLoader(), p.canonical, p.flows)
    ensures "R" in p.hops
  {
    hide NodeAccepted, ChildrenFirst, Reachable, FlowLinks;
    var report := p.program.graph;
    assert p.selected[0] == "R" && p.canonical[p.selected[0]] == Success(report.roots[0]);
    assert p.canonical["R"] == SpacedLoader().canonical(0, "R");
    assert report.roots[0] == "R" && report.roots[0] in Elements(report.roots);
  }

  lemma FollowedLinks(tables: DriverTables, p: Preparation)
    requires Prepared(p.setup, p.selected, p.canonical, p.flows, p.program, p.hops, p.finish)
    requires p.setup == SetupWith(tables)
    requires TablesFrom(SpacedLoader(), p.canonical, p.flows) && "R" in p.hops
    ensures |p.hops["R"]| == 2 && p.hops["R"][0] == Hop(SPACED, "A") && p.hops["R"][1] == Hop(PLAIN, "B")
    ensures "own" in p.canonical && p.canonical["own"] == Success("B")
    ensures "B" in p.program.flows
  {
    hide Clear, ChildrenFirst, Reachable, FlowLinks, EdgesOf, ResourceHopOk;
    FlowsAreClear(tables, [SPACED, PLAIN]);
    Names();
    assert NodeAccepted(p.setup, p.canonical, p.flows, p.program.graph.edges, p.hops, "R");
    assert p.flows["R"] == SpacedLoader().load(0, "R");
    assert HopRecorded(RULES, p.canonical, "R", p.hops["R"][0]) && HopRecorded(RULES, p.canonical, "R", p.hops["R"][1]);
    assert p.canonical[" "] == SpacedLoader().canonical(0, " ")
        && p.canonical["own"] == SpacedLoader().canonical(0, "own");
    FollowedTargetIsPrepared(p, 1);
  }

  lemma FollowedTargetIsPrepared(p: Preparation, k: nat)
    requires Prepared(p.setup, p.selected, p.canonical, p.flows, p.program, p.hops, p.finish)
    requires "R" in p.hops && k < |p.hops["R"]| && p.hops["R"][k].link.kind.FlowLink?
    ensures p.hops["R"][k].target in p.program.flows
  {
    hide NodeAccepted, Reachable, RootsRecorded;
    assert FlowHop(p.hops, "R", p.hops["R"][k].target);
    SuccessorEdge(p.hops, "R", p.hops["R"][k].target);
    OrderedChildIsNode(Successors(p.hops), p.finish, "R", p.hops["R"][k].target);
    SuccessorNodes(p.hops);
  }

  /** A prepared program misresolves: preflight followed the link to flow A, and the engine resolves it to
      flow B. */
  method WhiteSpaceLinkMisresolves(tables: DriverTables)
    returns (program: Program, resolved: Result<string, ResolveError>, ghost p: Preparation)
    ensures p.program == program && p.setup == SetupWith(tables)
    ensures Prepared(p.setup, p.selected, p.canonical, p.flows, program, p.hops, p.finish)
    ensures "R" in p.hops && |p.hops["R"]| > 0 && p.hops["R"][0] == Hop(SPACED, "A")
    ensures resolved == LinkResolution(RULES, program, "R", SPACED) == Success("B")
  {
    hide Prepared, TablesFrom;
    program, p := PrepareSpacedPlan(tables);
    FollowedLinks(tables, p);
    OwnAlias(p);
    ResolvesToB(program);
    resolved := ResolveFlowLink(RULES, program, "R", SPACED);
  }

  lemma OwnAlias(p: Preparation)
    requires Prepared(p.setup, p.selected, p.canonical, p.flows, p.program, p.hops, p.finish)
    requires "own" in p.canonical && p.canonical["own"] == Success("B")
    ensures "own" in p.program.aliases && p.program.aliases["own"] == "B"
  {
    hide Accepted;
    assert !IsSpace("B"[0]);
  }

  lemma ResolvesToB(program: Program)
    requires "own" in program.aliases && program.aliases["own"] == "B" && "B" in program.flows
    ensures LinkResolution(RULES, program, "R", SPACED) == Success("B")
  {
    hide Blank;
    Names();
    assert TargetsOfLink(RULES, "R", SPACED) == ["own"];
    assert ["own"][..0] == [];
    assert ResolveTargets(RULES, program, ["own"]) == Success("B");
  }

  // ---------------------------------------------------------------------------
  // A blank canonical path
  // ---------------------------------------------------------------------------

  /** A loader that knows a single flow, by a blank name. */
  function BlankLoader(): BaseLoader {
    BaseLoader((t: nat, path: string) => Success(" "), (t: nat, path: string) => Success(FlowOf([])))
  }

  lemma BlankWorldIsSound(tables: DriverTables)
    ensures SoundWorld(SetupWith(tables), BlankLoader(), {" "}, ["R"])
    ensures !ReachableCycle(WorldGraph(RULES, BlankLoader(), {" "}), WorldRoots(BlankLoader(), ["R"]))
  {
    hide Clear, FlowLinks;
    FlowsAreClear(tables, []);
    var g := WorldGraph(RULES, BlankLoader(), {" "});
    assert forall p, k, to :: !WorldLink(RULES, BlankLoader(), p, k, to);
    forall w | Walk(g, w) ensures |w| <= 1 {
      assert |w| > 1 ==> Edge(g, w[0], w[1]);
    }
  }

  /** A prepared program with a blank path, which the compiler then refuses. */
  method BlankPathIsRefused(tables: DriverTables)
    returns (program: Program, error: Option<OrderError>, ghost p: Preparation)
    ensures p.program == program && p.setup == SetupWith(tables)
    ensures Prepared(p.setup, p.selected, p.canonical, p.flows, program, p.hops, p.finish) && !NoBlankPaths(program)
    ensures error.Some?
  {
    hide Prepared, SoundWorld, SetupOk, ReachableCycle, TablesFrom, NoBlankPaths, WellFormed, Acyclic;
    SetupIsOk(tables);
    BlankWorldIsSound(tables);
    var result, canonical, flows, hops, finish := PrepareSoundPlan(SetupWith(tables), BlankLoader(), ["R"], {" "});
    program := result.value;
    p := Preparation(SetupWith(tables), ["R"], canonical, flows, program, hops, finish,
                     (command: Command) => LinksAFlow);
    BlankPathIsListed(p);
    PreparedIsWellFormed(p);
    var order, children;
    error, order, children := PreparedFlowOrder(program);
  }

  lemma BlankPathIsListed(p: Preparation)
    requires Prepared(p.setup, p.selected, p.canonical, p.flows, p.program, p.hops, p.finish) && p.selected == ["R"]
    requires TablesFrom(BlankLoader(), p.canonical, p.flows)
    ensures !NoBlankPaths(p.program)
  {
    hide NodeAccepted, ChildrenFirst, Reachable, Blank;
    Names();
    var report := p.program.graph;
    assert p.selected[0] == "R" && p.canonical[p.selected[0]] == Success(report.roots[0]);
    assert p.canonical["R"] == BlankLoader().canonical(0, "R");
    assert report.roots[0] == " " && report.roots[0] in Elements(report.roots);
    assert " " in Elements(report.nodes);
    var i :| 0 <= i < |report.nodes| && report.nodes[i] == " ";
    assert Blank(p.program.paths[i]);
  }
}
