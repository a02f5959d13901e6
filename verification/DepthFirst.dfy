/** The state of the iterative three-colour search over flows, its invariant, and its transitions. */
module DepthFirst {
  import opened Wrappers
  import opened Sequences
  import opened FlowModel
  import opened Inspection
  import opened FlowGraphs

  /** A followed link together with the canonical path it led to. */
  datatype Hop = Hop(link: FileLink, target: string)

  type Hops = map<string, seq<Hop>>

  datatype Color = Gray | Black

  datatype Frame = Frame(path: string, incoming: Option<GraphEdge>, entered: bool, links: seq<FileLink>, nextLink: nat)

  /** The search state. A flow without a colour is white. `hops` and `finish` are history:
      the links followed from each flow, and the flows in the order they turned black. */
  datatype Search = Search(
    colors: map<string, Color>,
    loaded: map<string, Flow>,
    nodes: seq<string>,
    edges: seq<GraphEdge>,
    stack: seq<Frame>,
    hops: Hops,
    finish: seq<string>)

  function EdgeOf(rules: PathRules, from: string, hop: Hop): GraphEdge {
    GraphEdge(from, if hop.target == "" then rules.clean(LinkTarget(rules, from, hop.link)) else hop.target,
              hop.link.kind, hop.link.source)
  }

  /** The recorded call sites of one flow, in report order. */
  function EdgesFrom(edges: seq<GraphEdge>, from: string): seq<GraphEdge> {
    if edges == [] then []
    else
      var last := edges[|edges| - 1];
      EdgesFrom(edges[..|edges| - 1], from) + (if last.from == from then [last] else [])
  }

  lemma EdgesFromAppend(edges: seq<GraphEdge>, edge: GraphEdge, from: string)
    ensures EdgesFrom(edges + [edge], from) == EdgesFrom(edges, from) + (if edge.from == from then [edge] else [])
  {
    assert (edges + [edge])[..|edges|] == edges;
  }

  lemma NoEdgesFrom(edges: seq<GraphEdge>, from: string)
    requires forall i :: 0 <= i < |edges| ==> edges[i].from != from
    ensures EdgesFrom(edges, from) == []
  {
  }

  // ---------------------------------------------------------------------------
  // Transitions
  // ---------------------------------------------------------------------------

  ghost function Top(s: Search): Frame
    requires s.stack != []
  {
    s.stack[|s.stack| - 1]
  }

  /** The top flow is loaded, listed and painted gray. */
  ghost function Enter(s: Search, flow: Flow): Search
    requires s.stack != []
  {
    var f := Top(s);
    s.(colors := s.colors[f.path := Gray],
       loaded := s.loaded[f.path := flow],
       nodes := s.nodes + [f.path],
       stack := s.stack[|s.stack| - 1 := f.(entered := true, links := FlowLinks(flow))],
       hops := s.hops[f.path := []])
  }

  /** The top flow has no links left; it turns black and leaves the stack. */
  ghost function Retire(s: Search): Search
    requires s.stack != []
  {
    s.(colors := s.colors[Top(s).path := Black],
       stack := s.stack[..|s.stack| - 1],
       finish := s.finish + [Top(s).path])
  }

  /** The next link of the top flow is followed to `target` and recorded. */
  ghost function Follow(s: Search, rules: PathRules, target: string): Search
    requires s.stack != [] && Top(s).nextLink < |Top(s).links| && Top(s).path in s.hops
  {
    var f := Top(s);
    var hop := Hop(f.links[f.nextLink], target);
    s.(edges := s.edges + [EdgeOf(rules, f.path, hop)],
       stack := s.stack[|s.stack| - 1 := f.(nextLink := f.nextLink + 1)],
       hops := s.hops[f.path := s.hops[f.path] + [hop]])
  }

  /** A white target is pushed, to be entered in the next round. */
  ghost function Descend(s: Search, target: string, edge: GraphEdge): Search {
    s.(stack := s.stack + [Frame(target, Some(edge), false, [], 0)])
  }

  // ---------------------------------------------------------------------------
  // Invariant
  // ---------------------------------------------------------------------------

  ghost predicate KeysAgree(s: Search) {
    && Distinct(s.nodes)
    && Elements(s.nodes) == s.colors.Keys == s.loaded.Keys == s.hops.Keys
  }

  /** The frame at depth i is gray and entered, or it is a white one on top. */
  ghost predicate FrameOk(s: Search, i: nat)
    requires i < |s.stack|
  {
    var f := s.stack[i];
    && (i < |s.stack| - 1 ==> f.entered)
    && (f.entered ==>
          && f.path in s.colors && s.colors[f.path] == Gray
          && f.path in s.loaded && f.links == FlowLinks(s.loaded[f.path])
          && f.path in s.hops && |s.hops[f.path]| == f.nextLink <= |f.links|)
    && (!f.entered ==> f.path !in s.colors && f.links == [] && f.nextLink == 0)
  }

  /** The frame at depth i was reached by the latest hop of the frame below it. */
  ghost predicate FrameLinked(s: Search, rules: PathRules, i: nat)
    requires i < |s.stack|
  {
    if i == 0 then s.stack[0].incoming.None?
    else
      var below := s.stack[i - 1];
      && below.path in s.hops && s.hops[below.path] != []
      && var hop := s.hops[below.path][|s.hops[below.path]| - 1];
         && hop.link.kind.FlowLink? && hop.target == s.stack[i].path
         && s.stack[i].incoming == Some(EdgeOf(rules, below.path, hop))
  }

  ghost predicate StackOk(s: Search, rules: PathRules) {
    && (forall i :: 0 <= i < |s.stack| ==> FrameOk(s, i) && FrameLinked(s, rules, i))
    && (forall i, j :: 0 <= i < j < |s.stack| ==> s.stack[i].path != s.stack[j].path)
    && (forall p :: p in s.colors && s.colors[p] == Gray ==> exists i :: 0 <= i < |s.stack| && s.stack[i].path == p)
  }

  /** Where hop k of flow p stands: settled below p in finish order, or under exploration right above p. */
  ghost predicate HopSettled(s: Search, p: string, k: nat)
    requires p in s.hops && k < |s.hops[p]|
  {
    var hop := s.hops[p][k];
    hop.link.kind.FlowLink? ==>
      if p in s.colors && s.colors[p] == Black then Precedes(s.finish, hop.target, p)
      else hop.target in s.finish || OnTopOf(s, p, k)
  }

  /** Hop k is the latest of gray flow p, and its target is the next frame up. */
  ghost predicate OnTopOf(s: Search, p: string, k: nat)
    requires p in s.hops && k < |s.hops[p]|
  {
    k == |s.hops[p]| - 1
    && exists i :: 0 <= i < |s.stack| - 1 && s.stack[i].path == p && s.stack[i + 1].path == s.hops[p][k].target
  }

  ghost predicate FinishOk(s: Search) {
    && Distinct(s.finish)
    && (forall p :: p in s.finish <==> p in s.colors && s.colors[p] == Black)
    && (forall p :: p in s.finish ==> p in s.hops && p in s.loaded && |s.hops[p]| == |FlowLinks(s.loaded[p])|)
    && (forall p, k :: p in s.hops && 0 <= k < |s.hops[p]| ==> HopSettled(s, p, k))
  }

  /** What preflight accepts of a hop that is not a flow link. */
  ghost predicate ResourceHopOk(p: string, hop: Hop) {
    !hop.link.kind.FlowLink? ==> hop.target != p && (hop.link.kind.ScriptLink? || hop.link.kind.MediaLink?)
  }

  /** The hops follow the first links of a flow, in order. */
  ghost predicate FollowsLinks(p: string, hops: seq<Hop>, links: seq<FileLink>) {
    && |hops| <= |links|
    && forall k :: 0 <= k < |hops| ==> hops[k].link == links[k] && ResourceHopOk(p, hops[k])
  }

  ghost predicate LinksFollowed(s: Search) {
    forall p :: p in s.hops ==> p in s.loaded && FollowsLinks(p, s.hops[p], FlowLinks(s.loaded[p]))
  }

  /** The report holds exactly one edge per followed link of each flow, in link order. */
  ghost predicate EdgesOf(rules: PathRules, edges: seq<GraphEdge>, p: string, hops: seq<Hop>) {
    && |EdgesFrom(edges, p)| == |hops|
    && forall k :: 0 <= k < |hops| ==> EdgesFrom(edges, p)[k] == EdgeOf(rules, p, hops[k])
  }

  ghost predicate EdgesAgree(rules: PathRules, edges: seq<GraphEdge>, hops: Hops) {
    && (forall p :: p in hops ==> EdgesOf(rules, edges, p, hops[p]))
    && (forall i :: 0 <= i < |edges| ==> edges[i].from in hops)
  }

  ghost predicate FlowHop(hops: Hops, from: string, to: string) {
    from in hops && exists k :: 0 <= k < |hops[from]| && hops[from][k].link.kind.FlowLink? && hops[from][k].target == to
  }

  /** The i-th listed flow is a root or was linked by a flow listed earlier. */
  ghost predicate DiscoveredAt(roots: set<string>, nodes: seq<string>, hops: Hops, i: nat)
    requires i < |nodes|
  {
    nodes[i] in roots || exists j :: 0 <= j < i && FlowHop(hops, nodes[j], nodes[i])
  }

  ghost predicate Discovered(s: Search, roots: set<string>) {
    && (forall i :: 0 <= i < |s.nodes| ==> DiscoveredAt(roots, s.nodes, s.hops, i))
    && (s.stack != [] ==> s.stack[0].path in roots)
  }

  ghost predicate Inv(s: Search, rules: PathRules, roots: set<string>) {
    KeysAgree(s) && StackOk(s, rules) && FinishOk(s) && LinksFollowed(s) && EdgesAgree(rules, s.edges, s.hops)
    && Discovered(s, roots)
  }

  // ---------------------------------------------------------------------------
  // Start
  // ---------------------------------------------------------------------------

  lemma EmptySearch(rules: PathRules)
    ensures Inv(Search(map[], map[], [], [], [], map[], []), rules, {})
  {
  }

  /** Between two roots the stack is empty; a white root becomes its only frame. */
  lemma StartRoot(s: Search, rules: PathRules, roots: set<string>, root: string)
    requires Inv(s, rules, roots) && s.stack == [] && root !in s.colors
    ensures Inv(s.(stack := [Frame(root, None, false, [], 0)]), rules, roots + {root})
  {
    var t := s.(stack := [Frame(root, None, false, [], 0)]);
    assert FinishOk(t) by {
      forall p, k | p in t.hops && 0 <= k < |t.hops[p]| ensures HopSettled(t, p, k) {
        assert HopSettled(s, p, k);
      }
    }
    MoreRoots(s, roots, root);
  }

  lemma MoreRoots(s: Search, roots: set<string>, root: string)
    requires Discovered(s, roots)
    ensures Discovered(s, roots + {root})
  {
    forall i | 0 <= i < |s.nodes| ensures DiscoveredAt(roots + {root}, s.nodes, s.hops, i) {
      assert DiscoveredAt(roots, s.nodes, s.hops, i);
    }
  }

  lemma KnownRoot(s: Search, rules: PathRules, roots: set<string>, root: string)
    requires Inv(s, rules, roots) && s.stack == []
    ensures Inv(s, rules, roots + {root})
  {
    MoreRoots(s, roots, root);
  }

  // ---------------------------------------------------------------------------
  // Enter
  // ---------------------------------------------------------------------------

  ghost predicate CanEnter(s: Search) {
    s.stack != [] && !Top(s).entered
  }

  lemma EnterFrame(s: Search, flow: Flow, i: nat)
    requires KeysAgree(s) && CanEnter(s) && i < |s.stack| && FrameOk(s, i) && FrameOk(s, |s.stack| - 1)
    requires i < |s.stack| - 1 ==> s.stack[i].path != Top(s).path
    ensures FrameOk(Enter(s, flow), i)
  {
  }

  lemma EnterLinked(s: Search, rules: PathRules, flow: Flow, i: nat)
    requires CanEnter(s) && i < |s.stack| && FrameLinked(s, rules, i)
    requires i > 0 ==> s.stack[i - 1].path != Top(s).path
    ensures FrameLinked(Enter(s, flow), rules, i)
  {
    hide EdgeOf;
  }

  lemma TopIsNew(s: Search)
    requires KeysAgree(s) && CanEnter(s) && FrameOk(s, |s.stack| - 1)
    ensures Top(s).path !in s.nodes
  {
  }

  lemma EnterKeys(s: Search, flow: Flow)
    requires KeysAgree(s) && CanEnter(s) && FrameOk(s, |s.stack| - 1)
    ensures KeysAgree(Enter(s, flow))
  {
    hide FlowLinks;
    TopIsNew(s);
    hide FrameOk;
    assert Elements(Enter(s, flow).nodes) == Elements(s.nodes) + {Top(s).path};
  }

  lemma EnterStack(s: Search, rules: PathRules, flow: Flow)
    requires KeysAgree(s) && StackOk(s, rules) && CanEnter(s)
    ensures StackOk(Enter(s, flow), rules) && KeysAgree(Enter(s, flow))
  {
    hide EdgeOf, FrameOk, FrameLinked, Elements, Distinct, FlowLinks;
    var t := Enter(s, flow);
    EnterKeys(s, flow);
    forall i | 0 <= i < |t.stack| ensures FrameOk(t, i) && FrameLinked(t, rules, i) {
      EnterFrame(s, flow, i);
      EnterLinked(s, rules, flow, i);
    }
    GrayStays(s, t, Top(s).path);
  }

  /** The gray flows stay on the stack when the stack keeps its paths. */
  lemma GrayStays(s: Search, t: Search, top: string)
    requires s.stack != [] && top == Top(s).path
    requires forall p :: p in s.colors && s.colors[p] == Gray ==> exists i :: 0 <= i < |s.stack| && s.stack[i].path == p
    requires |t.stack| == |s.stack| && forall i :: 0 <= i < |s.stack| ==> t.stack[i].path == s.stack[i].path
    requires t.colors == s.colors || t.colors == s.colors[top := Gray]
    ensures forall p :: p in t.colors && t.colors[p] == Gray ==> exists i :: 0 <= i < |t.stack| && t.stack[i].path == p
  {
    forall p | p in t.colors && t.colors[p] == Gray
      ensures exists i :: 0 <= i < |t.stack| && t.stack[i].path == p
    {
      if p == top {
        assert t.stack[|t.stack| - 1].path == p;
      } else {
        var i :| 0 <= i < |s.stack| && s.stack[i].path == p;
        assert t.stack[i].path == p;
      }
    }
  }

  lemma EnterHop(s: Search, flow: Flow, p: string, k: nat)
    requires CanEnter(s) && p in s.hops && k < |s.hops[p]| && p != Top(s).path && HopSettled(s, p, k)
    ensures HopSettled(Enter(s, flow), p, k)
  {
    var t := Enter(s, flow);
    if s.hops[p][k].link.kind.FlowLink? && OnTopOf(s, p, k) {
      var i :| 0 <= i < |s.stack| - 1 && s.stack[i].path == p && s.stack[i + 1].path == s.hops[p][k].target;
      assert t.stack[i].path == p && t.stack[i + 1].path == t.hops[p][k].target;
    }
  }

  lemma EnterFinish(s: Search, rules: PathRules, flow: Flow)
    requires KeysAgree(s) && StackOk(s, rules) && FinishOk(s) && CanEnter(s)
    ensures FinishOk(Enter(s, flow))
  {
    var t := Enter(s, flow);
    assert FrameOk(s, |s.stack| - 1);
    forall p, k | p in t.hops && 0 <= k < |t.hops[p]| ensures HopSettled(t, p, k) {
      EnterHop(s, flow, p, k);
    }
  }

  lemma EnterEdges(s: Search, rules: PathRules, flow: Flow)
    requires KeysAgree(s) && StackOk(s, rules) && EdgesAgree(rules, s.edges, s.hops) && CanEnter(s)
    ensures EdgesAgree(rules, Enter(s, flow).edges, Enter(s, flow).hops)
  {
    var t := Enter(s, flow);
    assert FrameOk(s, |s.stack| - 1);
    assert Top(s).path !in s.hops;
    NoEdgesFrom(s.edges, Top(s).path);
    forall p | p in t.hops ensures EdgesOf(rules, t.edges, p, t.hops[p]) {
      if p != Top(s).path {
        assert EdgesOf(rules, s.edges, p, s.hops[p]);
      }
    }
  }

  lemma EnterLinks(s: Search, flow: Flow)
    requires LinksFollowed(s) && CanEnter(s)
    ensures LinksFollowed(Enter(s, flow))
  {
  }

  lemma HopsGrow(roots: set<string>, nodes: seq<string>, more: seq<string>, hops: Hops, grown: Hops, i: nat)
    requires i < |nodes| && nodes <= more && DiscoveredAt(roots, nodes, hops, i)
    requires forall p :: p in hops && p in nodes ==> p in grown && hops[p] <= grown[p]
    ensures DiscoveredAt(roots, more, grown, i)
  {
    if nodes[i] !in roots {
      var j :| 0 <= j < i && FlowHop(hops, nodes[j], nodes[i]);
      var k :| 0 <= k < |hops[nodes[j]]| && hops[nodes[j]][k].link.kind.FlowLink?
          && hops[nodes[j]][k].target == nodes[i];
      assert nodes[j] in nodes && grown[nodes[j]][k] == hops[nodes[j]][k];
      assert FlowHop(grown, more[j], more[i]);
    }
  }

  lemma EnterDiscovered(s: Search, rules: PathRules, roots: set<string>, flow: Flow)
    requires KeysAgree(s) && StackOk(s, rules) && Discovered(s, roots) && CanEnter(s)
    ensures Discovered(Enter(s, flow), roots)
  {
    var t := Enter(s, flow);
    var n := |s.stack| - 1;
    assert FrameOk(s, n) && FrameLinked(s, rules, n);
    forall i | 0 <= i < |t.nodes| ensures DiscoveredAt(roots, t.nodes, t.hops, i) {
      if i < |s.nodes| {
        HopsGrow(roots, s.nodes, t.nodes, s.hops, t.hops, i);
      } else if n > 0 {
        assert FrameOk(s, n - 1);
        var below := s.stack[n - 1].path;
        assert below in s.nodes;
        var j :| 0 <= j < |s.nodes| && s.nodes[j] == below;
        var k := |s.hops[below]| - 1;
        assert t.hops[below][k].link.kind.FlowLink? && t.hops[below][k].target == t.nodes[i];
        assert FlowHop(t.hops, t.nodes[j], t.nodes[i]);
      }
    }
  }

  lemma EnterKeeps(s: Search, rules: PathRules, roots: set<string>, flow: Flow)
    requires Inv(s, rules, roots) && CanEnter(s)
    ensures Inv(Enter(s, flow), rules, roots)
  {
    EnterStack(s, rules, flow);
    EnterFinish(s, rules, flow);
    EnterEdges(s, rules, flow);
    EnterLinks(s, flow);
    EnterDiscovered(s, rules, roots, flow);
  }

  // ---------------------------------------------------------------------------
  // Retire
  // ---------------------------------------------------------------------------

  ghost predicate CanRetire(s: Search) {
    s.stack != [] && Top(s).entered && Top(s).nextLink >= |Top(s).links|
  }

  lemma RetireFrame(s: Search, i: nat)
    requires CanRetire(s) && i < |s.stack| - 1 && FrameOk(s, i) && s.stack[i].path != Top(s).path
    ensures FrameOk(Retire(s), i)
  {
  }

  lemma RetireLinked(s: Search, rules: PathRules, i: nat)
    requires CanRetire(s) && i < |s.stack| - 1 && FrameLinked(s, rules, i)
    ensures FrameLinked(Retire(s), rules, i)
  {
    hide EdgeOf;
  }

  lemma RetireGray(s: Search)
    requires CanRetire(s)
    requires forall p :: p in s.colors && s.colors[p] == Gray ==> exists i :: 0 <= i < |s.stack| && s.stack[i].path == p
    ensures forall p :: p in Retire(s).colors && Retire(s).colors[p] == Gray ==>
              exists i :: 0 <= i < |Retire(s).stack| && Retire(s).stack[i].path == p
  {
    var t := Retire(s);
    forall p | p in t.colors && t.colors[p] == Gray
      ensures exists i :: 0 <= i < |t.stack| && t.stack[i].path == p
    {
      var i :| 0 <= i < |s.stack| && s.stack[i].path == p;
      assert t.stack[i].path == p;
    }
  }

  lemma RetireStack(s: Search, rules: PathRules)
    requires KeysAgree(s) && StackOk(s, rules) && CanRetire(s)
    ensures StackOk(Retire(s), rules) && KeysAgree(Retire(s))
  {
    hide EdgeOf, FrameOk, FrameLinked, FlowLinks;
    var t := Retire(s);
    RetireKeys(s);
    forall i | 0 <= i < |t.stack| ensures FrameOk(t, i) && FrameLinked(t, rules, i) {
      RetireFrame(s, i);
      RetireLinked(s, rules, i);
    }
    RetireGray(s);
  }

  lemma RetireKeys(s: Search)
    requires KeysAgree(s) && CanRetire(s) && FrameOk(s, |s.stack| - 1)
    ensures KeysAgree(Retire(s))
  {
  }

  lemma PrecedesAppend(order: seq<string>, last: string, first: string)
    requires first in order
    ensures Precedes(order + [last], first, last)
  {
    var i :| 0 <= i < |order| && order[i] == first;
    assert (order + [last])[i] == first && (order + [last])[|order|] == last;
  }

  lemma PrecedesStays(order: seq<string>, last: string, first: string, second: string)
    requires Precedes(order, first, second)
    ensures Precedes(order + [last], first, second)
  {
    var i, j :| 0 <= i < j < |order| && order[i] == first && order[j] == second;
    assert (order + [last])[i] == first && (order + [last])[j] == second;
  }

  /** The latest hop of the frame below the top is the only one that may still be open. */
  lemma TopHopsSettled(s: Search, rules: PathRules, k: nat)
    requires KeysAgree(s) && StackOk(s, rules) && FinishOk(s) && CanRetire(s)
    requires Top(s).path in s.hops && k < |s.hops[Top(s).path]|
    requires s.hops[Top(s).path][k].link.kind.FlowLink?
    ensures s.hops[Top(s).path][k].target in s.finish
  {
    var n := |s.stack| - 1;
    assert FrameOk(s, n) && HopSettled(s, Top(s).path, k);
    assert forall i :: 0 <= i < n ==> s.stack[i].path != Top(s).path;
  }

  lemma RetireOpenHop(s: Search, p: string, k: nat)
    requires s.stack != [] && p in s.hops && k < |s.hops[p]| && OnTopOf(s, p, k)
    ensures s.hops[p][k].target in Retire(s).finish || OnTopOf(Retire(s), p, k)
  {
    var t := Retire(s);
    var i :| 0 <= i < |s.stack| - 1 && s.stack[i].path == p && s.stack[i + 1].path == s.hops[p][k].target;
    if i + 1 < |s.stack| - 1 {
      assert t.stack[i].path == p && t.stack[i + 1].path == t.hops[p][k].target;
    } else {
      assert t.finish[|s.finish|] == Top(s).path;
    }
  }

  lemma RetireHop(s: Search, rules: PathRules, p: string, k: nat)
    requires KeysAgree(s) && StackOk(s, rules) && FinishOk(s) && CanRetire(s)
    requires p in s.hops && k < |s.hops[p]|
    ensures HopSettled(Retire(s), p, k)
  {
    var top := Top(s).path;
    var hop := s.hops[p][k];
    assert HopSettled(s, p, k);
    if hop.link.kind.FlowLink? {
      if p == top {
        TopHopsSettled(s, rules, k);
        PrecedesAppend(s.finish, top, hop.target);
      } else if s.colors[p] == Black {
        PrecedesStays(s.finish, top, hop.target, p);
      } else if OnTopOf(s, p, k) {
        RetireOpenHop(s, p, k);
      }
    }
  }

  lemma RetireFinish(s: Search, rules: PathRules)
    requires KeysAgree(s) && StackOk(s, rules) && FinishOk(s) && CanRetire(s)
    ensures FinishOk(Retire(s))
  {
    var t := Retire(s);
    assert FrameOk(s, |s.stack| - 1);
    assert Top(s).path !in s.finish;
    forall p, k | p in t.hops && 0 <= k < |t.hops[p]| ensures HopSettled(t, p, k) {
      RetireHop(s, rules, p, k);
    }
  }

  lemma RetireKeeps(s: Search, rules: PathRules, roots: set<string>)
    requires Inv(s, rules, roots) && CanRetire(s)
    ensures Inv(Retire(s), rules, roots)
  {
    RetireStack(s, rules);
    RetireFinish(s, rules);
    var t := Retire(s);
    forall i | 0 <= i < |t.nodes| ensures DiscoveredAt(roots, t.nodes, t.hops, i) {
      assert DiscoveredAt(roots, s.nodes, s.hops, i);
    }
  }

  // ---------------------------------------------------------------------------
  // Follow
  // ---------------------------------------------------------------------------

  ghost predicate CanFollow(s: Search) {
    s.stack != [] && Top(s).entered && Top(s).nextLink < |Top(s).links| && Top(s).path in s.hops
  }

  lemma FollowFrame(s: Search, rules: PathRules, target: string, i: nat)
    requires StackOk(s, rules) && CanFollow(s) && i < |s.stack|
    ensures FrameOk(Follow(s, rules, target), i)
  {
    assert FrameOk(s, i) && FrameOk(s, |s.stack| - 1);
  }

  lemma FollowLinked(s: Search, rules: PathRules, target: string, i: nat)
    requires StackOk(s, rules) && CanFollow(s) && i < |s.stack|
    ensures FrameLinked(Follow(s, rules, target), rules, i)
  {
    assert FrameLinked(s, rules, i);
    if i > 0 {
      assert s.stack[i - 1].path != Top(s).path;
    }
  }

  lemma FollowStack(s: Search, rules: PathRules, target: string)
    requires KeysAgree(s) && StackOk(s, rules) && CanFollow(s)
    ensures StackOk(Follow(s, rules, target), rules) && KeysAgree(Follow(s, rules, target))
  {
    var t := Follow(s, rules, target);
    assert t.hops.Keys == s.hops.Keys;
    forall i | 0 <= i < |t.stack| ensures FrameOk(t, i) && FrameLinked(t, rules, i) {
      FollowFrame(s, rules, target, i);
      FollowLinked(s, rules, target, i);
    }
    GrayStays(s, t, Top(s).path);
  }

  /** Following a link leaves the hops that were already recorded settled. */
  lemma FollowOldHop(s: Search, rules: PathRules, target: string, p: string, k: nat)
    requires KeysAgree(s) && StackOk(s, rules) && CanFollow(s)
    requires p in s.hops && k < |s.hops[p]| && HopSettled(s, p, k)
    ensures HopSettled(Follow(s, rules, target), p, k)
  {
    hide EdgeOf, FlowLinks, FrameLinked, Elements, LinkTarget;
    var t := Follow(s, rules, target);
    var n := |s.stack| - 1;
    if s.hops[p][k].link.kind.FlowLink? && s.colors[p] != Black && OnTopOf(s, p, k) {
      var i :| 0 <= i < n && s.stack[i].path == p && s.stack[i + 1].path == s.hops[p][k].target;
      assert p != Top(s).path;
      assert t.stack[i].path == p && t.stack[i + 1].path == t.hops[p][k].target;
    }
  }

  lemma FollowEdges(s: Search, rules: PathRules, target: string)
    requires KeysAgree(s) && StackOk(s, rules) && EdgesAgree(rules, s.edges, s.hops) && CanFollow(s)
    ensures EdgesAgree(rules, Follow(s, rules, target).edges, Follow(s, rules, target).hops)
  {
    var t := Follow(s, rules, target);
    var f := Top(s);
    var edge := EdgeOf(rules, f.path, Hop(f.links[f.nextLink], target));
    forall p | p in t.hops ensures EdgesOf(rules, t.edges, p, t.hops[p]) {
      assert EdgesOf(rules, s.edges, p, s.hops[p]);
      EdgesFromAppend(s.edges, edge, p);
    }
  }

  lemma FollowLinks(s: Search, rules: PathRules, target: string)
    requires CanFollow(s) && KeysAgree(s) && FrameOk(s, |s.stack| - 1) && LinksFollowed(s)
    requires ResourceHopOk(Top(s).path, Hop(Top(s).links[Top(s).nextLink], target))
    ensures LinksFollowed(Follow(s, rules, target))
  {
    hide EdgeOf, FlowLinks, LinkTarget, Elements, FollowsLinks, ResourceHopOk;
    var t := Follow(s, rules, target);
    var f := Top(s);
    OneMoreLink(f.path, s.hops[f.path], FlowLinks(s.loaded[f.path]), Hop(f.links[f.nextLink], target));
    forall p | p in t.hops ensures p in t.loaded && FollowsLinks(p, t.hops[p], FlowLinks(t.loaded[p])) {
      assert p in s.hops;
    }
  }

  lemma OneMoreLink(p: string, hops: seq<Hop>, links: seq<FileLink>, hop: Hop)
    requires FollowsLinks(p, hops, links) && |hops| < |links|
    requires hop.link == links[|hops|] && ResourceHopOk(p, hop)
    ensures FollowsLinks(p, hops + [hop], links)
  {
    hide ResourceHopOk;
  }

  lemma FollowDiscovered(s: Search, rules: PathRules, roots: set<string>, target: string)
    requires KeysAgree(s) && Discovered(s, roots) && CanFollow(s)
    ensures Discovered(Follow(s, rules, target), roots)
  {
    var t := Follow(s, rules, target);
    forall i | 0 <= i < |t.nodes| ensures DiscoveredAt(roots, t.nodes, t.hops, i) {
      HopsGrow(roots, s.nodes, t.nodes, s.hops, t.hops, i);
    }
  }

  lemma FollowSettledHop(s: Search, rules: PathRules, target: string, p: string, k: nat)
    requires KeysAgree(s) && StackOk(s, rules) && FinishOk(s) && CanFollow(s) && FrameOk(s, |s.stack| - 1)
    requires Top(s).links[Top(s).nextLink].kind.FlowLink? ==> target in s.finish
    requires p in Follow(s, rules, target).hops && k < |Follow(s, rules, target).hops[p]|
    ensures HopSettled(Follow(s, rules, target), p, k)
  {
    hide EdgeOf, FlowLinks, FrameLinked, Elements, LinkTarget;
    if k < |s.hops[p]| {
      assert HopSettled(s, p, k);
      FollowOldHop(s, rules, target, p, k);
    }
  }

  /** A link to a resource, or to a flow that is already black, leaves nothing to explore. */
  lemma FollowKeeps(s: Search, rules: PathRules, roots: set<string>, target: string)
    requires Inv(s, rules, roots) && CanFollow(s)
    requires ResourceHopOk(Top(s).path, Hop(Top(s).links[Top(s).nextLink], target))
    requires Top(s).links[Top(s).nextLink].kind.FlowLink? ==> target in s.colors && s.colors[target] == Black
    ensures Inv(Follow(s, rules, target), rules, roots)
  {
    var t := Follow(s, rules, target);
    assert FrameOk(s, |s.stack| - 1);
    FollowStack(s, rules, target);
    FollowEdges(s, rules, target);
    FollowLinks(s, rules, target);
    FollowDiscovered(s, rules, roots, target);
    FollowFinish(s, rules, target);
  }

  lemma FollowFinish(s: Search, rules: PathRules, target: string)
    requires KeysAgree(s) && StackOk(s, rules) && FinishOk(s) && CanFollow(s) && FrameOk(s, |s.stack| - 1)
    requires Top(s).links[Top(s).nextLink].kind.FlowLink? ==> target in s.colors && s.colors[target] == Black
    ensures FinishOk(Follow(s, rules, target))
  {
    hide EdgeOf, FlowLinks, FrameLinked, Elements, LinkTarget;
    var t := Follow(s, rules, target);
    assert Top(s).path !in s.finish;
    forall p, k | p in t.hops && 0 <= k < |t.hops[p]| ensures HopSettled(t, p, k) {
      FollowSettledHop(s, rules, target, p, k);
    }
  }

  ghost function FollowDown(s: Search, rules: PathRules, target: string): Search
    requires CanFollow(s)
  {
    var f := Top(s);
    Descend(Follow(s, rules, target), target, EdgeOf(rules, f.path, Hop(f.links[f.nextLink], target)))
  }

  /** The flow linked to is white, so it is not on the stack. */
  lemma TargetIsNotOnStack(t: Search, target: string, i: nat)
    requires i < |t.stack| && FrameOk(t, i) && t.stack[i].entered && target !in t.colors
    ensures t.stack[i].path != target
  {
  }

  lemma DescendFrame(t: Search, target: string, edge: GraphEdge, i: nat)
    requires i < |t.stack| && FrameOk(t, i) && t.stack[i].entered
    ensures FrameOk(Descend(t, target, edge), i)
  {
    hide FlowLinks;
  }

  lemma DescendLinked(t: Search, rules: PathRules, target: string, edge: GraphEdge, i: nat)
    requires i < |t.stack| && FrameLinked(t, rules, i)
    ensures FrameLinked(Descend(t, target, edge), rules, i)
  {
    hide EdgeOf;
  }

  lemma DescendTop(s: Search, rules: PathRules, target: string)
    requires KeysAgree(s) && CanFollow(s) && FrameOk(s, |s.stack| - 1)
    requires Top(s).links[Top(s).nextLink].kind.FlowLink? && target !in s.colors
    ensures FrameOk(FollowDown(s, rules, target), |s.stack|)
    ensures FrameLinked(FollowDown(s, rules, target), rules, |s.stack|)
  {
    hide EdgeOf, FlowLinks;
  }

  lemma DescendGray(t: Search, target: string, edge: GraphEdge)
    requires forall p :: p in t.colors && t.colors[p] == Gray ==> exists i :: 0 <= i < |t.stack| && t.stack[i].path == p
    ensures var u := Descend(t, target, edge);
            forall p :: p in u.colors && u.colors[p] == Gray ==> exists i :: 0 <= i < |u.stack| && u.stack[i].path == p
  {
    var u := Descend(t, target, edge);
    forall p | p in u.colors && u.colors[p] == Gray
      ensures exists i :: 0 <= i < |u.stack| && u.stack[i].path == p
    {
      var i :| 0 <= i < |t.stack| && t.stack[i].path == p;
      assert u.stack[i].path == p;
    }
  }

  lemma AllEntered(s: Search, rules: PathRules, i: nat)
    requires StackOk(s, rules) && CanFollow(s) && i < |s.stack|
    ensures s.stack[i].entered
  {
    assert FrameOk(s, i);
  }

  lemma DescendStack(s: Search, rules: PathRules, target: string)
    requires KeysAgree(s) && StackOk(s, rules) && CanFollow(s)
    requires Top(s).links[Top(s).nextLink].kind.FlowLink? && target !in s.colors
    ensures StackOk(FollowDown(s, rules, target), rules) && KeysAgree(FollowDown(s, rules, target))
  {
    hide EdgeOf, FlowLinks, FrameOk, FrameLinked, Elements, Distinct;
    var t := Follow(s, rules, target);
    var u := FollowDown(s, rules, target);
    var edge := EdgeOf(rules, Top(s).path, Hop(Top(s).links[Top(s).nextLink], target));
    FollowStack(s, rules, target);
    forall i | 0 <= i < |t.stack|
      ensures FrameOk(u, i) && FrameLinked(u, rules, i) && t.stack[i].path != target
    {
      AllEntered(s, rules, i);
      DescendFrame(t, target, edge, i);
      DescendLinked(t, rules, target, edge, i);
      TargetIsNotOnStack(t, target, i);
    }
    DescendTop(s, rules, target);
    DescendGray(t, target, edge);
  }

  lemma DescendHop(s: Search, rules: PathRules, target: string, p: string, k: nat)
    requires KeysAgree(s) && StackOk(s, rules) && FinishOk(s) && CanFollow(s) && FrameOk(s, |s.stack| - 1)
    requires Top(s).links[Top(s).nextLink].kind.FlowLink?
    requires p in FollowDown(s, rules, target).hops && k < |FollowDown(s, rules, target).hops[p]|
    ensures HopSettled(FollowDown(s, rules, target), p, k)
  {
    hide EdgeOf, FlowLinks, FrameLinked, Elements, LinkTarget;
    var t := Follow(s, rules, target);
    var u := FollowDown(s, rules, target);
    var n := |s.stack| - 1;
    if k < |s.hops[p]| {
      assert HopSettled(s, p, k);
      FollowOldHop(s, rules, target, p, k);
      if t.hops[p][k].link.kind.FlowLink? && t.colors[p] != Black && OnTopOf(t, p, k) {
        var i :| 0 <= i < |t.stack| - 1 && t.stack[i].path == p && t.stack[i + 1].path == t.hops[p][k].target;
        assert u.stack[i].path == p && u.stack[i + 1].path == u.hops[p][k].target;
      }
    } else {
      assert u.stack[n].path == p && u.stack[n + 1].path == u.hops[p][k].target;
    }
  }

  lemma DescendFinish(s: Search, rules: PathRules, target: string)
    requires KeysAgree(s) && StackOk(s, rules) && FinishOk(s) && CanFollow(s) && FrameOk(s, |s.stack| - 1)
    requires Top(s).links[Top(s).nextLink].kind.FlowLink?
    ensures FinishOk(FollowDown(s, rules, target))
  {
    hide EdgeOf, FlowLinks, FrameLinked, Elements, LinkTarget;
    var u := FollowDown(s, rules, target);
    assert Top(s).path !in s.finish;
    forall p, k | p in u.hops && 0 <= k < |u.hops[p]| ensures HopSettled(u, p, k) {
      DescendHop(s, rules, target, p, k);
    }
  }

  /** A link to a white flow opens the next frame. */
  lemma DescendKeeps(s: Search, rules: PathRules, roots: set<string>, target: string)
    requires Inv(s, rules, roots) && CanFollow(s)
    requires Top(s).links[Top(s).nextLink].kind.FlowLink? && target !in s.colors
    ensures Inv(FollowDown(s, rules, target), rules, roots)
  {
    var u := FollowDown(s, rules, target);
    assert FrameOk(s, |s.stack| - 1);
    DescendStack(s, rules, target);
    FollowEdges(s, rules, target);
    FollowLinks(s, rules, target);
    FollowDiscovered(s, rules, roots, target);
    DescendFinish(s, rules, target);
    var t := Follow(s, rules, target);
    forall i | 0 <= i < |u.nodes| ensures DiscoveredAt(roots, u.nodes, u.hops, i) {
      assert DiscoveredAt(roots, t.nodes, t.hops, i);
    }
  }
}
