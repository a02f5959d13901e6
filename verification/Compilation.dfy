/** Ordering the prepared flows children first, and compiling them in that order. */
module Compilation {
  import opened Wrappers
  import opened Sequences
  import opened FlowModel
  import opened FlowGraphs
  import opened Programs
  import opened PreflightTheorems

  datatype OrderError =
    | NoFlows
    | ProgramDisagrees
    | BlankPath
    | DuplicatePath
    | OrderDisagrees
    | MissingFlow
    | RootsDisagree
    | UnknownSource
    | UnknownTarget
    | CyclicGraph

  // ---------------------------------------------------------------------------
  // Well-formed programs
  // ---------------------------------------------------------------------------

  /** The program and its report describe the same flows, and the flow edges stay among them. */
  ghost predicate WellFormed(program: Program) {
    && program.graph.nodes != []
    && NodesAgree(program)
    && program.roots == program.graph.roots
    && EdgesInside(program.graph)
  }

  ghost predicate EdgesInside(report: Report) {
    forall i :: 0 <= i < |report.edges| && report.edges[i].kind.FlowLink? ==>
      report.edges[i].from in report.nodes && report.edges[i].to in report.nodes
  }

  // ---------------------------------------------------------------------------
  // Validation
  // ---------------------------------------------------------------------------

  /** The program lists the report's nodes, each with its flow. */
  ghost predicate NodesAgree(program: Program) {
    && program.paths == program.graph.nodes && Distinct(program.graph.nodes)
    && program.flows.Keys == Elements(program.graph.nodes) && NoBlankPaths(program)
  }

  lemma SizesOfAgreeingNodes(program: Program)
    requires NodesAgree(program)
    ensures |program.paths| == |program.graph.nodes| && |program.flows| == |program.graph.nodes|
  {
    DistinctCardinality(program.graph.nodes);
    assert |program.flows| == |program.flows.Keys|;
  }

  lemma ListedNodesAgree(program: Program)
    requires program.paths == program.graph.nodes && Distinct(program.graph.nodes) && NoBlankPaths(program)
    requires |program.flows| == |program.graph.nodes| && Elements(program.graph.nodes) <= program.flows.Keys
    ensures NodesAgree(program)
  {
    DistinctCardinality(program.graph.nodes);
    assert |program.flows| == |program.flows.Keys|;
    SubsetCardinality(Elements(program.graph.nodes), program.flows.Keys);
  }

  /** Compares the program with its report node by node, once their sizes agree. */
  method ValidateNodes(program: Program) returns (error: Option<OrderError>)
    requires |program.paths| == |program.graph.nodes| && |program.flows| == |program.graph.nodes|
    ensures error.None? <==> NodesAgree(program)
    ensures error != Some(CyclicGraph)
  {
    var nodes := program.graph.nodes;
    var seen: set<string> := {};
    for i := 0 to |nodes|
      invariant seen == Elements(nodes[..i]) && Distinct(nodes[..i])
      invariant forall k :: 0 <= k < i ==> !Blank(nodes[k]) && nodes[k] in program.flows && program.paths[k] == nodes[k]
    {
      hide Blank;
      assert nodes[..i + 1] == nodes[..i] + [nodes[i]];
      assert nodes[i] in Elements(nodes);
      if Blank(nodes[i]) {
        assert program.paths == nodes ==> Blank(program.paths[i]);
        return Some(BlankPath);
      }
      if nodes[i] in seen {
        return Some(DuplicatePath);
      }
      seen := seen + {nodes[i]};
      if program.paths[i] != nodes[i] {
        return Some(OrderDisagrees);
      }
      if nodes[i] !in program.flows {
        return Some(MissingFlow);
      }
    }
    assert nodes[..|nodes|] == nodes && program.paths == nodes;
    ListedNodesAgree(program);
    error := None;
  }

  method ValidateRoots(program: Program) returns (error: Option<OrderError>)
    ensures error.None? <==> program.roots == program.graph.roots
    ensures error != Some(CyclicGraph)
  {
    if |program.roots| != |program.graph.roots| {
      return Some(RootsDisagree);
    }
    for i := 0 to |program.roots|
      invariant program.roots[..i] == program.graph.roots[..i]
    {
      if program.roots[i] != program.graph.roots[i] {
        return Some(RootsDisagree);
      }
    }
    assert program.roots[..|program.roots|] == program.roots;
    error := None;
  }

  // ---------------------------------------------------------------------------
  // Children and parents
  // ---------------------------------------------------------------------------

  type Parents = map<string, seq<string>>

  /** The parents of a child are listed once each, and only if they link it. */
  ghost predicate ParentsMirror(children: Graph, parents: Parents) {
    && (forall c :: c in parents ==>
        Distinct(parents[c]) && forall i :: 0 <= i < |parents[c]| ==> Edge(children, parents[c][i], c))
    && (forall p, c :: Edge(children, p, c) ==> c in parents && p in parents[c])
  }

  /** The flow graph of the first n edges of a report. */
  ghost function PartialGraph(report: Report, n: nat): Graph
    requires n <= |report.edges|
  {
    ReportGraph(Report(report.roots, report.nodes, report.edges[..n]))
  }

  lemma PartialGraphStep(report: Report, n: nat)
    requires n < |report.edges|
    ensures var edge := report.edges[n];
            PartialGraph(report, n + 1) ==
              if edge.kind.FlowLink? && edge.from in report.nodes
              then PartialGraph(report, n)[edge.from := PartialGraph(report, n)[edge.from] + {edge.to}]
              else PartialGraph(report, n)
  {
    var edge := report.edges[n];
    var before, after := PartialGraph(report, n), PartialGraph(report, n + 1);
    forall p | p in report.nodes
      ensures after[p] == if edge.kind.FlowLink? && edge.from == p then before[p] + {edge.to} else before[p]
    {
      assert report.edges[..n + 1][n] == edge;
      forall i | 0 <= i < n ensures report.edges[..n + 1][i] == report.edges[..n][i] {
      }
    }
  }

  lemma MirrorStep(children: Graph, parents: Parents, from: string, to: string)
    requires ParentsMirror(children, parents) && from in children && to !in children[from]
    ensures ParentsMirror(children[from := children[from] + {to}],
                          parents[to := (if to in parents then parents[to] else []) + [from]])
  {
    var newChildren := children[from := children[from] + {to}];
    var newParents := parents[to := (if to in parents then parents[to] else []) + [from]];
    forall c | c in newParents
      ensures Distinct(newParents[c]) && forall i :: 0 <= i < |newParents[c]| ==> Edge(newChildren, newParents[c][i], c)
    {
      if c == to && to in parents {
        assert forall i :: 0 <= i < |parents[to]| ==> Edge(children, parents[to][i], to);
      }
    }
    forall p, c | Edge(newChildren, p, c) ensures c in newParents && p in newParents[c] {
      if p == from && c == to {
        assert newParents[to][|newParents[to]| - 1] == from;
      } else {
        assert Edge(children, p, c);
      }
    }
  }

  /** Collects the children and parents of every flow, ignoring repeated call sites. */
  method LinkFlows(report: Report) returns (error: Option<OrderError>, children: Graph, parents: Parents)
    requires Distinct(report.nodes)
    ensures error.None? <==> EdgesInside(report)
    ensures error != Some(CyclicGraph)
    ensures error.None? ==> children == ReportGraph(report) && ParentsMirror(children, parents)
  {
    children := map p | p in report.nodes :: {};
    parents := map[];
    forall p | p in report.nodes ensures PartialGraph(report, 0)[p] == {} {
    }
    for n := 0 to |report.edges|
      invariant children == PartialGraph(report, n) && ParentsMirror(children, parents)
      invariant EdgesInside(Report(report.roots, report.nodes, report.edges[..n]))
    {
      var edge := report.edges[n];
      PartialGraphStep(report, n);
      if !edge.kind.FlowLink? {
        continue;
      }
      if edge.from !in report.nodes {
        return Some(UnknownSource), children, parents;
      }
      if edge.to !in report.nodes {
        return Some(UnknownTarget), children, parents;
      }
      if edge.to in children[edge.from] {
        assert children[edge.from] + {edge.to} == children[edge.from];
        continue;
      }
      MirrorStep(children, parents, edge.from, edge.to);
      children := children[edge.from := children[edge.from] + {edge.to}];
      parents := parents[edge.to := (if edge.to in parents then parents[edge.to] else []) + [edge.from]];
    }
    assert report.edges[..|report.edges|] == report.edges;
    error := None;
  }

  // ---------------------------------------------------------------------------
  // Kahn's algorithm
  // ---------------------------------------------------------------------------

  /** The listed paths in the order of the report: what sorting them by report position yields. */
  function InReportOrder(nodes: seq<string>, listed: seq<string>): (sorted: seq<string>)
    ensures forall p :: p in sorted <==> p in nodes && p in listed
    ensures Distinct(nodes) ==> Distinct(sorted)
  {
    if nodes == [] then []
    else
      var last := nodes[|nodes| - 1];
      var front := InReportOrder(nodes[..|nodes| - 1], listed);
      assert forall p :: p in nodes <==> p in nodes[..|nodes| - 1] || p == last;
      if last in listed then front + [last] else front
  }

  type Counters = map<string, int>

  /** The children of a flow that are not ordered yet. */
  ghost function Waiting(children: Graph, done: set<string>, p: string): nat
    requires p in children
  {
    |children[p] - done|
  }

  ghost predicate CountersOk(children: Graph, done: set<string>, remaining: Counters) {
    remaining.Keys == children.Keys
    && forall p :: p in children ==> remaining[p] == Waiting(children, done, p)
  }

  /** A flow is ordered or queued exactly when all its children are ordered. */
  ghost predicate QueueOk(children: Graph, done: set<string>, queued: set<string>) {
    && done !! queued && queued <= children.Keys
    && forall p :: p in children ==> (p in done || p in queued <==> children[p] <= done)
  }

  ghost predicate OrderOk(children: Graph, order: seq<string>) {
    Distinct(order)
    && forall i :: 0 <= i < |order| ==> order[i] in children && children[order[i]] <= Elements(order[..i])
  }

  lemma NothingWaiting(children: Graph, done: set<string>, p: string)
    requires p in children
    ensures Waiting(children, done, p) == 0 <==> children[p] <= done
  {
    if Waiting(children, done, p) == 0 {
      assert children[p] - done == {};
      forall c | c in children[p] ensures c in done {
        assert c !in children[p] - done;
      }
    } else {
      assert children[p] - done != {};
    }
  }

  lemma OneLessWaiting(children: Graph, done: set<string>, p: string, path: string)
    requires p in children && path !in done
    ensures Waiting(children, done + {path}, p) == Waiting(children, done, p) - (if path in children[p] then 1 else 0)
  {
    var before, after := children[p] - done, children[p] - (done + {path});
    if path in children[p] {
      assert after == before - {path};
    } else {
      assert after == before;
    }
  }

  /** While the parents of `path` are counted down, those in `todo` are still to come.
      `before` was queued behind `path` when the count began. */
  ghost predicate CountingDown(children: Graph, done: set<string>, path: string, todo: set<string>,
                               before: set<string>, queued: set<string>, remaining: Counters)
  {
    && remaining.Keys == children.Keys
    && (forall p :: p in children ==>
          remaining[p] == Waiting(children, if p in todo then done else done + {path}, p))
    && path !in queued && done !! queued && queued <= children.Keys
    && (forall p :: p in children ==>
          (p in queued <==>
             p in before || (p !in todo && path in children[p] && children[p] <= done + {path})))
  }

  ghost predicate IsAbove(children: Graph, path: string, above: set<string>) {
    forall p :: p in above <==> Edge(children, p, path)
  }

  /** Every parent of a flow that has just been ordered waited for it until now. */
  lemma CountStart(children: Graph, done: set<string>, path: string, above: set<string>, queued: set<string>,
                   remaining: Counters)
    requires CountersOk(children, done, remaining) && QueueOk(children, done, queued)
    requires path in queued && IsAbove(children, path, above)
    ensures CountingDown(children, done, path, above, queued - {path}, queued - {path}, remaining)
  {
    hide Waiting;
    forall p | p in children && p !in above
      ensures remaining[p] == Waiting(children, done + {path}, p)
    {
      OneLessWaiting(children, done, p, path);
      assert !Edge(children, p, path);
    }
    forall p | p in children ensures p in above <==> path in children[p] {
      assert p in above <==> Edge(children, p, path);
    }
  }

  lemma CountStep(children: Graph, done: set<string>, path: string, todo: set<string>, before: set<string>,
                  queued: set<string>, remaining: Counters, parent: string)
    requires parent in todo && parent in children && path in children[parent]
    requires path !in done && parent != path && parent !in done && parent !in before
    requires CountingDown(children, done, path, todo, before, queued, remaining)
    ensures parent !in queued
    ensures var counted := remaining[parent := remaining[parent] - 1];
            CountingDown(children, done, path, todo - {parent}, before,
                         if counted[parent] == 0 then queued + {parent} else queued, counted)
  {
    hide Waiting;
    OneLessWaiting(children, done, parent, path);
    NothingWaiting(children, done + {path}, parent);
  }

  /** A parent of a queued flow is itself neither ordered nor queued. */
  lemma ParentsWait(children: Graph, done: set<string>, path: string, queued: set<string>, parent: string)
    requires QueueOk(children, done, queued) && path in queued && Edge(children, parent, path)
    ensures parent !in done && parent !in queued
  {
    assert path in children[parent] && path !in done;
  }

  lemma CountEnd(children: Graph, done: set<string>, path: string, queued: set<string>, before: set<string>,
                 remaining: Counters)
    requires QueueOk(children, done, before + {path}) && path !in before && path in children
    requires CountingDown(children, done, path, {}, before, queued, remaining)
    ensures CountersOk(children, done + {path}, remaining) && QueueOk(children, done + {path}, queued)
  {
    hide Waiting;
    forall p | p in children ensures p in done + {path} || p in queued <==> children[p] <= done + {path} {
      if path !in children[p] && children[p] <= done + {path} {
        assert children[p] <= done;
      }
    }
  }

  lemma OrderGrows(children: Graph, order: seq<string>, path: string)
    requires OrderOk(children, order) && path !in order && path in children && children[path] <= Elements(order)
    ensures OrderOk(children, order + [path]) && Elements(order + [path]) == Elements(order) + {path}
  {
    var all := order + [path];
    forall i | 0 <= i < |all| ensures all[i] in children && children[all[i]] <= Elements(all[..i]) {
      if i < |order| {
        assert all[..i] == order[..i];
      } else {
        assert all[..i] == order;
      }
    }
  }

  /** When nothing is queued any more, either all flows are ordered or the rest contains a cycle. */
  lemma {:induction false} QueueDrained(children: Graph, order: seq<string>)
    requires Closed(children) && OrderOk(children, order) && QueueOk(children, Elements(order), {})
    ensures Elements(order) <= children.Keys
    ensures Elements(order) == children.Keys <==> Acyclic(children)
    ensures Elements(order) == children.Keys ==> ChildrenFirst(children, order)
  {
    var done := Elements(order);
    var stuck := children.Keys - done;
    if stuck != {} {
      forall n | n in stuck ensures HasChildIn(children, stuck, n) {
        var c :| c in children[n] && c !in done;
        assert Edge(children, n, c);
      }
      StuckHasCycle(children, stuck);
    } else {
      assert done == children.Keys;
      forall parent, child | Edge(children, parent, child) ensures Precedes(order, child, parent) {
        var i :| 0 <= i < |order| && order[i] == parent;
        assert child in order[..i];
        var j :| 0 <= j < i && order[..i][j] == child;
        assert order[j] == child;
      }
      OrderedIsAcyclic(children, order);
    }
  }

  /** Counts the children of every flow and queues the flows without any. */
  ghost predicate IsLeaf(children: Graph, p: string) {
    p in children && children[p] == {}
  }

  lemma LeafExactlyWhen(children: Graph, p: string)
    requires p in children
    ensures IsLeaf(children, p) <==> |children[p]| == 0
  {
  }

  method StartCounting(nodes: seq<string>, children: Graph) returns (remaining: Counters, ready: seq<string>)
    requires Distinct(nodes) && Elements(nodes) == children.Keys
    ensures CountersOk(children, {}, remaining)
    ensures Distinct(ready) && QueueOk(children, {}, Elements(ready))
  {
    hide Distinct, Elements, CountersOk, QueueOk, IsLeaf;
    remaining := map[];
    ready := [];
    EmptyQueue();
    for i := 0 to |nodes|
      invariant remaining.Keys == Elements(nodes[..i])
      invariant forall p :: p in remaining ==> p in children && remaining[p] == |children[p]|
      invariant Distinct(ready) && forall p :: p in Elements(ready) <==> p in remaining && IsLeaf(children, p)
    {
      var node := nodes[i];
      NextNode(nodes, i);
      LeafExactlyWhen(children, node);
      remaining := remaining[node := |children[node]|];
      if |children[node]| == 0 {
        QueuePushed(ready, node);
        ready := ready + [node];
      }
    }
    assert nodes[..|nodes|] == nodes;
    CountingStarted(children, remaining, Elements(ready));
  }

  lemma EmptyQueue()
    ensures Distinct<string>([]) && Elements<string>([]) == {}
  {
  }

  lemma NextNode(nodes: seq<string>, i: nat)
    requires Distinct(nodes) && i < |nodes|
    ensures nodes[i] in Elements(nodes) && nodes[i] !in Elements(nodes[..i])
    ensures Elements(nodes[..i + 1]) == Elements(nodes[..i]) + {nodes[i]}
    ensures nodes[..0] == []
  {
    assert nodes[..i + 1] == nodes[..i] + [nodes[i]];
  }

  lemma CountingStarted(children: Graph, remaining: Counters, queued: set<string>)
    requires remaining.Keys == children.Keys && forall p :: p in remaining ==> remaining[p] == |children[p]|
    requires forall p :: p in queued <==> p in remaining && IsLeaf(children, p)
    ensures CountersOk(children, {}, remaining) && QueueOk(children, {}, queued)
  {
    hide IsLeaf, Waiting;
    forall p | p in children
      ensures remaining[p] == Waiting(children, {}, p) && (IsLeaf(children, p) <==> children[p] <= {})
    {
      NothingDone(children, p);
    }
  }

  lemma NothingDone(children: Graph, p: string)
    requires p in children
    ensures Waiting(children, {}, p) == |children[p]| && (IsLeaf(children, p) <==> children[p] <= {})
  {
    assert children[p] - {} == children[p];
  }

  lemma QueuePopped(ready: seq<string>)
    requires Distinct(ready) && ready != []
    ensures Elements(ready[1..]) == Elements(ready) - {ready[0]} && ready[0] in Elements(ready) && Distinct(ready[1..])
  {
    assert ready == [ready[0]] + ready[1..];
  }

  lemma QueuePushed(ready: seq<string>, p: string)
    requires Distinct(ready) && p !in Elements(ready)
    ensures Elements(ready + [p]) == Elements(ready) + {p} && Distinct(ready + [p])
  {
  }

  lemma MirroredParents(children: Graph, parents: Parents, nodes: seq<string>, path: string)
    requires ParentsMirror(children, parents) && Elements(nodes) == children.Keys
    ensures IsAbove(children, path, Elements(InReportOrder(nodes, if path in parents then parents[path] else [])))
  {
    var listed := if path in parents then parents[path] else [];
    var above := Elements(InReportOrder(nodes, listed));
    forall p ensures p in above <==> Edge(children, p, path) {
      assert p in above <==> p in Elements(nodes) && p in listed;
    }
  }

  /** Orders the flow at the head of the queue and counts down its parents, in report order. */
  method OrderNext(nodes: seq<string>, children: Graph, parents: Parents, order: seq<string>, remaining: Counters,
                   ready: seq<string>)
    returns (order': seq<string>, remaining': Counters, ready': seq<string>)
    requires Distinct(nodes) && Elements(nodes) == children.Keys && ParentsMirror(children, parents)
    requires ready != [] && Distinct(ready) && OrderOk(children, order)
    requires CountersOk(children, Elements(order), remaining) && QueueOk(children, Elements(order), Elements(ready))
    ensures order' == order + [ready[0]] && OrderOk(children, order') && Distinct(ready')
    ensures CountersOk(children, Elements(order'), remaining') && QueueOk(children, Elements(order'), Elements(ready'))
  {
    hide ParentsMirror, Waiting, InReportOrder;
    var path := ready[0];
    QueuePopped(ready);
    ghost var done, before := Elements(order), Elements(ready[1..]);
    assert path in children && children[path] <= done && path !in done;
    order' := order + [path];
    OrderGrows(children, order, path);
    var above := InReportOrder(nodes, if path in parents then parents[path] else []);
    MirroredParents(children, parents, nodes, path);
    CountStart(children, done, path, Elements(above), Elements(ready), remaining);
    remaining', ready' := remaining, ready[1..];
    for j := 0 to |above|
      invariant Distinct(ready')
      invariant CountingDown(children, done, path, Elements(above[j..]), before, Elements(ready'), remaining')
    {
      var parent := above[j];
      assert parent in Elements(above) && Edge(children, parent, path);
      ParentsWait(children, done, path, Elements(ready), parent);
      assert Elements(above[j..]) - {parent} == Elements(above[j + 1..]) by {
        QueuePopped(above[j..]);
        assert above[j..][1..] == above[j + 1..];
      }
      CountStep(children, done, path, Elements(above[j..]), before, Elements(ready'), remaining', parent);
      remaining' := remaining'[parent := remaining'[parent] - 1];
      if remaining'[parent] == 0 {
        QueuePushed(ready', parent);
        ready' := ready' + [parent];
      }
    }
    assert Elements(above[|above|..]) == {};
    assert before + {path} == Elements(ready);
    CountEnd(children, done, path, Elements(ready'), before, remaining');
  }

  /** Kahn's algorithm: repeatedly orders a queued flow and counts down its parents. */
  method KahnOrder(nodes: seq<string>, children: Graph, parents: Parents) returns (order: seq<string>)
    requires Distinct(nodes) && Elements(nodes) == children.Keys && Closed(children) && ParentsMirror(children, parents)
    ensures OrderOk(children, order) && Elements(order) <= children.Keys
    ensures Elements(order) == children.Keys <==> Acyclic(children)
    ensures Elements(order) == children.Keys ==> ChildrenFirst(children, order)
  {
    hide ParentsMirror, Waiting, Acyclic, ChildrenFirst;
    var remaining, ready := StartCounting(nodes, children);
    order := [];
    assert Elements(order) == {};
    while |ready| > 0
      invariant OrderOk(children, order) && Distinct(ready)
      invariant CountersOk(children, Elements(order), remaining)
      invariant QueueOk(children, Elements(order), Elements(ready))
      decreases children.Keys - Elements(order)
    {
      var path := ready[0];
      assert path in Elements(ready);
      order, remaining, ready := OrderNext(nodes, children, parents, order, remaining, ready);
      assert path in Elements(order);
    }
    assert Elements(ready) == {};
    QueueDrained(children, order);
  }

  // ---------------------------------------------------------------------------
  // The flow order of a program
  // ---------------------------------------------------------------------------

  lemma {:induction false} GraphInside(report: Report)
    requires EdgesInside(report)
    ensures Closed(ReportGraph(report)) && ReportGraph(report).Keys == Elements(report.nodes)
  {
    var g := ReportGraph(report);
    forall from, to | Edge(g, from, to) ensures to in g {
      var i :| 0 <= i < |report.edges| && report.edges[i].kind.FlowLink? && report.edges[i].from == from
          && report.edges[i].to == to;
    }
  }

  /** Validates the program against its report and orders its flows, every child before its parents.
      It fails on a well-formed program exactly when the flow edges contain a cycle. */
  method PreparedFlowOrder(program: Program) returns (error: Option<OrderError>, order: seq<string>, children: Graph)
    ensures error.None? <==> WellFormed(program) && Acyclic(ReportGraph(program.graph))
    ensures error == Some(CyclicGraph) <==> WellFormed(program) && !Acyclic(ReportGraph(program.graph))
    ensures error.None? ==> children == ReportGraph(program.graph) && ChildrenFirst(children, order)
    ensures error.None? ==> multiset(order) == multiset(program.graph.nodes)
  {
    hide Acyclic, ChildrenFirst, EdgesInside, ReportGraph, ParentsMirror, NoBlankPaths;
    order, children := [], map[];
    if |program.graph.nodes| == 0 {
      return Some(NoFlows), order, children;
    }
    if |program.paths| != |program.graph.nodes| || |program.flows| != |program.graph.nodes| {
      if NodesAgree(program) {
        SizesOfAgreeingNodes(program);
      }
      return Some(ProgramDisagrees), order, children;
    }
    error := ValidateNodes(program);
    if error.Some? {
      return;
    }
    error := ValidateRoots(program);
    if error.Some? {
      return;
    }
    var parents;
    error, children, parents := LinkFlows(program.graph);
    if error.Some? {
      return;
    }
    GraphInside(program.graph);
    order := KahnOrder(program.graph.nodes, children, parents);
    var nodes := program.graph.nodes;
    DistinctCardinality(order);
    DistinctCardinality(nodes);
    SubsetCardinality(Elements(order), children.Keys);
    if |order| != |nodes| {
      error := Some(CyclicGraph);
      return;
    }
    SameElementsSameMultiset(order, nodes);
    error := None;
  }

  lemma {:induction false} SameElementsSameMultiset<T>(a: seq<T>, b: seq<T>)
    requires Distinct(a) && Distinct(b) && Elements(a) == Elements(b)
    ensures multiset(a) == multiset(b)
  {
    DistinctMultiset(a);
    DistinctMultiset(b);
    forall x ensures multiset(a)[x] == multiset(b)[x] {
      assert x in a <==> x in Elements(a);
      assert x in b <==> x in Elements(b);
    }
  }

  lemma {:induction false} DistinctMultiset<T>(a: seq<T>)
    requires Distinct(a)
    ensures forall x :: multiset(a)[x] == if x in a then 1 else 0
  {
    if a != [] {
      var front := a[..|a| - 1];
      DistinctMultiset(front);
      assert a == front + [a[|a| - 1]];
    }
  }
}
