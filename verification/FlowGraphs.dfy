/** Directed graphs over flow paths: walks, reachability, cycles, and children-first orders. */
module FlowGraphs {
  import opened Sequences

  /** Maps each flow to the flows it links. */
  type Graph = map<string, set<string>>

  ghost predicate Edge(g: Graph, from: string, to: string) {
    from in g && to in g[from]
  }

  ghost predicate Walk(g: Graph, w: seq<string>) {
    w != [] && forall i :: 0 <= i < |w| - 1 ==> Edge(g, w[i], w[i + 1])
  }

  ghost predicate Reachable(g: Graph, roots: set<string>, n: string) {
    exists w :: Walk(g, w) && w[0] in roots && w[|w| - 1] == n
  }

  /** A closed walk of at least one edge. */
  ghost predicate ClosedWalk(g: Graph, w: seq<string>) {
    Walk(g, w) && |w| >= 2 && w[0] == w[|w| - 1]
  }

  ghost predicate Acyclic(g: Graph) {
    forall w :: !ClosedWalk(g, w)
  }

  /** Every edge stays inside the graph's own nodes. */
  ghost predicate Closed(g: Graph) {
    forall from, to :: Edge(g, from, to) ==> to in g
  }

  ghost predicate Precedes(order: seq<string>, first: string, second: string) {
    exists i, j :: 0 <= i < j < |order| && order[i] == first && order[j] == second
  }

  /** `order` lists exactly the nodes of `g`, once each, every child before all of its parents. */
  ghost predicate ChildrenFirst(g: Graph, order: seq<string>) {
    && Distinct(order)
    && Elements(order) == g.Keys
    && forall parent, child :: Edge(g, parent, child) ==> Precedes(order, child, parent)
  }

  lemma OrderedChildIsNode(g: Graph, order: seq<string>, parent: string, child: string)
    requires ChildrenFirst(g, order) && Edge(g, parent, child)
    ensures child in g
  {
    assert Precedes(order, child, parent);
    assert child in Elements(order);
  }

  lemma OrderedIsClosed(g: Graph, order: seq<string>)
    requires ChildrenFirst(g, order)
    ensures Closed(g)
  {
    hide ChildrenFirst;
    forall parent, child | Edge(g, parent, child) ensures child in g {
      OrderedChildIsNode(g, order, parent, child);
    }
  }

  lemma PrecedesIsStrict(order: seq<string>, i: nat, j: nat)
    requires Distinct(order) && i < |order| && j < |order|
    requires Precedes(order, order[i], order[j])
    ensures i < j
  {
  }

  ghost function IndexOf(order: seq<string>, n: string): (i: nat)
    requires n in order
    ensures i < |order| && order[i] == n
  {
    var i :| 0 <= i < |order| && order[i] == n;
    i
  }

  /** Along a walk the position in a children-first order falls. */
  lemma {:induction false} WalkDescends(g: Graph, order: seq<string>, w: seq<string>)
    requires ChildrenFirst(g, order) && Walk(g, w) && |w| >= 2
    ensures w[0] in order && w[|w| - 1] in order
    ensures IndexOf(order, w[|w| - 1]) < IndexOf(order, w[0])
    decreases |w|
  {
    var last := |w| - 1;
    assert Edge(g, w[last - 1], w[last]);
    assert Precedes(order, w[last], w[last - 1]);
    PrecedesIsStrict(order, IndexOf(order, w[last]), IndexOf(order, w[last - 1]));
    if last > 1 {
      var prefix := w[..last];
      forall i | 0 <= i < |prefix| - 1 ensures Edge(g, prefix[i], prefix[i + 1]) {
        assert Edge(g, w[i], w[i + 1]);
      }
      WalkDescends(g, order, prefix);
    }
  }

  lemma {:induction false} OrderedIsAcyclic(g: Graph, order: seq<string>)
    requires ChildrenFirst(g, order)
    ensures Acyclic(g)
  {
    forall w | ClosedWalk(g, w) ensures false {
      WalkDescends(g, order, w);
    }
  }

  ghost predicate HasChildIn(g: Graph, pool: set<string>, n: string) {
    exists c :: c in pool && Edge(g, n, c)
  }

  /** Every node of `stuck` has a child in `stuck`. */
  ghost predicate Stuck(g: Graph, stuck: set<string>) {
    forall n {:trigger HasChildIn(g, stuck, n)} :: n in stuck ==> HasChildIn(g, stuck, n)
  }

  lemma {:induction false} StuckWalk(g: Graph, stuck: set<string>, start: string, length: nat) returns (w: seq<string>)
    requires Stuck(g, stuck) && start in stuck
    ensures Walk(g, w) && |w| == length + 1 && forall i :: 0 <= i < |w| ==> w[i] in stuck
  {
    if length == 0 {
      w := [start];
    } else {
      var v := StuckWalk(g, stuck, start, length - 1);
      assert HasChildIn(g, stuck, v[|v| - 1]);
      var c :| c in stuck && Edge(g, v[|v| - 1], c);
      w := v + [c];
      forall i | 0 <= i < |w| - 1 ensures Edge(g, w[i], w[i + 1]) {
        if i < |v| - 1 {
          assert Edge(g, v[i], v[i + 1]);
        }
      }
    }
  }

  /** A non-empty set of nodes that all have a child inside the set contains a cycle. */
  lemma {:induction false} StuckHasCycle(g: Graph, stuck: set<string>)
    requires stuck != {} && Stuck(g, stuck)
    ensures !Acyclic(g)
  {
    var start :| start in stuck;
    var w := StuckWalk(g, stuck, start, |stuck|);
    Pigeonhole(w, stuck);
    var i, j :| 0 <= i < j < |w| && w[i] == w[j];
    var loop := w[i..j + 1];
    forall k | 0 <= k < |loop| - 1 ensures Edge(g, loop[k], loop[k + 1]) {
      assert Edge(g, w[i + k], w[i + k + 1]);
    }
    assert ClosedWalk(g, loop);
  }

  lemma {:induction false} AcyclicWalkNeverReturns(g: Graph, w: seq<string>, i: nat)
    requires Acyclic(g) && Walk(g, w) && i < |w| - 1
    ensures w[i] != w[|w| - 1]
  {
    var loop := w[i..];
    forall j | 0 <= j < |loop| - 1 ensures Edge(g, loop[j], loop[j + 1]) {
      assert Edge(g, w[i + j], w[i + j + 1]);
    }
    assert !ClosedWalk(g, loop);
  }

  lemma {:induction false} ReachableStaysInside(g: Graph, roots: set<string>, inside: set<string>, w: seq<string>)
    requires Walk(g, w) && w[0] in roots
    requires roots <= inside && forall from, to :: from in inside && Edge(g, from, to) ==> to in inside
    ensures w[|w| - 1] in inside
    decreases |w|
  {
    if |w| > 1 {
      var prefix := w[..|w| - 1];
      forall i | 0 <= i < |prefix| - 1 ensures Edge(g, prefix[i], prefix[i + 1]) {
        assert Edge(g, w[i], w[i + 1]);
      }
      ReachableStaysInside(g, roots, inside, prefix);
      assert Edge(g, w[|w| - 2], w[|w| - 1]);
    }
  }

  lemma {:induction false} ReachableStep(g: Graph, roots: set<string>, from: string, to: string)
    requires Reachable(g, roots, from) && Edge(g, from, to)
    ensures Reachable(g, roots, to)
  {
    var w :| Walk(g, w) && w[0] in roots && w[|w| - 1] == from;
    var longer := w + [to];
    forall i | 0 <= i < |longer| - 1 ensures Edge(g, longer[i], longer[i + 1]) {
      if i < |w| - 1 {
        assert Edge(g, w[i], w[i + 1]);
      }
    }
    assert longer[0] in roots && longer[|longer| - 1] == to && Walk(g, longer);
  }

  lemma {:induction false} RootReachable(g: Graph, roots: set<string>, n: string)
    requires n in roots
    ensures Reachable(g, roots, n)
  {
    assert Walk(g, [n]) && [n][0] in roots;
  }
}
