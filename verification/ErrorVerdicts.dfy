/** The class of a valid graph without fatal errors, aggregates included, by the paths of the graph alone. */
module ErrorVerdicts {
  import opened Wrappers
  import opened TerminalErrors
  import opened ErrorTheorems

  // ---------------------------------------------------------------------------
  // Paths along which a class surfaces
  // ---------------------------------------------------------------------------

  /** The error unwraps to nothing. */
  ghost predicate Ending(node: ErrorNode) {
    forall x :: !Unwraps(node, x)
  }

  /** A wrapper of one cause with a class of its own hides a plain failure, unless an aggregate lies below. */
  ghost predicate Masks(heap: ErrorHeap, id: ErrorId)
    requires id in heap
  {
    heap[id].shape.Causal? && DirectAtNode(heap, id) != NoError
  }

  /** The path leads to an error without class and without anything below, and nothing on it hides that. */
  ghost predicate PlainPath(heap: ErrorHeap, path: seq<ErrorId>) {
    && Path(heap, path)
    && Ending(heap[path[|path| - 1]]) && DirectAtNode(heap, path[|path| - 1]) == NoError
    && forall i :: 0 <= i < |path| - 1 ==> Masks(heap, path[i]) ==> ReachesAggregate(heap, path[i + 1])
  }

  /** The error by itself is worth more than a skipped one. */
  ghost predicate StopsUnskipped(heap: ErrorHeap, id: ErrorId)
    requires id in heap
  {
    || (Ending(heap[id]) && DirectAtNode(heap, id) != Skipped)
    || (heap[id].shape.Aggregate? && DirectAtNode(heap, id) == Retryable)
  }

  /** The path leads to such an error without passing a skipped wrapper of one cause. */
  ghost predicate UnskippedPath(heap: ErrorHeap, path: seq<ErrorId>) {
    && Path(heap, path) && StopsUnskipped(heap, path[|path| - 1])
    && forall i :: 0 <= i < |path| - 1 ==> PassesUnskipped(heap, path[i])
  }

  ghost predicate PassesUnskipped(heap: ErrorHeap, id: ErrorId)
    requires id in heap
  {
    heap[id].shape.Causal? ==> DirectAtNode(heap, id) != Skipped
  }

  ghost predicate SurfacesPlain(heap: ErrorHeap, id: ErrorId) {
    exists path :: PlainPath(heap, path) && path[0] == id
  }

  ghost predicate SurfacesUnskipped(heap: ErrorHeap, id: ErrorId) {
    exists path :: UnskippedPath(heap, path) && path[0] == id
  }

  ghost predicate PlainThrough(heap: ErrorHeap, id: ErrorId, c: ErrorId)
    requires id in heap
  {
    Unwraps(heap[id], c) && SurfacesPlain(heap, c) && (Masks(heap, id) ==> ReachesAggregate(heap, c))
  }

  lemma {:induction false} PlainBelow(heap: ErrorHeap, id: ErrorId)
    requires ClosedHeap(heap) && id in heap
    ensures SurfacesPlain(heap, id) <==>
            || (Ending(heap[id]) && DirectAtNode(heap, id) == NoError)
            || exists c :: PlainThrough(heap, id, c)
  {
    hide DirectAtNode, ReachesAggregate, Ending, Masks;
    if Ending(heap[id]) && DirectAtNode(heap, id) == NoError {
      assert PlainPath(heap, [id]) && [id][0] == id;
    }
    if c :| PlainThrough(heap, id, c) {
      var path :| PlainPath(heap, path) && path[0] == c;
      PathPrepend(heap, id, path);
      PlainPrepend(heap, id, path);
    }
    if path :| PlainPath(heap, path) && path[0] == id {
      if |path| > 1 {
        PathTail(heap, path);
        assert PlainPath(heap, path[1..]);
        assert PlainThrough(heap, id, path[1]);
      }
    }
  }

  lemma PlainPrepend(heap: ErrorHeap, id: ErrorId, path: seq<ErrorId>)
    requires id in heap && PlainPath(heap, path) && Path(heap, [id] + path)
    requires (Masks(heap, id) ==> ReachesAggregate(heap, path[0]))
    ensures PlainPath(heap, [id] + path) && ([id] + path)[0] == id
  {
    hide DirectAtNode, ReachesAggregate, Ending, Masks;
    var longer := [id] + path;
    forall i | 0 <= i < |longer| - 1 ensures Masks(heap, longer[i]) ==> ReachesAggregate(heap, longer[i + 1]) {
      if i > 0 {
        assert longer[i] == path[i - 1] && longer[i + 1] == path[i];
      }
    }
  }

  ghost predicate UnskippedThrough(heap: ErrorHeap, id: ErrorId, c: ErrorId)
    requires id in heap
  {
    Unwraps(heap[id], c) && SurfacesUnskipped(heap, c) && PassesUnskipped(heap, id)
  }

  lemma {:induction false} UnskippedBelow(heap: ErrorHeap, id: ErrorId)
    requires ClosedHeap(heap) && id in heap
    ensures SurfacesUnskipped(heap, id) <==>
            StopsUnskipped(heap, id) || exists c :: UnskippedThrough(heap, id, c)
  {
    hide StopsUnskipped, PassesUnskipped;
    if StopsUnskipped(heap, id) {
      assert UnskippedPath(heap, [id]) && [id][0] == id;
    }
    if c :| UnskippedThrough(heap, id, c) {
      var path :| UnskippedPath(heap, path) && path[0] == c;
      PathPrepend(heap, id, path);
      UnskippedPrepend(heap, id, path);
    }
    if path :| UnskippedPath(heap, path) && path[0] == id {
      if |path| > 1 {
        PathTail(heap, path);
        assert UnskippedPath(heap, path[1..]);
        assert UnskippedThrough(heap, id, path[1]);
      }
    }
  }

  lemma UnskippedPrepend(heap: ErrorHeap, id: ErrorId, path: seq<ErrorId>)
    requires id in heap && UnskippedPath(heap, path) && Path(heap, [id] + path) && PassesUnskipped(heap, id)
    ensures UnskippedPath(heap, [id] + path) && ([id] + path)[0] == id
  {
    hide StopsUnskipped, PassesUnskipped;
    var longer := [id] + path;
    forall i | 0 <= i < |longer| - 1 ensures PassesUnskipped(heap, longer[i]) {
      if i > 0 {
        assert longer[i] == path[i - 1];
      }
    }
  }

  lemma AggregateAbove(heap: ErrorHeap, id: ErrorId, c: ErrorId)
    requires id in heap && Unwraps(heap[id], c) && ReachesAggregate(heap, c)
    ensures ReachesAggregate(heap, id)
  {
    var path :| Reaches(heap, c, path) && heap[path[|path| - 1]].shape.Aggregate?;
    PathPrepend(heap, id, path);
    assert Reaches(heap, id, [id] + path);
  }

  /** Where no aggregate lies below, a plain failure surfaces past no wrapper with a class. */
  lemma {:induction false} PlainWithoutAggregate(heap: ErrorHeap, id: ErrorId, path: seq<ErrorId>)
    requires ClosedHeap(heap) && PlainPath(heap, path) && path[0] == id && !ReachesAggregate(heap, id)
    ensures SurfacesUnskipped(heap, id)
    decreases |path|
  {
    hide ReachesAggregate, SurfacesUnskipped, DirectAtNode, Ending;
    UnskippedBelow(heap, id);
    if |path| > 1 {
      PathTail(heap, path);
      if ReachesAggregate(heap, path[1]) {
        AggregateAbove(heap, id, path[1]);
      }
      assert PlainPath(heap, path[1..]);
      PlainWithoutAggregate(heap, path[1], path[1..]);
      assert UnskippedThrough(heap, id, path[1]);
    }
  }

  // ---------------------------------------------------------------------------
  // One step of the classifier
  // ---------------------------------------------------------------------------

  ghost function VerdictOf(heap: ErrorHeap, c: ErrorId, depth: nat, active: set<ErrorId>): TerminalClass
    requires ClosedHeap(heap) && c in heap && depth <= MAX_DEPTH
  {
    Classify(heap, Some(c), depth, active).verdict
  }

  /** An error that unwraps to nothing has its own class. */
  lemma EndingVerdict(heap: ErrorHeap, id: ErrorId, depth: nat, below: set<ErrorId>)
    requires ClosedHeap(heap) && id in heap && depth < MAX_DEPTH
    requires !Contents(heap, heap[id], depth, below).invalid && Ending(heap[id])
    ensures Contents(heap, heap[id], depth, below).verdict == OwnClass(DirectAtNode(heap, id))
  {
    hide Classify, FoldBranches, DirectClass, ClassOf, MatchPanics;
    DirectClassIsTheClass(heap[id]);
    var node := heap[id];
    InvalidContents(heap, id, depth, below);
    if node.shape.Aggregate? {
      NilIsValid(heap, depth + 1, below);
      forall i | 0 <= i < |node.shape.branches| ensures node.shape.branches[i].None? {
        assert node.shape.branches[i].Some? ==> Unwraps(node, node.shape.branches[i].value);
      }
      FoldIsGreatest(heap, DirectClass(node).value, node.shape.branches, depth + 1, below);
      NilVerdict(heap, depth + 1, below);
    } else {
      assert node.shape.Causal? && node.shape.cause.Some? ==> Unwraps(node, node.shape.cause.value);
    }
  }

  lemma NilVerdict(heap: ErrorHeap, depth: nat, active: set<ErrorId>)
    requires ClosedHeap(heap) && depth <= MAX_DEPTH
    ensures Classify(heap, None, depth, active).verdict == NoError
  {
  }

  /** What a wrapper of one cause makes of a verdict that is not fatal. */
  lemma CausalVerdict(heap: ErrorHeap, id: ErrorId, c: ErrorId, depth: nat, below: set<ErrorId>)
    requires ClosedHeap(heap) && id in heap && depth < MAX_DEPTH && heap[id].shape.Causal? && Unwraps(heap[id], c)
    requires c in heap && !Contents(heap, heap[id], depth, below).invalid
    requires !Fatal(Contents(heap, heap[id], depth, below).verdict)
    ensures var verdict := Contents(heap, heap[id], depth, below).verdict;
            var under := VerdictOf(heap, c, depth + 1, below);
            var plain := under.PlainFailure? && Classify(heap, Some(c), depth + 1, below).containsAggregate;
            match DirectAtNode(heap, id)
            case NoError => verdict == under
            case Retryable => verdict == if under.Skipped? || plain then under else Retryable
            case Skipped => verdict == if plain then under else Skipped
            case _ => false
  {
    hide Classify, FoldBranches, DirectClass, ClassOf, MatchPanics;
    DirectClassIsTheClass(heap[id]);
    InvalidContents(heap, id, depth, below);
    FatalStep(heap, id, depth, below);
  }

  /** What an aggregate makes of verdicts that are not fatal: the plain failures win, then the retryable. */
  lemma AggregateVerdict(heap: ErrorHeap, id: ErrorId, depth: nat, below: set<ErrorId>)
    requires ClosedHeap(heap) && id in heap && depth < MAX_DEPTH && heap[id].shape.Aggregate? && !Ending(heap[id])
    requires !Contents(heap, heap[id], depth, below).invalid
    requires !Fatal(Contents(heap, heap[id], depth, below).verdict)
    ensures forall c :: Unwraps(heap[id], c) ==>
              c in heap && VerdictOf(heap, c, depth + 1, below) in {PlainFailure, Retryable, Skipped}
    ensures DirectAtNode(heap, id) in {NoError, Retryable, Skipped}
    ensures var verdict := Contents(heap, heap[id], depth, below).verdict;
            && (verdict == PlainFailure <==>
                exists c :: Unwraps(heap[id], c) && VerdictOf(heap, c, depth + 1, below) == PlainFailure)
            && (verdict == Skipped <==>
                  && DirectAtNode(heap, id) != Retryable
                  && forall c :: Unwraps(heap[id], c) ==> VerdictOf(heap, c, depth + 1, below) == Skipped)
  {
    hide Classify, FoldBranches, DirectClass, ClassOf, MatchPanics;
    DirectClassIsTheClass(heap[id]);
    var node := heap[id];
    InvalidContents(heap, id, depth, below);
    FatalStep(heap, id, depth, below);
    NilIsValid(heap, depth + 1, below);
    NilVerdict(heap, depth + 1, below);
    var direct := DirectClass(node).value;
    var branches := node.shape.branches;
    FoldIsGreatest(heap, direct, branches, depth + 1, below);
    var folded := FoldBranches(heap, direct, branches, depth + 1, below).verdict;
    forall c | Unwraps(node, c)
      ensures c in heap && VerdictOf(heap, c, depth + 1, below) in {PlainFailure, Retryable, Skipped}
      ensures Precedence(VerdictOf(heap, c, depth + 1, below)) <= Precedence(folded)
    {
      var i :| 0 <= i < |branches| && branches[i] == Some(c);
      NonNilHasVerdict(heap, c, depth + 1, below);
    }
    var child :| Unwraps(node, child);
    assert Precedence(folded) >= Precedence(VerdictOf(heap, child, depth + 1, below)) >= 1;
    if folded != direct {
      var i :| 0 <= i < |branches| && folded == Classify(heap, branches[i], depth + 1, below).verdict;
      assert branches[i].Some?;
      assert Unwraps(node, branches[i].value) && VerdictOf(heap, branches[i].value, depth + 1, below) == folded;
    }
  }

  // ---------------------------------------------------------------------------
  // The closed form
  // ---------------------------------------------------------------------------

  lemma FlagIsExactAt(heap: ErrorHeap, id: ErrorId, depth: nat, active: set<ErrorId>)
    requires ClosedHeap(heap) && id in heap && depth <= MAX_DEPTH && !Classify(heap, Some(id), depth, active).invalid
    ensures Classify(heap, Some(id), depth, active).containsAggregate <==> ReachesAggregate(heap, id)
  {
    hide Classify;
    if Classify(heap, Some(id), depth, active).containsAggregate {
      var path := AggregateIsReached(heap, id, depth, active);
    }
    if path :| Reaches(heap, id, path) && heap[path[|path| - 1]].shape.Aggregate? {
      AggregateIsSeen(heap, id, path, depth, active);
    }
  }

  /** The verdict is the one the surfacing paths call for. */
  ghost predicate AsSurfaced(heap: ErrorHeap, id: ErrorId, verdict: TerminalClass) {
    && verdict in {PlainFailure, Retryable, Skipped}
    && (verdict == PlainFailure <==> SurfacesPlain(heap, id))
    && (verdict == Skipped <==> !SurfacesPlain(heap, id) && !SurfacesUnskipped(heap, id))
  }

  /** The children of a valid error that is not fatal are valid and not fatal. */
  lemma ChildrenAreMild(heap: ErrorHeap, id: ErrorId, c: ErrorId, depth: nat, below: set<ErrorId>)
    requires ClosedHeap(heap) && id in heap && depth < MAX_DEPTH && Unwraps(heap[id], c)
    requires !Contents(heap, heap[id], depth, below).invalid && !Fatal(Contents(heap, heap[id], depth, below).verdict)
    ensures c in heap && !Classify(heap, Some(c), depth + 1, below).invalid
    ensures !Fatal(VerdictOf(heap, c, depth + 1, below))
  {
    hide Classify, Contents, DirectClass, ClassOf, MatchPanics;
    FatalStep(heap, id, depth, below);
  }

  lemma {:induction false} VerdictAsSurfaced(heap: ErrorHeap, id: ErrorId, depth: nat, active: set<ErrorId>)
    requires ClosedHeap(heap) && id in heap && depth <= MAX_DEPTH && !Classify(heap, Some(id), depth, active).invalid
    requires !Fatal(Classify(heap, Some(id), depth, active).verdict)
    ensures AsSurfaced(heap, id, Classify(heap, Some(id), depth, active).verdict)
    decreases MAX_DEPTH - depth
  {
    hide Classify, Contents, DirectAtNode, SurfacesPlain, SurfacesUnskipped, ReachesAggregate, Unwraps;
    ValidEnters(heap, id, depth, active);
    var node := heap[id];
    var below := Below(active, node, id);
    PlainBelow(heap, id);
    UnskippedBelow(heap, id);
    if Ending(node) {
      EndingVerdict(heap, id, depth, below);
      MildDirect(heap, id, depth, below);
    } else {
      forall c | Unwraps(node, c)
        ensures c in heap && AsSurfaced(heap, c, VerdictOf(heap, c, depth + 1, below))
        ensures Classify(heap, Some(c), depth + 1, below).containsAggregate <==> ReachesAggregate(heap, c)
        ensures SurfacesPlain(heap, c) && !ReachesAggregate(heap, c) ==> SurfacesUnskipped(heap, c)
      {
        ChildrenAreMild(heap, id, c, depth, below);
        VerdictAsSurfaced(heap, c, depth + 1, below);
        FlagIsExactAt(heap, c, depth + 1, below);
        PlainIsUnskipped(heap, c);
      }
      if node.shape.Aggregate? {
        AggregateVerdict(heap, id, depth, below);
        AggregateSurfaces(heap, id, depth, below);
      } else {
        CausalSurfaces(heap, id, depth, below);
      }
    }
  }

  /** The own class of a valid error that is not fatal is retryable, skipped or none. */
  lemma MildDirect(heap: ErrorHeap, id: ErrorId, depth: nat, below: set<ErrorId>)
    requires ClosedHeap(heap) && id in heap && depth < MAX_DEPTH && !Contents(heap, heap[id], depth, below).invalid
    requires !Fatal(Contents(heap, heap[id], depth, below).verdict)
    ensures DirectAtNode(heap, id) in {NoError, Retryable, Skipped}
  {
    hide Classify, Contents, DirectClass, ClassOf, MatchPanics;
    DirectClassIsTheClass(heap[id]);
    FatalStep(heap, id, depth, below);
    NeverDirectlyPlain(heap, id);
  }

  lemma NeverDirectlyPlain(heap: ErrorHeap, id: ErrorId)
    requires id in heap
    ensures DirectAtNode(heap, id) != PlainFailure
  {
  }

  lemma PlainIsUnskipped(heap: ErrorHeap, c: ErrorId)
    requires ClosedHeap(heap)
    ensures SurfacesPlain(heap, c) && !ReachesAggregate(heap, c) ==> SurfacesUnskipped(heap, c)
  {
    hide ReachesAggregate, SurfacesUnskipped;
    if SurfacesPlain(heap, c) && !ReachesAggregate(heap, c) {
      var path :| PlainPath(heap, path) && path[0] == c;
      PlainWithoutAggregate(heap, c, path);
    }
  }

  ghost predicate ChildrenSurfaced(heap: ErrorHeap, id: ErrorId, depth: nat, below: set<ErrorId>)
    requires ClosedHeap(heap) && id in heap && depth < MAX_DEPTH
  {
    forall c :: Unwraps(heap[id], c) ==>
      && c in heap && AsSurfaced(heap, c, VerdictOf(heap, c, depth + 1, below))
      && (Classify(heap, Some(c), depth + 1, below).containsAggregate <==> ReachesAggregate(heap, c))
      && (SurfacesPlain(heap, c) && !ReachesAggregate(heap, c) ==> SurfacesUnskipped(heap, c))
  }

  lemma AggregateSurfaces(heap: ErrorHeap, id: ErrorId, depth: nat, below: set<ErrorId>)
    requires ClosedHeap(heap) && id in heap && depth < MAX_DEPTH && heap[id].shape.Aggregate? && !Ending(heap[id])
    requires !Contents(heap, heap[id], depth, below).invalid && !Fatal(Contents(heap, heap[id], depth, below).verdict)
    requires ChildrenSurfaced(heap, id, depth, below)
    ensures AsSurfaced(heap, id, Contents(heap, heap[id], depth, below).verdict)
  {
    hide Classify, Contents, DirectAtNode, SurfacesPlain, SurfacesUnskipped, ReachesAggregate, Unwraps;
    PlainBelow(heap, id);
    UnskippedBelow(heap, id);
    AggregateVerdict(heap, id, depth, below);
    AggregateIsMild(heap, id, depth, below);
    forall c
      ensures PlainThrough(heap, id, c) <==>
                Unwraps(heap[id], c) && VerdictOf(heap, c, depth + 1, below) == PlainFailure
    {
    }
    forall c ensures UnskippedThrough(heap, id, c) <==> Unwraps(heap[id], c) && SurfacesUnskipped(heap, c) {
    }
  }

  lemma AggregateIsMild(heap: ErrorHeap, id: ErrorId, depth: nat, below: set<ErrorId>)
    requires ClosedHeap(heap) && id in heap && depth < MAX_DEPTH && !Contents(heap, heap[id], depth, below).invalid
    requires !Fatal(Contents(heap, heap[id], depth, below).verdict) && !Ending(heap[id]) && heap[id].shape.Aggregate?
    ensures Contents(heap, heap[id], depth, below).verdict in {PlainFailure, Retryable, Skipped}
  {
    hide Classify, FoldBranches, DirectClass, ClassOf, MatchPanics;
    AggregateVerdict(heap, id, depth, below);
  }

  lemma CausalSurfaces(heap: ErrorHeap, id: ErrorId, depth: nat, below: set<ErrorId>)
    requires ClosedHeap(heap) && id in heap && depth < MAX_DEPTH && !heap[id].shape.Aggregate? && !Ending(heap[id])
    requires !Contents(heap, heap[id], depth, below).invalid && !Fatal(Contents(heap, heap[id], depth, below).verdict)
    requires ChildrenSurfaced(heap, id, depth, below)
    ensures AsSurfaced(heap, id, Contents(heap, heap[id], depth, below).verdict)
  {
    hide Classify, Contents, DirectAtNode, SurfacesPlain, SurfacesUnskipped, ReachesAggregate;
    PlainBelow(heap, id);
    UnskippedBelow(heap, id);
    var c :| Unwraps(heap[id], c);
    CausalVerdict(heap, id, c, depth, below);
    assert forall x :: Unwraps(heap[id], x) ==> x == c;
    assert PlainThrough(heap, id, c) <==> SurfacesPlain(heap, c) && (Masks(heap, id) ==> ReachesAggregate(heap, c));
    assert UnskippedThrough(heap, id, c) <==> SurfacesUnskipped(heap, c) && PassesUnskipped(heap, id);
  }

  /** Closed form: a valid graph without reachable fatal errors is a plain failure exactly when a plain
      failure surfaces; otherwise retryable exactly when something worth more than a skipped error surfaces;
      otherwise skipped. */
  lemma {:induction false} MildVerdict(heap: ErrorHeap, id: ErrorId)
    requires ClosedHeap(heap) && id in heap && !Inspected(heap, Some(id)).invalid
    requires !ReachesClass(heap, id, Cancelled) && !ReachesClass(heap, id, DeviceConnection)
    requires !ReachesClass(heap, id, Configuration)
    ensures Inspected(heap, Some(id)).verdict ==
            if SurfacesPlain(heap, id) then PlainFailure
            else if SurfacesUnskipped(heap, id) then Retryable
            else Skipped
  {
    hide Classify, SurfacesPlain, SurfacesUnskipped, DirectAt;
    FatalMeansReached(heap, id);
    VerdictAsSurfaced(heap, id, 0, {});
  }

  lemma FatalMeansReached(heap: ErrorHeap, id: ErrorId)
    requires ClosedHeap(heap) && id in heap && !Inspected(heap, Some(id)).invalid
    ensures Fatal(Inspected(heap, Some(id)).verdict) ==> ReachesClass(heap, id, Inspected(heap, Some(id)).verdict)
  {
    hide Classify, DirectAt;
    if Fatal(Inspected(heap, Some(id)).verdict) {
      var path := FatalIsReached(heap, id, 0, {});
    }
  }
}
