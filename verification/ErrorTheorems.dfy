/** What the classifier computes: when a graph is malformed, and which class a valid graph has. */
module ErrorTheorems {
  import opened Wrappers
  import opened TerminalErrors

  // ---------------------------------------------------------------------------
  // Paths through an error graph
  // ---------------------------------------------------------------------------

  /** `child` is the cause or a branch that unwrapping `node` yields. */
  ghost predicate Unwraps(node: ErrorNode, child: ErrorId) {
    match node.shape
    case Plain => false
    case Causal(panics, cause) => !panics && cause == Some(child)
    case Aggregate(panics, branches) => !panics && Some(child) in branches
  }

  /** A chain of errors, each unwrapped from the one before. */
  ghost predicate Path(heap: ErrorHeap, path: seq<ErrorId>) {
    && path != []
    && (forall i :: 0 <= i < |path| ==> path[i] in heap)
    && (forall i :: 0 <= i < |path| - 1 ==> Unwraps(heap[path[i]], path[i + 1]))
  }

  // ---------------------------------------------------------------------------
  // The class of one error, by its own data
  // ---------------------------------------------------------------------------

  /** The answer to whether the error can be cast to a product error. */
  ghost function CastAnswer(casts: Casts, kind: ErrorKind): Answer {
    match kind
    case DeviceConnectionKind => casts.deviceConnection
    case ConfigurationKind => casts.configuration
    case SkippedKind => casts.skipped
    case OperationKind => casts.operation
    case AssertionKind => casts.assertion
    case ForeignKind => No
  }

  /** The product errors in the order in which a foreign error is asked for them. */
  const ASKED := [DeviceConnectionKind, ConfigurationKind, SkippedKind, OperationKind, AssertionKind]

  /** The cast that decides is the first one that is not answered with no. */
  ghost predicate CastDecides(casts: Casts, kind: ErrorKind, answer: Answer) {
    exists i :: 0 <= i < |ASKED| && ASKED[i] == kind && CastAnswer(casts, ASKED[i]) == answer
        && forall j :: 0 <= j < i ==> CastAnswer(casts, ASKED[j]).No?
  }

  /** The error matches a cancelled context or, failing that, an expired deadline. */
  ghost predicate IsCancellation(node: ErrorNode) {
    node.canceled.Yes? || (node.canceled.No? && node.deadline.Yes?)
  }

  ghost predicate IsNoCancellation(node: ErrorNode) {
    node.canceled.No? && node.deadline.No?
  }

  /** The error is a product error of this kind, or a foreign error that answers to be one. */
  ghost predicate IsProduct(node: ErrorNode, kind: ErrorKind)
    requires !kind.ForeignKind?
  {
    && IsNoCancellation(node)
    && (node.kind == kind || (node.kind.ForeignKind? && CastDecides(node.casts, kind, Yes)))
  }

  /** The class of an error by itself: failed operations and failed assertions can both be retried. */
  ghost function ClassOf(node: ErrorNode): TerminalClass {
    if IsCancellation(node) then Cancelled
    else if IsProduct(node, DeviceConnectionKind) then DeviceConnection
    else if IsProduct(node, ConfigurationKind) then Configuration
    else if IsProduct(node, SkippedKind) then Skipped
    else if IsProduct(node, OperationKind) || IsProduct(node, AssertionKind) then Retryable
    else NoError
  }

  /** One of the matching methods that decide the class panics. */
  ghost predicate MatchPanics(node: ErrorNode) {
    || node.canceled.Panics?
    || (node.canceled.No? && node.deadline.Panics?)
    || (IsNoCancellation(node) && node.kind.ForeignKind? && exists kind :: CastDecides(node.casts, kind, Panics))
  }

  lemma CastDecidesAt(casts: Casts, i: nat, answer: Answer)
    requires i < |ASKED|
    ensures CastDecides(casts, ASKED[i], answer) <==>
            CastAnswer(casts, ASKED[i]) == answer && forall j :: 0 <= j < i ==> CastAnswer(casts, ASKED[j]).No?
  {
  }

  lemma ForeignNeverDecides(casts: Casts)
    ensures !CastDecides(casts, ForeignKind, Panics)
  {
  }

  lemma AskedInTurn(casts: Casts, answer: Answer)
    ensures CastDecides(casts, DeviceConnectionKind, answer) <==> casts.deviceConnection == answer
    ensures CastDecides(casts, ConfigurationKind, answer) <==>
              casts.deviceConnection.No? && casts.configuration == answer
    ensures CastDecides(casts, SkippedKind, answer) <==>
              casts.deviceConnection.No? && casts.configuration.No? && casts.skipped == answer
    ensures CastDecides(casts, OperationKind, answer) <==>
              casts.deviceConnection.No? && casts.configuration.No? && casts.skipped.No? && casts.operation == answer
    ensures CastDecides(casts, AssertionKind, answer) <==>
              casts.deviceConnection.No? && casts.configuration.No? && casts.skipped.No? && casts.operation.No?
              && casts.assertion == answer
  {
    CastDecidesAt(casts, 0, answer);
    CastDecidesAt(casts, 1, answer);
    CastDecidesAt(casts, 2, answer);
    CastDecidesAt(casts, 3, answer);
    CastDecidesAt(casts, 4, answer);
  }

  lemma FirstCastStep(answer: Answer, verdict: TerminalClass, rest: seq<(Answer, TerminalClass)>)
    ensures FirstCast([(answer, verdict)] + rest) ==
            match answer
            case Panics => None
            case Yes => Some(verdict)
            case No => FirstCast(rest)
  {
    assert ([(answer, verdict)] + rest)[1..] == rest;
  }

  lemma ForeignCasts(node: ErrorNode)
    requires IsNoCancellation(node) && node.kind.ForeignKind?
    ensures DirectClass(node).None? <==> exists kind :: CastDecides(node.casts, kind, Panics)
    ensures DirectClass(node) == Some(DeviceConnection) <==> CastDecides(node.casts, DeviceConnectionKind, Yes)
    ensures DirectClass(node) == Some(Configuration) <==> CastDecides(node.casts, ConfigurationKind, Yes)
    ensures DirectClass(node) == Some(Skipped) <==> CastDecides(node.casts, SkippedKind, Yes)
    ensures DirectClass(node) == Some(Retryable) <==>
              CastDecides(node.casts, OperationKind, Yes) || CastDecides(node.casts, AssertionKind, Yes)
    ensures DirectClass(node) != Some(Cancelled)
  {
    hide CastDecides;
    var casts := node.casts;
    AskedInTurn(casts, Yes);
    AskedInTurn(casts, Panics);
    ForeignNeverDecides(casts);
    var c4 := [(casts.assertion, Retryable)];
    var c3 := [(casts.operation, Retryable)] + c4;
    var c2 := [(casts.skipped, Skipped)] + c3;
    var c1 := [(casts.configuration, Configuration)] + c2;
    assert DirectClass(node) == FirstCast([(casts.deviceConnection, DeviceConnection)] + c1) by {
      assert [(casts.deviceConnection, DeviceConnection)] + c1 ==
          [(casts.deviceConnection, DeviceConnection), (casts.configuration, Configuration), (casts.skipped, Skipped),
           (casts.operation, Retryable), (casts.assertion, Retryable)];
    }
    hide DirectClass, FirstCast;
    FirstCastStep(casts.deviceConnection, DeviceConnection, c1);
    FirstCastStep(casts.configuration, Configuration, c2);
    FirstCastStep(casts.skipped, Skipped, c3);
    FirstCastStep(casts.operation, Retryable, c4);
    FirstCastStep(casts.assertion, Retryable, []);
    assert c4 == [(casts.assertion, Retryable)] + [];
    NothingAsked();
    if kind :| CastDecides(casts, kind, Panics) {
      match kind
      case DeviceConnectionKind =>
      case ConfigurationKind =>
      case SkippedKind =>
      case OperationKind =>
      case AssertionKind =>
      case ForeignKind =>
    }
  }

  lemma NothingAsked()
    ensures FirstCast([]) == Some(NoError)
  {
  }

  /** The classifier reads the class of an error, or the panic, from its data. */
  lemma {:induction false} DirectClassIsTheClass(node: ErrorNode)
    ensures DirectClass(node).None? <==> MatchPanics(node)
    ensures ClassOf(node) == if DirectClass(node).Some? then DirectClass(node).value else NoError
  {
    hide CastDecides, FirstCast;
    if IsNoCancellation(node) && node.kind.ForeignKind? {
      ForeignCasts(node);
    }
  }

  ghost predicate UnwrapPanics(node: ErrorNode) {
    (node.shape.Causal? || node.shape.Aggregate?) && node.shape.panics
  }

  /** The last error of a path is malformed: it lies too deep, is a typed nil, is its own ancestor, or panics. */
  ghost predicate EndsBadly(heap: ErrorHeap, path: seq<ErrorId>, depth: nat, active: set<ErrorId>)
    requires Path(heap, path)
  {
    var last := path[|path| - 1];
    var node := heap[last];
    || depth + |path| > 128
    || node.typedNil
    || (node.tracked && (last in active || last in path[..|path| - 1]))
    || MatchPanics(node)
    || UnwrapPanics(node)
  }

  ghost predicate BadPath(heap: ErrorHeap, root: ErrorId, path: seq<ErrorId>, depth: nat, active: set<ErrorId>) {
    Path(heap, path) && path[0] == root && EndsBadly(heap, path, depth, active)
  }

  lemma PathPrepend(heap: ErrorHeap, id: ErrorId, path: seq<ErrorId>)
    requires Path(heap, path) && id in heap && Unwraps(heap[id], path[0])
    ensures Path(heap, [id] + path)
  {
    var longer := [id] + path;
    forall i | 0 <= i < |longer| - 1 ensures Unwraps(heap[longer[i]], longer[i + 1]) {
      if i > 0 {
        assert Unwraps(heap[path[i - 1]], path[i]);
      }
    }
  }

  lemma PathTail(heap: ErrorHeap, path: seq<ErrorId>)
    requires Path(heap, path) && |path| > 1
    ensures Path(heap, path[1..]) && Unwraps(heap[path[0]], path[1])
  {
    forall i | 0 <= i < |path[1..]| - 1 ensures Unwraps(heap[path[1..][i]], path[1..][i + 1]) {
      assert Unwraps(heap[path[i + 1]], path[i + 2]);
    }
  }

  /** An error that is entered passed the entry checks. */
  ghost predicate Enters(heap: ErrorHeap, id: ErrorId, depth: nat, active: set<ErrorId>)
    requires id in heap
  {
    depth < MAX_DEPTH && !heap[id].typedNil && !(heap[id].tracked && id in active)
  }

  lemma {:induction false} FoldInvalid(heap: ErrorHeap, direct: TerminalClass, branches: seq<ErrorRef>, depth: nat,
                                       active: set<ErrorId>)
    requires ClosedHeap(heap) && depth <= MAX_DEPTH && forall i :: 0 <= i < |branches| ==> RefIn(heap, branches[i])
    ensures FoldBranches(heap, direct, branches, depth, active).invalid
       <==> exists i :: 0 <= i < |branches| && Classify(heap, branches[i], depth, active).invalid
    ensures FoldBranches(heap, direct, branches, depth, active).containsAggregate
    ensures FoldBranches(heap, direct, branches, depth, active).invalid ==>
              FoldBranches(heap, direct, branches, depth, active) == Invalid(true)
  {
    hide Classify, MergeAggregate;
    if branches != [] {
      var last := |branches| - 1;
      FoldInvalid(heap, direct, branches[..last], depth, active);
      if i :| 0 <= i < |branches| && Classify(heap, branches[i], depth, active).invalid {
        if i < last {
          assert branches[..last][i] == branches[i];
        }
      }
    }
  }

  /** An entered error is invalid exactly when it panics or unwraps to something invalid. */
  lemma {:induction false} InvalidContents(heap: ErrorHeap, id: ErrorId, depth: nat, below: set<ErrorId>)
    requires ClosedHeap(heap) && id in heap && depth < MAX_DEPTH
    ensures NodeClosed(heap, heap[id])
    ensures forall c :: Unwraps(heap[id], c) ==> c in heap
    ensures Contents(heap, heap[id], depth, below).invalid
       <==> DirectClass(heap[id]).None? || UnwrapPanics(heap[id])
            || exists c :: Unwraps(heap[id], c) && Classify(heap, Some(c), depth + 1, below).invalid
  {
    hide Classify, FoldBranches, DirectClass, ClassOf, MatchPanics, Precedence;
    var node := heap[id];
    assert NodeClosed(heap, node);
    if node.shape.Aggregate? && !node.shape.panics && DirectClass(node).Some? {
      var branches := node.shape.branches;
      FoldInvalid(heap, DirectClass(node).value, branches, depth + 1, below);
      forall c | Unwraps(node, c) ensures c in heap {
        var i :| 0 <= i < |branches| && branches[i] == Some(c);
        assert RefIn(heap, branches[i]);
      }
      if i :| 0 <= i < |branches| && Classify(heap, branches[i], depth + 1, below).invalid {
        NilIsValid(heap, depth + 1, below);
        assert Unwraps(node, branches[i].value);
      }
    } else if node.shape.Aggregate? && !node.shape.panics {
      var branches := node.shape.branches;
      forall c | Unwraps(node, c) ensures c in heap {
        var i :| 0 <= i < |branches| && branches[i] == Some(c);
        assert RefIn(heap, branches[i]);
      }
    }
  }

  lemma NilIsValid(heap: ErrorHeap, depth: nat, active: set<ErrorId>)
    requires ClosedHeap(heap) && depth <= MAX_DEPTH
    ensures Classify(heap, None, depth, active) == Classification(NoError, false, false)
  {
  }

  /** From a malformed verdict, the path that explains it. */
  lemma {:induction false} FindBadPath(heap: ErrorHeap, id: ErrorId, depth: nat, active: set<ErrorId>)
    returns (path: seq<ErrorId>)
    requires ClosedHeap(heap) && id in heap && depth <= MAX_DEPTH && Classify(heap, Some(id), depth, active).invalid
    ensures BadPath(heap, id, path, depth, active)
    decreases MAX_DEPTH - depth
  {
    hide Contents, DirectClass, ClassOf, MatchPanics, UnwrapPanics;
    DirectClassIsTheClass(heap[id]);
    var node := heap[id];
    path := [id];
    if Enters(heap, id, depth, active) {
      var below := Below(active, node, id);
      InvalidContents(heap, id, depth, below);
      if DirectClass(node).Some? && !UnwrapPanics(node) {
        var c :| Unwraps(node, c) && Classify(heap, Some(c), depth + 1, below).invalid;
        var rest := FindBadPath(heap, c, depth + 1, below);
        path := [id] + rest;
        PathPrepend(heap, id, rest);
        LongerBadPath(heap, id, rest, depth, active);
      }
    }
  }

  lemma LongerBadPath(heap: ErrorHeap, id: ErrorId, rest: seq<ErrorId>, depth: nat, active: set<ErrorId>)
    requires id in heap && Path(heap, rest) && Path(heap, [id] + rest)
    ensures EndsBadly(heap, [id] + rest, depth, active) <==>
              EndsBadly(heap, rest, depth + 1, Below(active, heap[id], id))
  {
    hide DirectClass, ClassOf, MatchPanics, UnwrapPanics;
    var path := [id] + rest;
    assert path[..|path| - 1] == [id] + rest[..|rest| - 1];
    assert path[|path| - 1] == rest[|rest| - 1];
  }

  /** Every bad path makes the verdict malformed. */
  lemma {:induction false} BadPathIsFound(heap: ErrorHeap, id: ErrorId, path: seq<ErrorId>, depth: nat,
                                          active: set<ErrorId>)
    requires ClosedHeap(heap) && id in heap && depth <= MAX_DEPTH && BadPath(heap, id, path, depth, active)
    ensures Classify(heap, Some(id), depth, active).invalid
    decreases |path|
  {
    hide Contents, DirectClass, ClassOf, MatchPanics, UnwrapPanics;
    DirectClassIsTheClass(heap[id]);
    var node := heap[id];
    if Enters(heap, id, depth, active) {
      var below := Below(active, node, id);
      InvalidContents(heap, id, depth, below);
      if |path| > 1 {
        PathTail(heap, path);
        assert path == [id] + path[1..];
        LongerBadPath(heap, id, path[1..], depth, active);
        BadPathIsFound(heap, path[1], path[1..], depth + 1, below);
      }
    }
  }

  /** An error graph is malformed exactly when some path from its root meets a typed nil, a panicking
      method, a tracked error that is its own ancestor, or more than MAX_DEPTH errors. */
  lemma {:induction false} MalformedExactlyWhenPathIsBad(heap: ErrorHeap, id: ErrorId)
    requires ClosedHeap(heap) && id in heap
    ensures Inspected(heap, Some(id)).invalid <==> exists path :: BadPath(heap, id, path, 0, {})
  {
    hide Classify, BadPath;
    if Inspected(heap, Some(id)).invalid {
      var path := FindBadPath(heap, id, 0, {});
    }
    if path :| BadPath(heap, id, path, 0, {}) {
      BadPathIsFound(heap, id, path, 0, {});
    }
  }

  // ---------------------------------------------------------------------------
  // The class of a valid graph
  // ---------------------------------------------------------------------------

  ghost predicate Reaches(heap: ErrorHeap, id: ErrorId, path: seq<ErrorId>) {
    Path(heap, path) && path[0] == id
  }

  /** The class of the last error of a path by itself. */
  ghost function DirectAt(heap: ErrorHeap, path: seq<ErrorId>): TerminalClass
    requires Path(heap, path)
  {
    ClassOf(heap[path[|path| - 1]])
  }

  /** The fold of an aggregate's branches keeps the greatest class. */
  lemma {:induction false} FoldIsGreatest(heap: ErrorHeap, direct: TerminalClass, branches: seq<ErrorRef>, depth: nat,
                                          active: set<ErrorId>)
    requires ClosedHeap(heap) && depth <= MAX_DEPTH && forall i :: 0 <= i < |branches| ==> RefIn(heap, branches[i])
    requires !FoldBranches(heap, direct, branches, depth, active).invalid
    ensures var folded := FoldBranches(heap, direct, branches, depth, active).verdict;
            && Precedence(folded) >= Precedence(direct)
            && (forall i :: 0 <= i < |branches| ==>
                Precedence(folded) >= Precedence(Classify(heap, branches[i], depth, active).verdict))
            && (folded == direct
                || exists i :: 0 <= i < |branches| && folded == Classify(heap, branches[i], depth, active).verdict)
  {
    hide Classify, MergeAggregate, Precedence;
    if branches != [] {
      var last := |branches| - 1;
      FoldIsGreatest(heap, direct, branches[..last], depth, active);
      var earlier := FoldBranches(heap, direct, branches[..last], depth, active).verdict;
      var folded := FoldBranches(heap, direct, branches, depth, active).verdict;
      forall i | 0 <= i < |branches|
        ensures Precedence(folded) >= Precedence(Classify(heap, branches[i], depth, active).verdict)
      {
        if i < last {
          assert branches[..last][i] == branches[i];
        }
      }
      if folded == earlier && earlier != direct {
        var i :| 0 <= i < last && earlier == Classify(heap, branches[..last][i], depth, active).verdict;
        assert branches[i] == branches[..last][i];
      }
    }
  }

  /** What a valid error contributes to the verdict on the error that unwraps to it. */
  lemma {:induction false} FatalStep(heap: ErrorHeap, id: ErrorId, depth: nat, below: set<ErrorId>)
    requires ClosedHeap(heap) && id in heap && depth < MAX_DEPTH
    requires !Contents(heap, heap[id], depth, below).invalid
    ensures forall c :: Unwraps(heap[id], c) ==> c in heap && !Classify(heap, Some(c), depth + 1, below).invalid
    ensures DirectClass(heap[id]).Some?
    ensures var verdict := Contents(heap, heap[id], depth, below).verdict;
            var direct := DirectClass(heap[id]).value;
            && (Fatal(direct) ==> Precedence(verdict) >= Precedence(direct))
            && (forall c :: Unwraps(heap[id], c) && Fatal(Classify(heap, Some(c), depth + 1, below).verdict)
                  ==> Precedence(verdict) >= Precedence(Classify(heap, Some(c), depth + 1, below).verdict))
            && (Fatal(verdict) ==>
                  verdict == direct
                  || exists c :: Unwraps(heap[id], c) && verdict == Classify(heap, Some(c), depth + 1, below).verdict)
  {
    hide Classify, FoldBranches, DirectClass, ClassOf, MatchPanics;
    var node := heap[id];
    InvalidContents(heap, id, depth, below);
    if node.shape.Aggregate? {
      var branches := node.shape.branches;
      var direct := DirectClass(node).value;
      FoldIsGreatest(heap, direct, branches, depth + 1, below);
      NilIsValid(heap, depth + 1, below);
      var folded := FoldBranches(heap, direct, branches, depth + 1, below).verdict;
      forall c: ErrorId | Unwraps(node, c)
        ensures Precedence(folded) >= Precedence(Classify(heap, Some(c), depth + 1, below).verdict)
      {
        var i :| 0 <= i < |branches| && branches[i] == Some(c);
      }
      if Fatal(folded) && folded != direct {
        var i :| 0 <= i < |branches| && folded == Classify(heap, branches[i], depth + 1, below).verdict;
        assert branches[i].Some?;
        assert Unwraps(node, branches[i].value);
      }
    }
  }

  /** A valid error's entry checks passed. */
  lemma ValidEnters(heap: ErrorHeap, id: ErrorId, depth: nat, active: set<ErrorId>)
    requires ClosedHeap(heap) && id in heap && depth <= MAX_DEPTH && !Classify(heap, Some(id), depth, active).invalid
    ensures Enters(heap, id, depth, active)
    ensures Classify(heap, Some(id), depth, active) == Contents(heap, heap[id], depth, Below(active, heap[id], id))
  {
    hide Contents;
  }

  /** No fatal error anywhere below a valid root is outranked by the verdict. */
  lemma {:induction false} FatalIsSeen(heap: ErrorHeap, id: ErrorId, path: seq<ErrorId>, depth: nat,
                                       active: set<ErrorId>)
    requires ClosedHeap(heap) && id in heap && depth <= MAX_DEPTH && !Classify(heap, Some(id), depth, active).invalid
    requires Reaches(heap, id, path) && Fatal(DirectAt(heap, path))
    ensures Fatal(Classify(heap, Some(id), depth, active).verdict)
    ensures Precedence(Classify(heap, Some(id), depth, active).verdict) >= Precedence(DirectAt(heap, path))
    decreases |path|
  {
    hide Classify, Contents, DirectClass, ClassOf, MatchPanics;
    DirectClassIsTheClass(heap[id]);
    ValidEnters(heap, id, depth, active);
    var below := Below(active, heap[id], id);
    FatalStep(heap, id, depth, below);
    if |path| > 1 {
      PathTail(heap, path);
      FatalIsSeen(heap, path[1], path[1..], depth + 1, below);
    }
  }

  /** A fatal verdict names an error that is really there. */
  lemma {:induction false} FatalIsReached(heap: ErrorHeap, id: ErrorId, depth: nat, active: set<ErrorId>)
    returns (path: seq<ErrorId>)
    requires ClosedHeap(heap) && id in heap && depth <= MAX_DEPTH && !Classify(heap, Some(id), depth, active).invalid
    requires Fatal(Classify(heap, Some(id), depth, active).verdict)
    ensures Reaches(heap, id, path) && DirectAt(heap, path) == Classify(heap, Some(id), depth, active).verdict
    decreases MAX_DEPTH - depth
  {
    hide Classify, Contents, DirectClass, ClassOf, MatchPanics;
    DirectClassIsTheClass(heap[id]);
    ValidEnters(heap, id, depth, active);
    var below := Below(active, heap[id], id);
    FatalStep(heap, id, depth, below);
    var verdict := Classify(heap, Some(id), depth, active).verdict;
    path := [id];
    if verdict != DirectClass(heap[id]).value {
      var c :| Unwraps(heap[id], c) && verdict == Classify(heap, Some(c), depth + 1, below).verdict;
      var rest := FatalIsReached(heap, c, depth + 1, below);
      PathPrepend(heap, id, rest);
      path := [id] + rest;
    }
  }

  /** Closed form, fatal part: a valid graph is classified as the fatal class c exactly when an error of
      class c is reachable and no reachable error outranks it. */
  lemma {:induction false} FatalVerdictIsGreatestReachable(heap: ErrorHeap, id: ErrorId, c: TerminalClass)
    requires ClosedHeap(heap) && id in heap && !Inspected(heap, Some(id)).invalid && Fatal(c)
    ensures Inspected(heap, Some(id)).verdict == c <==>
              && (exists path :: Reaches(heap, id, path) && DirectAt(heap, path) == c)
              && (forall path :: Reaches(heap, id, path) && Fatal(DirectAt(heap, path)) ==>
                  Precedence(DirectAt(heap, path)) <= Precedence(c))
  {
    hide Classify, DirectAt, Precedence;
    var verdict := Inspected(heap, Some(id)).verdict;
    forall path | Reaches(heap, id, path) && Fatal(DirectAt(heap, path))
      ensures Fatal(verdict) && Precedence(DirectAt(heap, path)) <= Precedence(verdict)
    {
      FatalIsSeen(heap, id, path, 0, {});
    }
    if Fatal(verdict) {
      var path := FatalIsReached(heap, id, 0, {});
      if Precedence(verdict) == Precedence(c) {
        PrecedenceIsInjective(verdict, c);
      }
    }
  }

  /** A retryable verdict means no reachable error is fatal. */
  lemma {:induction false} RetryableHidesNothingFatal(heap: ErrorHeap, id: ErrorId, path: seq<ErrorId>)
    requires ClosedHeap(heap) && id in heap && Inspected(heap, Some(id)).verdict == Retryable
    requires Reaches(heap, id, path)
    ensures !Fatal(DirectAt(heap, path))
  {
    hide Classify, Contents;
    if Inspected(heap, Some(id)).invalid {
      InvalidIsPlainFailure(heap, Some(id), 0, {});
    }
    if Fatal(DirectAt(heap, path)) {
      FatalIsSeen(heap, id, path, 0, {});
    }
  }

  lemma {:induction false} InvalidIsPlainFailure(heap: ErrorHeap, err: ErrorRef, depth: nat, active: set<ErrorId>)
    requires ClosedHeap(heap) && RefIn(heap, err) && depth <= MAX_DEPTH && Classify(heap, err, depth, active).invalid
    ensures Classify(heap, err, depth, active).verdict == PlainFailure
  {
    var node := heap[err.value];
    if Enters(heap, err.value, depth, active) && DirectClass(node).Some? && node.shape.Aggregate?
        && !node.shape.panics {
      FoldInvalid(heap, DirectClass(node).value, node.shape.branches, depth + 1, Below(active, node, err.value));
    }
  }

  // ---------------------------------------------------------------------------
  // Aggregates
  // ---------------------------------------------------------------------------

  ghost predicate ReachesAggregate(heap: ErrorHeap, id: ErrorId) {
    exists path :: Reaches(heap, id, path) && heap[path[|path| - 1]].shape.Aggregate?
  }

  lemma {:induction false} AggregateIsSeen(heap: ErrorHeap, id: ErrorId, path: seq<ErrorId>, depth: nat,
                                           active: set<ErrorId>)
    requires ClosedHeap(heap) && id in heap && depth <= MAX_DEPTH && !Classify(heap, Some(id), depth, active).invalid
    requires Reaches(heap, id, path) && heap[path[|path| - 1]].shape.Aggregate?
    ensures Classify(heap, Some(id), depth, active).containsAggregate
    decreases |path|
  {
    hide Classify, DirectClass, ClassOf, MatchPanics;
    ValidEnters(heap, id, depth, active);
    var below := Below(active, heap[id], id);
    InvalidContents(heap, id, depth, below);
    if heap[id].shape.Aggregate? {
      FoldInvalid(heap, DirectClass(heap[id]).value, heap[id].shape.branches, depth + 1, below);
    } else {
      assert |path| > 1;
      PathTail(heap, path);
      AggregateIsSeen(heap, path[1], path[1..], depth + 1, below);
    }
  }

  lemma {:induction false} AggregateIsReached(heap: ErrorHeap, id: ErrorId, depth: nat, active: set<ErrorId>)
    returns (path: seq<ErrorId>)
    requires ClosedHeap(heap) && id in heap && depth <= MAX_DEPTH && !Classify(heap, Some(id), depth, active).invalid
    requires Classify(heap, Some(id), depth, active).containsAggregate
    ensures Reaches(heap, id, path) && heap[path[|path| - 1]].shape.Aggregate?
    decreases MAX_DEPTH - depth
  {
    hide Classify, DirectClass, ClassOf, MatchPanics, FoldBranches;
    ValidEnters(heap, id, depth, active);
    var below := Below(active, heap[id], id);
    InvalidContents(heap, id, depth, below);
    path := [id];
    if !heap[id].shape.Aggregate? {
      assert heap[id].shape.Causal? && heap[id].shape.cause.Some?;
      var c := heap[id].shape.cause.value;
      assert Unwraps(heap[id], c);
      var rest := AggregateIsReached(heap, c, depth + 1, below);
      PathPrepend(heap, id, rest);
      path := [id] + rest;
    }
  }

  ghost predicate ReachesClass(heap: ErrorHeap, id: ErrorId, c: TerminalClass) {
    exists path :: Reaches(heap, id, path) && DirectAt(heap, path) == c
  }

  lemma {:induction false} ReachesClassBelow(heap: ErrorHeap, id: ErrorId, child: ErrorId, c: TerminalClass)
    requires id in heap && child in heap && Unwraps(heap[id], child)
    requires (forall x :: Unwraps(heap[id], x) ==> x == child)
    ensures ReachesClass(heap, id, c) <==> DirectAtNode(heap, id) == c || ReachesClass(heap, child, c)
  {
    hide DirectClass, ClassOf, MatchPanics;
    if path :| Reaches(heap, child, path) && DirectAt(heap, path) == c {
      PathPrepend(heap, id, path);
      assert Reaches(heap, id, [id] + path) && DirectAt(heap, [id] + path) == c;
    }
    if DirectAtNode(heap, id) == c {
      assert Reaches(heap, id, [id]) && DirectAt(heap, [id]) == c;
    }
    if path :| Reaches(heap, id, path) && DirectAt(heap, path) == c {
      if |path| > 1 {
        PathTail(heap, path);
        assert Reaches(heap, child, path[1..]) && DirectAt(heap, path[1..]) == c;
      }
    }
  }

  lemma {:induction false} ReachesClassAlone(heap: ErrorHeap, id: ErrorId, c: TerminalClass)
    requires id in heap && (forall x :: !Unwraps(heap[id], x))
    ensures ReachesClass(heap, id, c) <==> DirectAtNode(heap, id) == c
  {
    hide DirectClass, ClassOf, MatchPanics;
    if DirectAtNode(heap, id) == c {
      assert Reaches(heap, id, [id]) && DirectAt(heap, [id]) == c;
    }
    if path :| Reaches(heap, id, path) && DirectAt(heap, path) == c {
      if |path| > 1 {
        PathTail(heap, path);
      }
    }
  }

  ghost function DirectAtNode(heap: ErrorHeap, id: ErrorId): TerminalClass
    requires id in heap
  {
    ClassOf(heap[id])
  }

  /** Skipped beats retryable, and retryable beats plain failure. */
  ghost function ChainVerdict(skipped: bool, retryable: bool): TerminalClass {
    if skipped then Skipped else if retryable then Retryable else PlainFailure
  }

  /** Closed form, aggregate-free part: without an aggregate and without a fatal error, a skipped error
      anywhere makes the verdict skipped, else a retryable one makes it retryable, else it is a plain failure. */
  lemma {:induction false} ChainClosedForm(heap: ErrorHeap, id: ErrorId, depth: nat, active: set<ErrorId>)
    requires ClosedHeap(heap) && id in heap && depth <= MAX_DEPTH && !Classify(heap, Some(id), depth, active).invalid
    requires !Classify(heap, Some(id), depth, active).containsAggregate
    requires !Fatal(Classify(heap, Some(id), depth, active).verdict)
    ensures Classify(heap, Some(id), depth, active).verdict ==
              ChainVerdict(ReachesClass(heap, id, Skipped), ReachesClass(heap, id, Retryable))
    decreases MAX_DEPTH - depth
  {
    hide Classify, DirectClass, ClassOf, MatchPanics, FoldBranches, ReachesClass;
    DirectClassIsTheClass(heap[id]);
    ValidEnters(heap, id, depth, active);
    var node := heap[id];
    var below := Below(active, node, id);
    InvalidContents(heap, id, depth, below);
    if node.shape.Aggregate? {
      FoldInvalid(heap, DirectClass(node).value, node.shape.branches, depth + 1, below);
    } else if node.shape.Causal? && node.shape.cause.Some? {
      var c := node.shape.cause.value;
      assert Unwraps(node, c);
      FatalStep(heap, id, depth, below);
      ChainClosedForm(heap, c, depth + 1, below);
      ReachesClassBelow(heap, id, c, Skipped);
      ReachesClassBelow(heap, id, c, Retryable);
    } else {
      ReachesClassAlone(heap, id, Skipped);
      ReachesClassAlone(heap, id, Retryable);
    }
  }

  /** The aggregate flag of a valid graph is exact. */
  lemma {:induction false} AggregateFlagIsExact(heap: ErrorHeap, id: ErrorId)
    requires ClosedHeap(heap) && id in heap && !Inspected(heap, Some(id)).invalid
    ensures Inspected(heap, Some(id)).containsAggregate <==> ReachesAggregate(heap, id)
  {
    hide Classify;
    if Inspected(heap, Some(id)).containsAggregate {
      var path := AggregateIsReached(heap, id, 0, {});
    }
    if path :| Reaches(heap, id, path) && heap[path[|path| - 1]].shape.Aggregate? {
      AggregateIsSeen(heap, id, path, 0, {});
    }
  }

  /** The verdict on a valid graph without aggregates, in terms of what is reachable alone. */
  lemma {:induction false} AggregateFreeVerdict(heap: ErrorHeap, id: ErrorId)
    requires ClosedHeap(heap) && id in heap && !Inspected(heap, Some(id)).invalid && !ReachesAggregate(heap, id)
    ensures Inspected(heap, Some(id)).verdict ==
              if ReachesClass(heap, id, Cancelled) then Cancelled
              else if ReachesClass(heap, id, DeviceConnection) then DeviceConnection
              else if ReachesClass(heap, id, Configuration) then Configuration
              else ChainVerdict(ReachesClass(heap, id, Skipped), ReachesClass(heap, id, Retryable))
  {
    hide Classify, Reaches, DirectAt;
    AggregateFlagIsExact(heap, id);
    var verdict := Inspected(heap, Some(id)).verdict;
    forall c | Fatal(c) && ReachesClass(heap, id, c) ensures Fatal(verdict) && Precedence(verdict) >= Precedence(c) {
      SeenClass(heap, id, c);
    }
    if Fatal(verdict) {
      var path := FatalIsReached(heap, id, 0, {});
      assert ReachesClass(heap, id, verdict);
    } else {
      ChainClosedForm(heap, id, 0, {});
    }
  }

  lemma SeenClass(heap: ErrorHeap, id: ErrorId, c: TerminalClass)
    requires ClosedHeap(heap) && id in heap && !Inspected(heap, Some(id)).invalid && Fatal(c)
    requires ReachesClass(heap, id, c)
    ensures Fatal(Inspected(heap, Some(id)).verdict) && Precedence(Inspected(heap, Some(id)).verdict) >= Precedence(c)
  {
    hide Classify;
    var path :| Reaches(heap, id, path) && DirectAt(heap, path) == c;
    FatalIsSeen(heap, id, path, 0, {});
  }

  // ---------------------------------------------------------------------------
  // What the verdict does not depend on
  // ---------------------------------------------------------------------------

  ghost predicate SameBranches(a: seq<ErrorRef>, b: seq<ErrorRef>) {
    (forall r :: r in a <==> r in b)
  }

  /** Two folds over the same set of equally classified branches agree, in whatever order they run. */
  lemma {:induction false} FoldsAgree(h1: ErrorHeap, h2: ErrorHeap, direct: TerminalClass, b1: seq<ErrorRef>,
                                      b2: seq<ErrorRef>,
                                      d1: nat, a1: set<ErrorId>, d2: nat, a2: set<ErrorId>)
    requires ClosedHeap(h1) && ClosedHeap(h2) && d1 <= MAX_DEPTH && d2 <= MAX_DEPTH
    requires SameBranches(b1, b2)
    requires forall i :: 0 <= i < |b1| ==> RefIn(h1, b1[i])
    requires forall i :: 0 <= i < |b2| ==> RefIn(h2, b2[i])
    requires forall r :: r in b1 ==> RefIn(h1, r) && RefIn(h2, r) && Classify(h1, r, d1, a1) == Classify(h2, r, d2, a2)
    ensures FoldBranches(h1, direct, b1, d1, a1) == FoldBranches(h2, direct, b2, d2, a2)
  {
    hide Classify, FoldBranches, RefIn, Precedence;
    FoldInvalid(h1, direct, b1, d1, a1);
    FoldInvalid(h2, direct, b2, d2, a2);
    var f1, f2 := FoldBranches(h1, direct, b1, d1, a1), FoldBranches(h2, direct, b2, d2, a2);
    if i :| 0 <= i < |b1| && Classify(h1, b1[i], d1, a1).invalid {
      assert b1[i] in b2;
      var j :| 0 <= j < |b2| && b2[j] == b1[i];
      assert Classify(h2, b2[j], d2, a2).invalid;
    }
    if j :| 0 <= j < |b2| && Classify(h2, b2[j], d2, a2).invalid {
      assert b2[j] in b1;
      var i :| 0 <= i < |b1| && b1[i] == b2[j];
      assert Classify(h1, b1[i], d1, a1).invalid;
    }
    assert f1.invalid == f2.invalid;
    if !f1.invalid {
      FoldIsGreatest(h1, direct, b1, d1, a1);
      FoldIsGreatest(h2, direct, b2, d2, a2);
      if f1.verdict != direct {
        var i :| 0 <= i < |b1| && f1.verdict == Classify(h1, b1[i], d1, a1).verdict;
        assert b1[i] in b2;
        var j :| 0 <= j < |b2| && b2[j] == b1[i];
      }
      if f2.verdict != direct {
        var j :| 0 <= j < |b2| && f2.verdict == Classify(h2, b2[j], d2, a2).verdict;
        assert b2[j] in b1;
        var i :| 0 <= i < |b1| && b1[i] == b2[j];
      }
      PrecedenceIsInjective(f1.verdict, f2.verdict);
      ValidFoldIsValid(h1, direct, b1, d1, a1);
      ValidFoldIsValid(h2, direct, b2, d2, a2);
    }
  }

  lemma ValidFoldIsValid(heap: ErrorHeap, direct: TerminalClass, branches: seq<ErrorRef>, depth: nat,
                         active: set<ErrorId>)
    requires ClosedHeap(heap) && depth <= MAX_DEPTH && forall i :: 0 <= i < |branches| ==> RefIn(heap, branches[i])
    ensures var f := FoldBranches(heap, direct, branches, depth, active);
            f == Classification(f.verdict, true, f.invalid)
  {
    FoldInvalid(heap, direct, branches, depth, active);
  }

  /** The nodes agree except for the order and repetition of aggregate branches. */
  ghost predicate SameUpToBranches(n1: ErrorNode, n2: ErrorNode) {
    n2 == n1.(shape := n2.shape)
    && (n1.shape == n2.shape
        || (n1.shape.Aggregate? && n2.shape.Aggregate? && n1.shape.panics == n2.shape.panics
            && SameBranches(n1.shape.branches, n2.shape.branches)))
  }

  ghost predicate HeapsAlike(h1: ErrorHeap, h2: ErrorHeap) {
    h1.Keys == h2.Keys && forall id :: id in h1 ==> SameUpToBranches(h1[id], h2[id])
  }

  /** Reordering, or repeating, the branches of any aggregates leaves every classification as it is. */
  lemma {:induction false} BranchOrderIsIrrelevant(h1: ErrorHeap, h2: ErrorHeap, err: ErrorRef, depth: nat,
                                                   active: set<ErrorId>)
    requires ClosedHeap(h1) && ClosedHeap(h2) && HeapsAlike(h1, h2) && RefIn(h1, err) && depth <= MAX_DEPTH
    ensures Classify(h1, err, depth, active) == Classify(h2, err, depth, active)
    decreases MAX_DEPTH - depth
  {
    hide FoldBranches, SameBranches;
    if err.Some? && Enters(h1, err.value, depth, active) {
      var n1, n2 := h1[err.value], h2[err.value];
      var below := Below(active, n1, err.value);
      assert SameUpToBranches(n1, n2) && NodeClosed(h1, n1) && NodeClosed(h2, n2);
      assert DirectClass(n1) == DirectClass(n2) by { SameDirect(n1, n2); }
      if n1.shape.Aggregate? && DirectClass(n1).Some? {
        var b1, b2 := n1.shape.branches, n2.shape.branches;
        forall r | r in b1
          ensures RefIn(h1, r) && RefIn(h2, r) && Classify(h1, r, depth + 1, below) == Classify(h2, r, depth + 1, below)
        {
          BranchOrderIsIrrelevant(h1, h2, r, depth + 1, below);
        }
        SameBranchesOf(n1, n2);
        FoldsAgree(h1, h2, DirectClass(n1).value, b1, b2, depth + 1, below, depth + 1, below);
      } else if n1.shape.Causal? && n1.shape.cause.Some? {
        BranchOrderIsIrrelevant(h1, h2, n1.shape.cause, depth + 1, below);
      }
    }
  }

  lemma SameBranchesOf(n1: ErrorNode, n2: ErrorNode)
    requires SameUpToBranches(n1, n2) && n1.shape.Aggregate?
    ensures SameBranches(n1.shape.branches, n2.shape.branches)
  {
  }

  lemma SameDirect(n1: ErrorNode, n2: ErrorNode)
    requires SameUpToBranches(n1, n2)
    ensures DirectClass(n1) == DirectClass(n2)
  {
  }

  ghost predicate HeapGrows(h1: ErrorHeap, h2: ErrorHeap) {
    forall id :: id in h1 ==> id in h2 && h2[id] == h1[id]
  }

  /** A valid classification depends only on the graph: not on the depth it is met at, nor on the errors
      above it, nor on the rest of the heap. */
  lemma {:induction false} ValidVerdictIsIntrinsic(h1: ErrorHeap, h2: ErrorHeap, err: ErrorRef,
                                                   d1: nat, a1: set<ErrorId>, d2: nat, a2: set<ErrorId>)
    requires ClosedHeap(h1) && ClosedHeap(h2) && HeapGrows(h1, h2) && RefIn(h1, err) && d1 <= MAX_DEPTH
    requires d2 <= MAX_DEPTH
    requires !Classify(h1, err, d1, a1).invalid && !Classify(h2, err, d2, a2).invalid
    ensures Classify(h1, err, d1, a1) == Classify(h2, err, d2, a2)
    decreases MAX_DEPTH - d1
  {
    hide FoldBranches, SameBranches, Classify, DirectClass, ClassOf, MatchPanics;
    if err.None? {
      NilIsValid(h1, d1, a1);
      NilIsValid(h2, d2, a2);
      return;
    }
    var id := err.value;
    var node := h1[id];
    ValidEnters(h1, id, d1, a1);
    ValidEnters(h2, id, d2, a2);
    var below1, below2 := Below(a1, node, id), Below(a2, node, id);
    InvalidContents(h1, id, d1, below1);
    InvalidContents(h2, id, d2, below2);
    if node.shape.Aggregate? {
      var branches := node.shape.branches;
      forall r | r in branches
        ensures RefIn(h1, r) && RefIn(h2, r) && Classify(h1, r, d1 + 1, below1) == Classify(h2, r, d2 + 1, below2)
      {
        if r.Some? {
          assert Unwraps(node, r.value);
          ValidVerdictIsIntrinsic(h1, h2, r, d1 + 1, below1, d2 + 1, below2);
        } else {
          NilIsValid(h1, d1 + 1, below1);
          NilIsValid(h2, d2 + 1, below2);
        }
      }
      SameAsItself(branches);
      FoldsAgree(h1, h2, DirectClass(node).value, branches, branches, d1 + 1, below1, d2 + 1, below2);
    } else if node.shape.Causal? && node.shape.cause.Some? {
      assert Unwraps(node, node.shape.cause.value);
      ValidVerdictIsIntrinsic(h1, h2, node.shape.cause, d1 + 1, below1, d2 + 1, below2);
    }
  }

  lemma SameAsItself(branches: seq<ErrorRef>)
    ensures SameBranches(branches, branches)
  {
  }

  // ---------------------------------------------------------------------------
  // Normalisation
  // ---------------------------------------------------------------------------

  function OperationNode(cause: ErrorRef): ErrorNode {
    ErrorNode(false, true, false, No, No, OperationKind, NO_CASTS, Causal(false, cause))
  }

  /** The engine's replacement for a malformed graph. */
  function MalformedNode(): ErrorNode {
    ErrorNode(false, true, false, No, No, ConfigurationKind, NO_CASTS, Causal(false, None))
  }

  /** Turns a plain failure into a retryable operation failure and a malformed graph into a configuration
      error; leaves every other error alone. A new error is allocated at `slot`. */
  function Normalize(heap: ErrorHeap, err: ErrorRef, slot: ErrorId): (result: (ErrorHeap, ErrorRef))
    requires ClosedHeap(heap) && RefIn(heap, err) && slot !in heap
    ensures ClosedHeap(result.0) && RefIn(result.0, result.1) && HeapGrows(heap, result.0)
  {
    var classification := Inspected(heap, err);
    if classification.invalid then (heap[slot := MalformedNode()], Some(slot))
    else
      match classification.verdict
      case NoError => (heap, None)
      case PlainFailure =>
        if classification.containsAggregate then (heap, err) else (heap[slot := OperationNode(err)], Some(slot))
      case _ => (heap, err)
  }

  /** The graph is 128 errors deep somewhere: wrapping it once more makes it too deep. */
  ghost predicate AsDeepAsAllowed(heap: ErrorHeap, id: ErrorId) {
    exists path :: Reaches(heap, id, path) && |path| == 128
  }

  /** Normalisation wraps this error. */
  ghost predicate IsWrapped(heap: ErrorHeap, err: ErrorRef)
    requires ClosedHeap(heap) && RefIn(heap, err)
  {
    var c := Inspected(heap, err);
    !c.invalid && c.verdict.PlainFailure? && !c.containsAggregate
  }

  lemma {:induction false} NonNilHasVerdict(heap: ErrorHeap, id: ErrorId, depth: nat, active: set<ErrorId>)
    requires ClosedHeap(heap) && id in heap && depth <= MAX_DEPTH
    ensures !Classify(heap, Some(id), depth, active).verdict.NoError?
    decreases MAX_DEPTH - depth
  {
    hide DirectClass, ClassOf, MatchPanics, FoldBranches;
    var node := heap[id];
    if Enters(heap, id, depth, active) && DirectClass(node).Some? && node.shape.Causal? && node.shape.cause.Some? {
      assert NodeClosed(heap, node);
      NonNilHasVerdict(heap, node.shape.cause.value, depth + 1, Below(active, node, id));
    } else if Enters(heap, id, depth, active) && DirectClass(node).Some? && node.shape.Aggregate?
        && !node.shape.panics {
      FoldInvalid(heap, DirectClass(node).value, node.shape.branches, depth + 1, Below(active, node, id));
    }
  }

  /** Below a new pointer, a valid graph stays valid unless it is as deep as allowed. */
  lemma {:induction false} OneDeeper(heap: ErrorHeap, grown: ErrorHeap, id: ErrorId, slot: ErrorId)
    requires ClosedHeap(heap) && ClosedHeap(grown) && id in heap && slot !in heap && HeapGrows(heap, grown)
    requires !Inspected(heap, Some(id)).invalid
    ensures Classify(grown, Some(id), 1, {slot}).invalid <==> AsDeepAsAllowed(heap, id)
  {
    hide Classify, DirectClass, ClassOf, MatchPanics, UnwrapPanics;
    if Classify(grown, Some(id), 1, {slot}).invalid {
      var path := FindBadPath(grown, id, 1, {slot});
      PathStaysInHeap(heap, grown, id, path);
      if |path| < MAX_DEPTH {
        assert BadPath(heap, id, path, 0, {});
        BadPathIsFound(heap, id, path, 0, {});
      } else {
        PathPrefix(heap, path, MAX_DEPTH);
        assert Reaches(heap, id, path[..MAX_DEPTH]);
      }
    }
    if AsDeepAsAllowed(heap, id) {
      var path :| Reaches(heap, id, path) && |path| == MAX_DEPTH;
      PathGrows(heap, grown, path);
      assert BadPath(grown, id, path, 1, {slot});
      BadPathIsFound(grown, id, path, 1, {slot});
    }
  }

  lemma PathPrefix(heap: ErrorHeap, path: seq<ErrorId>, n: nat)
    requires Path(heap, path) && 0 < n <= |path|
    ensures Path(heap, path[..n])
  {
    forall i | 0 <= i < n - 1 ensures Unwraps(heap[path[..n][i]], path[..n][i + 1]) {
      assert Unwraps(heap[path[i]], path[i + 1]);
    }
  }

  lemma PathGrows(heap: ErrorHeap, grown: ErrorHeap, path: seq<ErrorId>)
    requires Path(heap, path) && HeapGrows(heap, grown)
    ensures Path(grown, path)
  {
    forall i | 0 <= i < |path| - 1 ensures Unwraps(grown[path[i]], path[i + 1]) {
      assert Unwraps(heap[path[i]], path[i + 1]);
    }
  }

  lemma {:induction false} PathStaysInHeap(heap: ErrorHeap, grown: ErrorHeap, id: ErrorId, path: seq<ErrorId>)
    requires ClosedHeap(heap) && HeapGrows(heap, grown) && id in heap && Path(grown, path) && path[0] == id
    ensures Path(heap, path)
    decreases |path|
  {
    if |path| > 1 {
      PathTail(grown, path);
      InHeap(heap, id, path[1]);
      PathStaysInHeap(heap, grown, path[1], path[1..]);
      assert path == [id] + path[1..];
      PathPrepend(heap, id, path[1..]);
    }
  }

  lemma InHeap(heap: ErrorHeap, id: ErrorId, child: ErrorId)
    requires ClosedHeap(heap) && id in heap && Unwraps(heap[id], child)
    ensures child in heap
  {
    assert NodeClosed(heap, heap[id]);
    if heap[id].shape.Aggregate? {
      var i :| 0 <= i < |heap[id].shape.branches| && heap[id].shape.branches[i] == Some(child);
      assert RefIn(heap, heap[id].shape.branches[i]);
    }
  }

  /** The error that wraps a plain failure is retryable, or malformed when the wrapping made it too deep. */
  lemma {:induction false} WrappedClassification(heap: ErrorHeap, id: ErrorId, slot: ErrorId)
    requires ClosedHeap(heap) && id in heap && slot !in heap && IsWrapped(heap, Some(id))
    ensures ClosedHeap(heap[slot := OperationNode(Some(id))])
    ensures Inspected(heap[slot := OperationNode(Some(id))], Some(slot)) ==
              if AsDeepAsAllowed(heap, id)
                  then Invalid(Classify(heap[slot := OperationNode(Some(id))], Some(id), 1, {slot}).containsAggregate)
              else Classification(Retryable, false, false)
  {
    hide FoldBranches, AsDeepAsAllowed;
    var grown := heap[slot := OperationNode(Some(id))];
    OneDeeper(heap, grown, id, slot);
    var node := grown[slot];
    assert DirectClass(node) == Some(Retryable);
    assert Below({}, node, slot) == {slot};
    if !AsDeepAsAllowed(heap, id) {
      ValidVerdictIsIntrinsic(heap, grown, Some(id), 0, {}, 1, {slot});
    }
  }

  lemma MalformedClassification(heap: ErrorHeap, slot: ErrorId)
    requires ClosedHeap(heap) && slot !in heap
    ensures ClosedHeap(heap[slot := MalformedNode()])
    ensures Inspected(heap[slot := MalformedNode()], Some(slot)) == Classification(Configuration, false, false)
  {
  }

  /** The error is one of the engine's own: a pointer whose methods answer, of its kind, and no mark of a
      broken session. */
  ghost predicate EngineError(node: ErrorNode, kind: ErrorKind) {
    !node.typedNil && !node.integrity && node.kind == kind && IsNoCancellation(node)
  }

  /** What normalising does: a malformed graph becomes a configuration error; a plain failure without an
      aggregate is wrapped as a failed operation, which can be retried unless the wrapping made it too deep;
      every other error stays as it is. */
  lemma {:induction false} NormalizedAsPromised(heap: ErrorHeap, err: ErrorRef, slot: ErrorId)
    requires ClosedHeap(heap) && RefIn(heap, err) && slot !in heap
    ensures var (after, normal) := Normalize(heap, err, slot);
            if Inspected(heap, err).invalid then
              && normal == Some(slot) && EngineError(after[slot], ConfigurationKind)
              && !Inspected(after, normal).invalid && Inspected(after, normal).verdict.Configuration?
            else if IsWrapped(heap, err) then
              && normal == Some(slot) && EngineError(after[slot], OperationKind)
              && (forall c: ErrorId :: Unwraps(after[slot], c) <==> err == Some(c))
              && (AsDeepAsAllowed(heap, err.value) ==> Inspected(after, normal).invalid)
              && (!AsDeepAsAllowed(heap, err.value) ==>
                    !Inspected(after, normal).invalid && Inspected(after, normal).verdict.Retryable?)
            else after == heap && normal == err
  {
    hide Classify, AsDeepAsAllowed;
    if err.None? {
      NilIsValid(heap, 0, {});
    } else if Inspected(heap, err).invalid {
      MalformedClassification(heap, slot);
    } else {
      NonNilHasVerdict(heap, err.value, 0, {});
      if IsWrapped(heap, err) {
        WrappedClassification(heap, err.value, slot);
      }
    }
  }

  /** Normalising twice is normalising once, except for a plain failure so deep that the wrapper of the
      first round is itself malformed. */
  lemma {:induction false} NormalizeIsIdempotentUnlessTooDeep(heap: ErrorHeap, err: ErrorRef, slot: ErrorId,
                                                              later: ErrorId)
    requires ClosedHeap(heap) && RefIn(heap, err) && slot !in heap
    requires later !in Normalize(heap, err, slot).0
    ensures Normalize(Normalize(heap, err, slot).0, Normalize(heap, err, slot).1, later) == Normalize(heap, err, slot)
       <==> !(IsWrapped(heap, err) && AsDeepAsAllowed(heap, err.value))
  {
    hide Classify, AsDeepAsAllowed;
    var c := Inspected(heap, err);
    var once := Normalize(heap, err, slot);
    if err.None? {
      NilIsValid(heap, 0, {});
      NilIsValid(once.0, 0, {});
    } else {
      NonNilHasVerdict(heap, err.value, 0, {});
      if c.invalid {
        MalformedClassification(heap, slot);
      } else if IsWrapped(heap, err) {
        WrappedClassification(heap, err.value, slot);
        if AsDeepAsAllowed(heap, err.value) {
          assert Normalize(once.0, once.1, later).1 == Some(later);
        }
      }
    }
  }

  /** After normalisation a plain-failure verdict can only come from an aggregate, with the same exception. */
  lemma {:induction false} NormalizedIsNeverPlain(heap: ErrorHeap, err: ErrorRef, slot: ErrorId)
    requires ClosedHeap(heap) && RefIn(heap, err) && slot !in heap
    ensures Inspected(Normalize(heap, err, slot).0, Normalize(heap, err, slot).1).verdict.PlainFailure?
       <==> || (!Inspected(heap, err).invalid && Inspected(heap, err).verdict.PlainFailure?
                && Inspected(heap, err).containsAggregate)
            || (IsWrapped(heap, err) && AsDeepAsAllowed(heap, err.value))
  {
    hide Classify, AsDeepAsAllowed;
    var c := Inspected(heap, err);
    var once := Normalize(heap, err, slot);
    if err.None? {
      NilIsValid(heap, 0, {});
      NilIsValid(once.0, 0, {});
    } else {
      NonNilHasVerdict(heap, err.value, 0, {});
      if c.invalid {
        MalformedClassification(heap, slot);
      } else if IsWrapped(heap, err) {
        WrappedClassification(heap, err.value, slot);
      }
    }
  }

  /** A chain of foreign errors, each the cause of the one before, as deep as the traversal looks. */
  function DeepChain(): ErrorHeap {
    map id: nat | 0 <= id < MAX_DEPTH :: id := ChainLink(id)
  }

  function ChainLink(id: nat): ErrorNode {
    ErrorNode(false, true, false, No, No, ForeignKind, NO_CASTS,
              if id + 1 < MAX_DEPTH then Causal(false, Some(id + 1)) else Plain)
  }

  lemma ChainIsClosed()
    ensures ClosedHeap(DeepChain())
  {
  }

  lemma {:induction false} ChainIsPlain(id: nat, active: set<ErrorId>)
    requires id < MAX_DEPTH && forall earlier :: earlier in active ==> earlier < id
    ensures ClosedHeap(DeepChain())
    ensures Classify(DeepChain(), Some(id), id, active) == Classification(PlainFailure, false, false)
    decreases MAX_DEPTH - id
  {
    hide FoldBranches;
    ChainIsClosed();
    var node := DeepChain()[id];
    assert node == ChainLink(id);
    assert DirectClass(node) == Some(NoError) by {
      NoCasts();
    }
    hide DirectClass, ClassOf, MatchPanics;
    if id + 1 < MAX_DEPTH {
      ChainIsPlain(id + 1, Below(active, node, id));
    }
  }

  lemma NoCasts()
    ensures DirectClass(ChainLink(0)) == Some(NoError)
    ensures forall id: nat :: DirectClass(ChainLink(id)) == DirectClass(ChainLink(0))
  {
  }

  lemma ChainIsDeep()
    ensures AsDeepAsAllowed(DeepChain(), 0)
  {
    var heap := DeepChain();
    var path := seq(MAX_DEPTH, i requires 0 <= i < MAX_DEPTH => i);
    forall i | 0 <= i < |path| - 1 ensures Unwraps(heap[path[i]], path[i + 1]) {
      assert heap[path[i]] == ChainLink(i);
    }
    assert Reaches(heap, 0, path) && |path| == MAX_DEPTH;
  }

  /** The exception is real: a chain of plain errors as deep as allowed is wrapped into a malformed one, so
      normalising it again replaces it. */
  lemma {:induction false} DeepChainIsNormalizedTwice(slot: ErrorId, later: ErrorId)
    requires slot !in DeepChain() && later !in Normalize(DeepChain(), Some(0), slot).0
    ensures ClosedHeap(DeepChain()) && IsWrapped(DeepChain(), Some(0)) && AsDeepAsAllowed(DeepChain(), 0)
    ensures Normalize(Normalize(DeepChain(), Some(0), slot).0, Normalize(DeepChain(), Some(0), slot).1, later)
            != Normalize(DeepChain(), Some(0), slot)
  {
    hide Classify, AsDeepAsAllowed, Normalize;
    ChainIsClosed();
    ChainIsPlain(0, {});
    ChainIsDeep();
    NormalizeIsIdempotentUnlessTooDeep(DeepChain(), Some(0), slot, later);
  }
}
