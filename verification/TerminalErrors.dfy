/** Classification of error graphs. Errors live in a heap of nodes; nil errors, typed nils, panicking
    methods and reference cycles are plain data, so every graph a program can build is covered. */
module TerminalErrors {
  import opened Wrappers

  const MAX_DEPTH := 128

  datatype TerminalClass = NoError | Skipped | Cancelled | DeviceConnection | Configuration | Retryable | PlainFailure

  type ErrorId = nat

  /** A possibly nil error value. */
  type ErrorRef = Option<ErrorId>

  /** What a matching method of an error answers. */
  datatype Answer = No | Yes | Panics

  datatype ErrorKind =
    | OperationKind
    | AssertionKind
    | DeviceConnectionKind
    | ConfigurationKind
    | SkippedKind
    | ForeignKind

  /** Answers of an error's cast method for the five product error types, in the order they are asked. */
  datatype Casts = Casts(deviceConnection: Answer, configuration: Answer, skipped: Answer, operation: Answer,
                         assertion: Answer)

  const NO_CASTS := Casts(No, No, No, No, No)

  datatype Shape =
    | Plain
    | Causal(panics: bool, cause: ErrorRef)
    | Aggregate(panics: bool, branches: seq<ErrorRef>)

  /** One error value. `tracked` errors are pointers, whose identity the traversal remembers;
      `integrity` marks the engine's own session-integrity failure. */
  datatype ErrorNode = ErrorNode(
    typedNil: bool,
    tracked: bool,
    integrity: bool,
    canceled: Answer,
    deadline: Answer,
    kind: ErrorKind,
    casts: Casts,
    shape: Shape)

  type ErrorHeap = map<ErrorId, ErrorNode>

  ghost predicate RefIn(heap: ErrorHeap, err: ErrorRef) {
    err.Some? ==> err.value in heap
  }

  ghost predicate NodeClosed(heap: ErrorHeap, node: ErrorNode) {
    match node.shape
    case Plain => true
    case Causal(_, cause) => RefIn(heap, cause)
    case Aggregate(_, branches) => forall i :: 0 <= i < |branches| ==> RefIn(heap, branches[i])
  }

  ghost predicate ClosedHeap(heap: ErrorHeap) {
    forall id :: id in heap ==> NodeClosed(heap, heap[id])
  }

  datatype Classification = Classification(verdict: TerminalClass, containsAggregate: bool, invalid: bool)

  function Invalid(containsAggregate: bool): Classification {
    Classification(PlainFailure, containsAggregate, true)
  }

  function Precedence(verdict: TerminalClass): nat {
    match verdict
    case Cancelled => 6
    case DeviceConnection => 5
    case Configuration => 4
    case PlainFailure => 3
    case Retryable => 2
    case Skipped => 1
    case NoError => 0
  }

  lemma PrecedenceIsInjective(a: TerminalClass, b: TerminalClass)
    requires Precedence(a) == Precedence(b)
    ensures a == b
  {
  }

  predicate Fatal(verdict: TerminalClass) {
    verdict in {Cancelled, DeviceConnection, Configuration}
  }

  function MergeAggregate(left: TerminalClass, right: TerminalClass): (merged: TerminalClass)
    ensures merged in {left, right}
    ensures Precedence(merged) >= Precedence(left) && Precedence(merged) >= Precedence(right)
  {
    if Precedence(right) > Precedence(left) then right else left
  }

  /** What a causal wrapper of class `direct` makes of the classification of its cause. */
  function MergeCausal(direct: TerminalClass, cause: Classification): (merged: Classification)
    ensures merged.invalid == cause.invalid && merged.containsAggregate == cause.containsAggregate
  {
    if cause.invalid then Invalid(cause.containsAggregate)
    else
      var verdict := match direct
        case NoError => cause.verdict
        case Retryable =>
          if Fatal(cause.verdict) || cause.verdict.Skipped? || (cause.verdict.PlainFailure? && cause.containsAggregate)
          then cause.verdict else Retryable
        case Skipped =>
          if Fatal(cause.verdict) || (cause.verdict.PlainFailure? && cause.containsAggregate)
          then cause.verdict else Skipped
        case _ => MergeAggregate(direct, cause.verdict);
      Classification(verdict, cause.containsAggregate, false)
  }

  /** The class an error has by itself, or None if one of its methods panics. */
  function DirectClass(node: ErrorNode): (verdict: Option<TerminalClass>)
    ensures verdict != Some(PlainFailure)
  {
    if node.canceled.Panics? then None
    else if node.canceled.Yes? then Some(Cancelled)
    else if node.deadline.Panics? then None
    else if node.deadline.Yes? then Some(Cancelled)
    else match node.kind
      case DeviceConnectionKind => Some(DeviceConnection)
      case ConfigurationKind => Some(Configuration)
      case SkippedKind => Some(Skipped)
      case OperationKind => Some(Retryable)
      case AssertionKind => Some(Retryable)
      case ForeignKind =>
        FirstCast([(node.casts.deviceConnection, DeviceConnection), (node.casts.configuration, Configuration),
                   (node.casts.skipped, Skipped), (node.casts.operation, Retryable), (node.casts.assertion, Retryable)])
  }

  /** The class of the first cast that does not answer no. */
  function FirstCast(casts: seq<(Answer, TerminalClass)>): (verdict: Option<TerminalClass>)
    ensures verdict.Some? ==> verdict.value.NoError? || exists i :: 0 <= i < |casts| && casts[i].1 == verdict.value
  {
    if casts == [] then Some(NoError)
    else match casts[0].0
      case Panics => None
      case Yes => Some(casts[0].1)
      case No => FirstCast(casts[1..])
  }

  /** An error without a class of its own and without a cause is a plain failure. */
  function OwnClass(direct: TerminalClass): TerminalClass {
    if direct.NoError? then PlainFailure else direct
  }

  // ---------------------------------------------------------------------------
  // The traversal
  // ---------------------------------------------------------------------------

  /** The classification of an error met at `depth`, below the tracked errors in `active`. */
  function Classify(heap: ErrorHeap, err: ErrorRef, depth: nat, active: set<ErrorId>): Classification
    requires ClosedHeap(heap) && RefIn(heap, err) && depth <= MAX_DEPTH
    decreases MAX_DEPTH - depth, 1
  {
    if err.None? then Classification(NoError, false, false)
    else
      var node := heap[err.value];
      if depth >= MAX_DEPTH || node.typedNil then Invalid(false)
      else if node.tracked && err.value in active then Invalid(false)
      else Contents(heap, node, depth, Below(active, node, err.value))
  }

  /** The classification of an error that has been entered, from its own class and what it wraps. */
  function Contents(heap: ErrorHeap, node: ErrorNode, depth: nat, below: set<ErrorId>): Classification
    requires ClosedHeap(heap) && NodeClosed(heap, node) && depth < MAX_DEPTH
    decreases MAX_DEPTH - depth, 0
  {
    var direct := DirectClass(node);
    if direct.None? then Invalid(false)
    else
      match node.shape
      case Aggregate(panics, branches) =>
        if panics then Invalid(true)
        else Finish(FoldBranches(heap, direct.value, branches, depth + 1, below))
      case Causal(panics, cause) =>
        if panics then Invalid(false)
        else if cause.Some? then MergeCausal(direct.value, Classify(heap, cause, depth + 1, below))
        else Classification(OwnClass(direct.value), false, false)
      case Plain => Classification(OwnClass(direct.value), false, false)
  }

  function Below(active: set<ErrorId>, node: ErrorNode, id: ErrorId): set<ErrorId> {
    if node.tracked then active + {id} else active
  }

  function Finish(folded: Classification): Classification {
    if folded.invalid then folded else folded.(verdict := OwnClass(folded.verdict))
  }

  /** Merges the branches of an aggregate from first to last; an invalid branch decides. */
  function FoldBranches(heap: ErrorHeap, direct: TerminalClass, branches: seq<ErrorRef>, depth: nat,
                        active: set<ErrorId>): Classification
    requires ClosedHeap(heap) && depth <= MAX_DEPTH
    requires forall i :: 0 <= i < |branches| ==> RefIn(heap, branches[i])
    decreases MAX_DEPTH - depth, 2 + |branches|
  {
    if branches == [] then Classification(direct, true, false)
    else
      var last := |branches| - 1;
      var earlier := FoldBranches(heap, direct, branches[..last], depth, active);
      if earlier.invalid then earlier
      else MergeBranch(earlier, Classify(heap, branches[last], depth, active))
  }

  function MergeBranch(earlier: Classification, branch: Classification): Classification {
    if branch.invalid then Invalid(true)
    else Classification(MergeAggregate(earlier.verdict, branch.verdict),
                        earlier.containsAggregate || branch.containsAggregate, false)
  }

  /** The traversal with its set of active pointers. */
  class Traversal {
    const heap: ErrorHeap
    var active: set<ErrorId>

    constructor (heap: ErrorHeap)
      ensures this.heap == heap && active == {}
    {
      this.heap := heap;
      active := {};
    }

    /** Classifies an error and leaves the active set as it found it. */
    method Inspect(err: ErrorRef, depth: nat) returns (result: Classification)
      requires ClosedHeap(heap) && RefIn(heap, err) && depth <= MAX_DEPTH
      modifies this
      ensures result == Classify(heap, err, depth, old(active))
      ensures active == old(active)
      decreases MAX_DEPTH - depth, 1
    {
      if err.None? {
        return Classification(NoError, false, false);
      }
      var node := heap[err.value];
      if depth >= MAX_DEPTH || node.typedNil {
        return Invalid(false);
      }
      if node.tracked {
        if err.value in active {
          return Invalid(false);
        }
        active := active + {err.value};
      }
      result := InspectContents(node, depth);
      if node.tracked {
        active := active - {err.value};
      }
    }

    /** Classifies an error that has been entered. */
    method InspectContents(node: ErrorNode, depth: nat) returns (result: Classification)
      requires ClosedHeap(heap) && NodeClosed(heap, node) && depth < MAX_DEPTH
      modifies this
      ensures result == Contents(heap, node, depth, old(active))
      ensures active == old(active)
      decreases MAX_DEPTH - depth, 0
    {
      hide DirectClass, MergeCausal, Classify, ClosedHeap, FoldBranches;
      var direct := DirectClass(node);
      if direct.None? {
        return Invalid(false);
      }
      if node.shape.Aggregate? {
        if node.shape.panics {
          return Invalid(true);
        }
        result := InspectBranches(direct.value, node.shape.branches, depth + 1);
        if !result.invalid && result.verdict.NoError? {
          result := result.(verdict := PlainFailure);
        }
        return;
      }
      if node.shape.Causal? {
        if node.shape.panics {
          return Invalid(false);
        }
        if node.shape.cause.Some? {
          var cause := Inspect(node.shape.cause, depth + 1);
          return MergeCausal(direct.value, cause);
        }
      }
      result := Classification(OwnClass(direct.value), false, false);
    }

    /** Merges the branches of an aggregate from first to last, up to one that is invalid. */
    method InspectBranches(direct: TerminalClass, branches: seq<ErrorRef>, depth: nat) returns (result: Classification)
      requires ClosedHeap(heap) && depth <= MAX_DEPTH
      requires forall i :: 0 <= i < |branches| ==> RefIn(heap, branches[i])
      modifies this
      ensures result == FoldBranches(heap, direct, branches, depth, old(active))
      ensures active == old(active)
      decreases MAX_DEPTH - depth, 2
    {
      hide MergeAggregate, Classify, ClosedHeap;
      result := Classification(direct, true, false);
      for i := 0 to |branches|
        invariant active == old(active)
        invariant result == FoldBranches(heap, direct, branches[..i], depth, active) && !result.invalid
      {
        assert branches[..i + 1][..i] == branches[..i];
        var branch := Inspect(branches[i], depth);
        if branch.invalid {
          InvalidPrefix(heap, direct, branches, i + 1, depth, active);
          return Invalid(true);
        }
        result := Classification(MergeAggregate(result.verdict, branch.verdict),
                                 result.containsAggregate || branch.containsAggregate, false);
      }
      assert branches[..|branches|] == branches;
    }
  }

  lemma {:induction false} InvalidPrefix(heap: ErrorHeap, direct: TerminalClass, branches: seq<ErrorRef>, n: nat,
                                         depth: nat,
                                         active: set<ErrorId>)
    requires ClosedHeap(heap) && depth <= MAX_DEPTH && n <= |branches|
    requires forall i :: 0 <= i < |branches| ==> RefIn(heap, branches[i])
    requires FoldBranches(heap, direct, branches[..n], depth, active).invalid
    ensures FoldBranches(heap, direct, branches, depth, active) ==
            FoldBranches(heap, direct, branches[..n], depth, active)
  {
    if n < |branches| {
      var shorter := branches[..|branches| - 1];
      assert shorter[..n] == branches[..n];
      InvalidPrefix(heap, direct, shorter, n, depth, active);
    } else {
      assert branches[..n] == branches;
    }
  }

  /** Classifies an error graph from its root. */
  method InspectTerminalError(heap: ErrorHeap, err: ErrorRef) returns (result: Classification)
    requires ClosedHeap(heap) && RefIn(heap, err)
    ensures result == Inspected(heap, err)
  {
    var traversal := new Traversal(heap);
    result := traversal.Inspect(err, 0);
  }

  function Inspected(heap: ErrorHeap, err: ErrorRef): Classification
    requires ClosedHeap(heap) && RefIn(heap, err)
  {
    Classify(heap, err, 0, {})
  }
}
