/** The failure policy of a flow: which error a list of failures surfaces, and how far a phase runs. */
module RootFailures {
  import opened Wrappers
  import opened TerminalErrors

  // ---------------------------------------------------------------------------
  // Root precedence
  // ---------------------------------------------------------------------------

  ghost predicate Errors(heap: ErrorHeap, errors: seq<ErrorRef>) {
    ClosedHeap(heap) && forall i :: 0 <= i < |errors| ==> RefIn(heap, errors[i])
  }

  /** The error is the engine's own non-nil session-integrity failure. */
  predicate IsIntegrity(heap: ErrorHeap, err: ErrorRef) {
    err.Some? && err.value in heap && heap[err.value].integrity && !heap[err.value].typedNil
  }

  function RootPrecedence(heap: ErrorHeap, err: ErrorRef): nat
    requires ClosedHeap(heap) && RefIn(heap, err)
  {
    if IsIntegrity(heap, err) then Precedence(Configuration)
    else
      var verdict := Inspected(heap, err).verdict;
      if verdict.Cancelled? || verdict.DeviceConnection? then Precedence(verdict) else 0
  }

  /** The failure resolver is not asked about this error. */
  predicate Bypassed(heap: ErrorHeap, err: ErrorRef)
    requires ClosedHeap(heap) && RefIn(heap, err)
  {
    IsIntegrity(heap, err) || Inspected(heap, err).verdict.Cancelled? || Inspected(heap, err).verdict.DeviceConnection?
  }

  /** The errors that bypass the resolver are exactly those with a root precedence. */
  lemma BypassedMeansPrecedence(heap: ErrorHeap, err: ErrorRef)
    requires ClosedHeap(heap) && RefIn(heap, err)
    ensures Bypassed(heap, err) <==> RootPrecedence(heap, err) > 0
  {
  }

  // ---------------------------------------------------------------------------
  // Accumulating failures
  // ---------------------------------------------------------------------------

  /** The earlier error, unless the later one strictly outranks it. */
  function Stronger(heap: ErrorHeap, earlier: ErrorRef, later: ErrorRef): (kept: ErrorRef)
    requires ClosedHeap(heap) && RefIn(heap, earlier) && RefIn(heap, later)
    ensures RefIn(heap, kept)
  {
    if later.None? then earlier
    else if earlier.None? || RootPrecedence(heap, later) > RootPrecedence(heap, earlier) then later
    else earlier
  }

  /** The error kept of a list: the earliest one of greatest root precedence. */
  function Kept(heap: ErrorHeap, errors: seq<ErrorRef>): (kept: ErrorRef)
    requires Errors(heap, errors)
    ensures RefIn(heap, kept)
  {
    if errors == [] then None
    else Stronger(heap, Kept(heap, errors[..|errors| - 1]), errors[|errors| - 1])
  }

  class Accumulator {
    const heap: ErrorHeap
    var productError: ErrorRef

    constructor (heap: ErrorHeap)
      ensures this.heap == heap && productError == None
    {
      this.heap := heap;
      productError := None;
    }

    method Add(err: ErrorRef)
      requires ClosedHeap(heap) && RefIn(heap, err) && RefIn(heap, productError)
      modifies this
      ensures productError == Stronger(heap, old(productError), err)
    {
      if err.None? {
        return;
      }
      if productError.None? || RootPrecedence(heap, err) > RootPrecedence(heap, productError) {
        productError := err;
      }
    }
  }

  lemma {:induction false} KeptAppend(heap: ErrorHeap, errors: seq<ErrorRef>, err: ErrorRef)
    requires Errors(heap, errors) && RefIn(heap, err)
    ensures Errors(heap, errors + [err]) && Kept(heap, errors + [err]) == Stronger(heap, Kept(heap, errors), err)
  {
    assert (errors + [err])[..|errors|] == errors;
  }

  /** Error i is there, nothing outranks it, and everything before it ranks strictly lower. */
  ghost predicate IsEarliestGreatest(heap: ErrorHeap, errors: seq<ErrorRef>, i: nat)
    requires Errors(heap, errors) && i < |errors|
  {
    && errors[i].Some?
    && (forall j :: 0 <= j < |errors| && errors[j].Some? ==>
        RootPrecedence(heap, errors[j]) <= RootPrecedence(heap, errors[i]))
    && (forall j :: 0 <= j < i && errors[j].Some? ==> RootPrecedence(heap, errors[j]) < RootPrecedence(heap, errors[i]))
  }

  ghost predicate KeptAt(heap: ErrorHeap, errors: seq<ErrorRef>, i: nat)
    requires Errors(heap, errors)
  {
    i < |errors| && IsEarliestGreatest(heap, errors, i) && errors[i] == Kept(heap, errors)
  }

  lemma EarlierStays(heap: ErrorHeap, errors: seq<ErrorRef>, last: ErrorRef, i: nat)
    requires Errors(heap, errors) && RefIn(heap, last) && i < |errors| && IsEarliestGreatest(heap, errors, i)
    requires last.Some? ==> RootPrecedence(heap, last) <= RootPrecedence(heap, errors[i])
    ensures Errors(heap, errors + [last]) && IsEarliestGreatest(heap, errors + [last], i)
  {
    hide RootPrecedence;
  }

  lemma LaterLeads(heap: ErrorHeap, errors: seq<ErrorRef>, last: ErrorRef, i: nat)
    requires Errors(heap, errors) && RefIn(heap, last) && i < |errors| && IsEarliestGreatest(heap, errors, i)
    requires last.Some? && RootPrecedence(heap, last) > RootPrecedence(heap, errors[i])
    ensures Errors(heap, errors + [last]) && IsEarliestGreatest(heap, errors + [last], |errors|)
  {
    hide RootPrecedence;
  }

  lemma FirstLeads(heap: ErrorHeap, errors: seq<ErrorRef>, last: ErrorRef)
    requires Errors(heap, errors) && RefIn(heap, last) && last.Some?
    requires forall i :: 0 <= i < |errors| ==> errors[i].None?
    ensures Errors(heap, errors + [last]) && IsEarliestGreatest(heap, errors + [last], |errors|)
  {
    hide RootPrecedence;
  }

  /** The kept error is the leftmost one of greatest precedence among the errors that are there. */
  lemma {:induction false} KeptIsEarliestGreatest(heap: ErrorHeap, errors: seq<ErrorRef>)
    requires Errors(heap, errors)
    ensures Kept(heap, errors).None? <==> forall i :: 0 <= i < |errors| ==> errors[i].None?
    ensures Kept(heap, errors).Some? ==> exists i :: KeptAt(heap, errors, i)
  {
    if errors != [] {
      hide RootPrecedence, IsEarliestGreatest;
      var front, last := errors[..|errors| - 1], errors[|errors| - 1];
      assert errors == front + [last];
      KeptIsEarliestGreatest(heap, front);
      KeptAppend(heap, front, last);
      if Kept(heap, front).Some? {
        var i: nat :| KeptAt(heap, front, i);
        assert errors[i].Some? && errors[i] == front[i];
        if last.Some? && RootPrecedence(heap, last) > RootPrecedence(heap, front[i]) {
          LaterLeads(heap, front, last, i);
          assert KeptAt(heap, errors, |front|);
        } else {
          EarlierStays(heap, front, last, i);
          assert KeptAt(heap, errors, i);
        }
      } else {
        assert forall i :: 0 <= i < |front| ==> errors[i] == front[i];
        if last.Some? {
          FirstLeads(heap, front, last);
          assert KeptAt(heap, errors, |front|);
        }
      }
    }
  }

  lemma StrongerIsAssociative(heap: ErrorHeap, a: ErrorRef, b: ErrorRef, c: ErrorRef)
    requires ClosedHeap(heap) && RefIn(heap, a) && RefIn(heap, b) && RefIn(heap, c)
    ensures Stronger(heap, Stronger(heap, a, b), c) == Stronger(heap, a, Stronger(heap, b, c))
  {
    hide RootPrecedence;
  }

  /** Accumulating per phase and then over the phases is accumulating once over all errors. */
  lemma {:induction false} KeptOfPhases(heap: ErrorHeap, a: seq<ErrorRef>, b: seq<ErrorRef>)
    requires Errors(heap, a) && Errors(heap, b)
    ensures Errors(heap, a + b) && Kept(heap, a + b) == Stronger(heap, Kept(heap, a), Kept(heap, b))
  {
    hide RootPrecedence;
    if b == [] {
      assert a + b == a;
    } else {
      var last := b[|b| - 1];
      var front := b[..|b| - 1];
      KeptOfPhases(heap, a, front);
      assert a + b == (a + front) + [last];
      assert RefIn(heap, last);
      KeptAppend(heap, a + front, last);
      StrongerIsAssociative(heap, Kept(heap, a), Kept(heap, front), last);
    }
  }

  /** The first error of a list that is there: what a nested flow surfaces. */
  function FirstError(errors: seq<ErrorRef>): (first: ErrorRef) {
    if errors == [] then None
    else if errors[0].Some? then errors[0]
    else FirstError(errors[1..])
  }

  lemma {:induction false} FirstErrorOfPhases(a: seq<ErrorRef>, b: seq<ErrorRef>)
    ensures FirstError(a + b) == OrElse(FirstError(a), FirstError(b))
  {
    if a == [] {
      assert a + b == b;
    } else {
      assert (a + b)[1..] == a[1..] + b;
      FirstErrorOfPhases(a[1..], b);
    }
  }

  lemma {:induction false} FirstErrorIn(heap: ErrorHeap, errors: seq<ErrorRef>)
    requires Errors(heap, errors)
    ensures RefIn(heap, FirstError(errors))
    ensures FirstError(errors).None? <==> forall i :: 0 <= i < |errors| ==> errors[i].None?
  {
    if errors != [] {
      assert errors == [errors[0]] + errors[1..];
      FirstErrorIn(heap, errors[1..]);
    }
  }

  // ---------------------------------------------------------------------------
  // One phase of a flow
  // ---------------------------------------------------------------------------

  datatype Ownership = NestedFlow | SelectedRoot

  /** The error a flow surfaces of all those that came up, by who owns the flow. */
  ghost function Surfacing(ownership: Ownership, heap: ErrorHeap, errors: seq<ErrorRef>): ErrorRef
    requires Errors(heap, errors)
  {
    if ownership.SelectedRoot? then Kept(heap, errors) else FirstError(errors)
  }

  /** What executing one command would yield. `warned` tells that its ledger entry is a warning of the
      flow's own depth; `continues` is the resolver's answer should it be asked, and a resolver that is
      missing or panics does not continue. */
  datatype CommandOutcome = CommandOutcome(authenticated: bool, error: ErrorRef, warned: bool, continues: bool)

  ghost predicate Outcomes(heap: ErrorHeap, rejection: ErrorId, outcomes: seq<CommandOutcome>) {
    ClosedHeap(heap) && rejection in heap && forall i :: 0 <= i < |outcomes| ==> RefIn(heap, outcomes[i].error)
  }

  /** The error a command surfaces: an unauthenticated result without one is rejected by the engine. */
  function Surfaced(rejection: ErrorId, outcome: CommandOutcome): ErrorRef {
    if !outcome.authenticated && outcome.error.None? then Some(rejection) else outcome.error
  }

  function SurfacedAll(rejection: ErrorId, outcomes: seq<CommandOutcome>): (errors: seq<ErrorRef>)
    ensures |errors| == |outcomes|
    ensures forall i :: 0 <= i < |errors| ==> errors[i] == Surfaced(rejection, outcomes[i])
  {
    seq(|outcomes|, i requires 0 <= i < |outcomes| => Surfaced(rejection, outcomes[i]))
  }

  /** No command of the phase runs after this one. */
  predicate Halts(ownership: Ownership, heap: ErrorHeap, outcome: CommandOutcome)
    requires ClosedHeap(heap) && RefIn(heap, outcome.error)
  {
    !outcome.authenticated
    || (outcome.error.Some? && (ownership.NestedFlow? || Bypassed(heap, outcome.error) || !outcome.continues))
  }

  /** The phase ran its first `ran` commands: up to the first that halts it, or all of them. */
  ghost predicate PhaseRan(ownership: Ownership, heap: ErrorHeap, rejection: ErrorId, outcomes: seq<CommandOutcome>,
                           ran: nat, halted: bool)
    requires Outcomes(heap, rejection, outcomes)
  {
    && ran <= |outcomes|
    && (forall i :: 0 <= i < ran - 1 ==> !Halts(ownership, heap, outcomes[i]))
    && (if halted then ran > 0 && Halts(ownership, heap, outcomes[ran - 1])
        else ran == |outcomes| && (ran > 0 ==> !Halts(ownership, heap, outcomes[ran - 1])))
  }

  lemma SurfacedIsClosed(heap: ErrorHeap, rejection: ErrorId, outcomes: seq<CommandOutcome>, ran: nat)
    requires Outcomes(heap, rejection, outcomes) && ran <= |outcomes|
    ensures Errors(heap, SurfacedAll(rejection, outcomes[..ran]))
  {
  }

  lemma SurfacedStep(heap: ErrorHeap, rejection: ErrorId, outcomes: seq<CommandOutcome>, n: nat)
    requires Outcomes(heap, rejection, outcomes) && n < |outcomes|
    ensures Errors(heap, SurfacedAll(rejection, outcomes[..n]))
    ensures Errors(heap, SurfacedAll(rejection, outcomes[..n + 1]))
    ensures RefIn(heap, Surfaced(rejection, outcomes[n]))
    ensures Kept(heap, SurfacedAll(rejection, outcomes[..n + 1])) ==
            Stronger(heap, Kept(heap, SurfacedAll(rejection, outcomes[..n])), Surfaced(rejection, outcomes[n]))
    ensures FirstError(SurfacedAll(rejection, outcomes[..n + 1])) ==
            OrElse(FirstError(SurfacedAll(rejection, outcomes[..n])), Surfaced(rejection, outcomes[n]))
  {
    SurfacedIsClosed(heap, rejection, outcomes, n);
    SurfacedIsClosed(heap, rejection, outcomes, n + 1);
    var last := Surfaced(rejection, outcomes[n]);
    assert SurfacedAll(rejection, outcomes[..n + 1]) == SurfacedAll(rejection, outcomes[..n]) + [last];
    KeptAppend(heap, SurfacedAll(rejection, outcomes[..n]), last);
    FirstErrorOfPhases(SurfacedAll(rejection, outcomes[..n]), [last]);
    assert FirstError([last]) == last;
  }

  lemma NothingSurfaced(heap: ErrorHeap, errors: seq<ErrorRef>)
    requires ClosedHeap(heap) && errors == []
    ensures Errors(heap, errors) && Kept(heap, errors) == None == FirstError(errors)
  {
  }

  /** Runs a phase of a selected root until a command halts it. */
  method RunRootPhase(heap: ErrorHeap, rejection: ErrorId, outcomes: seq<CommandOutcome>)
    returns (failure: ErrorRef, halted: bool, ran: nat)
    requires Outcomes(heap, rejection, outcomes)
    ensures ran <= |outcomes| && PhaseRan(SelectedRoot, heap, rejection, outcomes, ran, halted)
    ensures Errors(heap, SurfacedAll(rejection, outcomes[..ran]))
    ensures failure == Kept(heap, SurfacedAll(rejection, outcomes[..ran]))
  {
    hide Bypassed, RootPrecedence, Kept, FirstError;
    var failures := new Accumulator(heap);
    failure := None;
    halted := false;
    ran := 0;
    NothingSurfaced(heap, SurfacedAll(rejection, outcomes[..0]));
    while ran < |outcomes|
      invariant 0 <= ran <= |outcomes| && !halted && failures.heap == heap
      invariant forall i :: 0 <= i < ran ==> !Halts(SelectedRoot, heap, outcomes[i])
      invariant Errors(heap, SurfacedAll(rejection, outcomes[..ran]))
      invariant failures.productError == failure == Kept(heap, SurfacedAll(rejection, outcomes[..ran]))
      invariant RefIn(heap, failure)
      decreases |outcomes| - ran
    {
      var outcome := outcomes[ran];
      SurfacedStep(heap, rejection, outcomes, ran);
      ran := ran + 1;
      if !outcome.authenticated {
        failures.Add(if outcome.error.None? then Some(rejection) else outcome.error);
        return failures.productError, true, ran;
      }
      if outcome.error.None? {
        continue;
      }
      failures.Add(outcome.error);
      failure := failures.productError;
      if Bypassed(heap, outcome.error) {
        return failure, true, ran;
      }
      if !outcome.continues {
        return failure, true, ran;
      }
    }
  }

  /** Runs a phase of a nested flow, whose first error ends it. */
  method RunNestedPhase(heap: ErrorHeap, rejection: ErrorId, outcomes: seq<CommandOutcome>)
    returns (failure: ErrorRef, ran: nat)
    requires Outcomes(heap, rejection, outcomes)
    ensures ran <= |outcomes| && PhaseRan(NestedFlow, heap, rejection, outcomes, ran, failure.Some?)
    ensures failure == FirstError(SurfacedAll(rejection, outcomes[..ran]))
  {
    hide Bypassed, RootPrecedence, Kept, FirstError;
    ran := 0;
    NothingSurfaced(heap, SurfacedAll(rejection, outcomes[..0]));
    while ran < |outcomes|
      invariant 0 <= ran <= |outcomes|
      invariant forall i :: 0 <= i < ran ==> !Halts(NestedFlow, heap, outcomes[i])
      invariant FirstError(SurfacedAll(rejection, outcomes[..ran])).None?
    {
      var outcome := outcomes[ran];
      SurfacedStep(heap, rejection, outcomes, ran);
      ran := ran + 1;
      if !outcome.authenticated {
        if outcome.error.Some? {
          return outcome.error, ran;
        }
        return Some(rejection), ran;
      }
      if outcome.error.Some? {
        return outcome.error, ran;
      }
    }
    failure := None;
  }

  /** How far a phase runs, and whether it halts, is determined by its outcomes. */
  lemma PhaseIsDetermined(ownership: Ownership, heap: ErrorHeap, rejection: ErrorId, outcomes: seq<CommandOutcome>,
                          ran1: nat, halted1: bool, ran2: nat, halted2: bool)
    requires Outcomes(heap, rejection, outcomes)
    requires PhaseRan(ownership, heap, rejection, outcomes, ran1, halted1)
    requires PhaseRan(ownership, heap, rejection, outcomes, ran2, halted2)
    ensures ran1 == ran2 && halted1 == halted2
  {
    hide Halts;
  }
}
