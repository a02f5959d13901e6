/** The lifecycle of one flow, nested or selected as a root, and the loop over the selected roots. */
module FlowLifecycle {
  import opened Wrappers
  import opened TerminalErrors
  import opened RootFailures
  import ErrorTheorems

  // ---------------------------------------------------------------------------
  // What happens during one run of a flow
  // ---------------------------------------------------------------------------

  /** Everything the environment would answer during one run of a flow, whether or not it is asked. */
  datatype Script = Script(
    begin: ErrorRef,
    context: ErrorRef,
    enter: ErrorRef,
    start: seq<CommandOutcome>,
    body: seq<CommandOutcome>,
    completion: seq<CommandOutcome>,
    scopeClose: ErrorRef,
    sessionClose: ErrorRef,
    finish: ErrorRef)

  ghost predicate ScriptIn(heap: ErrorHeap, rejection: ErrorId, script: Script) {
    && Outcomes(heap, rejection, script.start) && Outcomes(heap, rejection, script.body)
    && Outcomes(heap, rejection, script.completion)
    && RefIn(heap, script.begin) && RefIn(heap, script.context) && RefIn(heap, script.enter)
    && RefIn(heap, script.scopeClose) && RefIn(heap, script.sessionClose) && RefIn(heap, script.finish)
  }

  /** Whether the scope was entered, and how many commands of each phase ran; None for a phase left out. */
  datatype Trace = Trace(entered: bool, start: Option<nat>, body: Option<nat>, completion: Option<nat>)

  const NOTHING_RAN := Trace(false, None, None, None)

  ghost predicate Fits(outcomes: seq<CommandOutcome>, ran: Option<nat>) {
    ran.Some? ==> ran.value <= |outcomes|
  }

  ghost predicate TraceFits(script: Script, trace: Trace) {
    Fits(script.start, trace.start) && Fits(script.body, trace.body) && Fits(script.completion, trace.completion)
  }

  function PhaseErrors(rejection: ErrorId, outcomes: seq<CommandOutcome>, ran: Option<nat>): seq<ErrorRef>
    requires Fits(outcomes, ran)
  {
    if ran.Some? then SurfacedAll(rejection, outcomes[..ran.value]) else []
  }

  /** The errors of the start and body commands that ran, in order. */
  function CommandErrors(rejection: ErrorId, script: Script, trace: Trace): seq<ErrorRef>
    requires TraceFits(script, trace)
  {
    PhaseErrors(rejection, script.start, trace.start) + PhaseErrors(rejection, script.body, trace.body)
  }

  /** The errors that came up inside the entered scope. */
  function ScopeErrors(rejection: ErrorId, script: Script, trace: Trace): seq<ErrorRef>
    requires TraceFits(script, trace)
  {
    CommandErrors(rejection, script, trace) + PhaseErrors(rejection, script.completion,
                                                          trace.completion) + [script.scopeClose]
  }

  /** The errors that came up before the scope was entered: the scope is only asked for in a live context. */
  function EntryErrors(script: Script): seq<ErrorRef> {
    if script.context.Some? then [script.context] else [script.enter]
  }

  /** All errors that came up during a run, in the order they came up. Only a root closes the session. */
  function Observed(ownership: Ownership, rejection: ErrorId, script: Script, trace: Trace): seq<ErrorRef>
    requires TraceFits(script, trace)
  {
    EntryErrors(script)
    + (if trace.entered then ScopeErrors(rejection, script, trace) else [])
    + (if ownership.SelectedRoot? then [script.sessionClose] else [])
  }

  ghost predicate PhaseEnded(ownership: Ownership, heap: ErrorHeap, rejection: ErrorId, outcomes: seq<CommandOutcome>,
                             ran: nat)
    requires Outcomes(heap, rejection, outcomes)
  {
    PhaseRan(ownership, heap, rejection, outcomes, ran, true)
        || PhaseRan(ownership, heap, rejection, outcomes, ran, false)
  }

  ghost predicate PhaseOk(ownership: Ownership, heap: ErrorHeap, rejection: ErrorId, outcomes: seq<CommandOutcome>,
                          ran: Option<nat>, wanted: bool)
    requires Outcomes(heap, rejection, outcomes)
  {
    && (ran.Some? <==> wanted)
    && (ran.Some? ==> PhaseEnded(ownership, heap, rejection, outcomes, ran.value))
  }

  /** The phases that ran are the ones the policy calls for, each up to the first command that halts it. */
  ghost predicate TraceOk(ownership: Ownership, heap: ErrorHeap, rejection: ErrorId, script: Script, trace: Trace)
    requires ScriptIn(heap, rejection, script)
  {
    && TraceFits(script, trace)
    && Errors(heap, CommandErrors(rejection, script, trace))
    && (trace.entered <==> script.context.None? && script.enter.None?)
    && PhaseOk(ownership, heap, rejection, script.start, trace.start, trace.entered)
    && PhaseOk(ownership, heap, rejection, script.body, trace.body,
               trace.start.Some? && PhaseRan(ownership, heap, rejection, script.start, trace.start.value, false))
    && PhaseOk(ownership, heap, rejection, script.completion, trace.completion,
               trace.entered && !IsIntegrity(heap, Surfacing(ownership, heap, CommandErrors(rejection, script, trace))))
  }

  lemma PhaseErrorsAreIn(heap: ErrorHeap, rejection: ErrorId, outcomes: seq<CommandOutcome>, ran: Option<nat>)
    requires Outcomes(heap, rejection, outcomes) && Fits(outcomes, ran)
    ensures Errors(heap, PhaseErrors(rejection, outcomes, ran))
  {
    if ran.Some? {
      SurfacedIsClosed(heap, rejection, outcomes, ran.value);
    }
  }

  lemma ObservedAreIn(ownership: Ownership, heap: ErrorHeap, rejection: ErrorId, script: Script, trace: Trace)
    requires ScriptIn(heap, rejection, script) && TraceFits(script, trace)
    ensures Errors(heap, CommandErrors(rejection, script, trace)) && Errors(heap, ScopeErrors(rejection, script, trace))
    ensures Errors(heap, Observed(ownership, rejection, script, trace))
  {
    hide PhaseErrors, IsIntegrity;
    PhaseErrorsAreIn(heap, rejection, script.start, trace.start);
    PhaseErrorsAreIn(heap, rejection, script.body, trace.body);
    PhaseErrorsAreIn(heap, rejection, script.completion, trace.completion);
  }

  // ---------------------------------------------------------------------------
  // Running a flow
  // ---------------------------------------------------------------------------

  /** The phases of an entered root scope. Every failure goes through the one accumulator. */
  method RunRootScope(heap: ErrorHeap, rejection: ErrorId, script: Script, failures: Accumulator) returns (trace: Trace)
    requires ScriptIn(heap, rejection, script) && script.context.None? && script.enter.None?
    requires failures.heap == heap && failures.productError.None?
    modifies failures
    ensures TraceOk(SelectedRoot, heap, rejection, script, trace)
    ensures Errors(heap, ScopeErrors(rejection, script, trace))
    ensures failures.productError == Kept(heap, ScopeErrors(rejection, script, trace))
  {
    hide Kept, IsIntegrity, PhaseRan, RootPrecedence;
    var failure, halted, ran := RunRootPhase(heap, rejection, script.start);
    trace := Trace(true, Some(ran), None, None);
    failures.Add(failure);
    if !halted {
      PhaseIsExclusive(SelectedRoot, heap, rejection, script.start, ran, halted);
      var bodyFailure, bodyHalted, bodyRan := RunRootPhase(heap, rejection, script.body);
      trace := trace.(body := Some(bodyRan));
      failures.Add(bodyFailure);
      KeptOfPhases(heap, PhaseErrors(rejection, script.start, trace.start),
                   PhaseErrors(rejection, script.body, trace.body));
    } else {
      PhaseIsExclusive(SelectedRoot, heap, rejection, script.start, ran, halted);
      assert CommandErrors(rejection, script, trace) == PhaseErrors(rejection, script.start, trace.start);
    }
    ghost var commands := trace;
    assert Errors(heap, CommandErrors(rejection, script, commands));
    assert failures.productError == Kept(heap, CommandErrors(rejection, script, commands));
    if !IsIntegrity(heap, failures.productError) {
      var completionFailure, completionHalted, completionRan := RunRootPhase(heap, rejection, script.completion);
      trace := trace.(completion := Some(completionRan));
      failures.Add(completionFailure);
      KeptOfPhases(heap, CommandErrors(rejection, script, commands),
                   PhaseErrors(rejection, script.completion, trace.completion));
    } else {
      assert CommandErrors(rejection, script, trace) + PhaseErrors(rejection, script.completion, trace.completion)
          == CommandErrors(rejection, script, commands);
    }
    assert CommandErrors(rejection, script, trace) == CommandErrors(rejection, script, commands);
    KeptAppend(heap, CommandErrors(rejection, script, trace) + PhaseErrors(rejection, script.completion,
                                                                           trace.completion),
               script.scopeClose);
    failures.Add(script.scopeClose);
  }

  /** The phases of an entered nested scope: the first error is the one that counts. */
  method RunNestedScope(heap: ErrorHeap, rejection: ErrorId, script: Script) returns (trace: Trace, primary: ErrorRef)
    requires ScriptIn(heap, rejection, script) && script.context.None? && script.enter.None?
    ensures TraceOk(NestedFlow, heap, rejection, script, trace)
    ensures primary == FirstError(ScopeErrors(rejection, script, trace))
  {
    hide FirstError, IsIntegrity, PhaseRan, RootPrecedence;
    var ran: nat;
    primary, ran := RunNestedPhase(heap, rejection, script.start);
    PhaseIsExclusive(NestedFlow, heap, rejection, script.start, ran, primary.Some?);
    trace := Trace(true, Some(ran), None, None);
    if primary.None? {
      primary, ran := RunNestedPhase(heap, rejection, script.body);
      trace := trace.(body := Some(ran));
    }
    FirstErrorOfPhases(PhaseErrors(rejection, script.start, trace.start),
                       PhaseErrors(rejection, script.body, trace.body));
    ghost var commands := CommandErrors(rejection, script, trace);
    if trace.body.None? {
      assert commands == PhaseErrors(rejection, script.start, trace.start);
    }
    assert primary == FirstError(commands);
    if !IsIntegrity(heap, primary) {
      var completionError, completionRan := RunNestedPhase(heap, rejection, script.completion);
      trace := trace.(completion := Some(completionRan));
      primary := OrElse(primary, completionError);
    }
    FirstErrorOfPhases(commands, PhaseErrors(rejection, script.completion, trace.completion));
    if trace.completion.None? {
      assert commands + PhaseErrors(rejection, script.completion, trace.completion) == commands;
    }
    assert CommandErrors(rejection, script, trace) == commands;
    FirstErrorOfPhases(commands + PhaseErrors(rejection, script.completion, trace.completion), [script.scopeClose]);
    FirstErrorAlone(script.scopeClose);
    ObservedAreIn(NestedFlow, heap, rejection, script, trace);
    primary := OrElse(primary, script.scopeClose);
  }

  lemma FirstErrorAlone(err: ErrorRef)
    ensures FirstError([err]) == err
  {
  }

  /** A phase cannot both have halted and have finished. */
  lemma PhaseIsExclusive(ownership: Ownership, heap: ErrorHeap, rejection: ErrorId, outcomes: seq<CommandOutcome>,
                         ran: nat, halted: bool)
    requires Outcomes(heap, rejection, outcomes) && PhaseRan(ownership, heap, rejection, outcomes, ran, halted)
    ensures !PhaseRan(ownership, heap, rejection, outcomes, ran, !halted)
  {
  }

  /** What a flow run reports: nothing when it could not begin or finish, otherwise its outcome. A failed
      outcome is decided by the error alone. */
  datatype FlowOutcome = Completed | Warned | Failed(err: ErrorId)
  datatype FlowReport = FlowReport(outcome: Option<FlowOutcome>, error: ErrorRef)

  /** A malformed error graph is replaced by a fresh configuration error in `slot`; anything else stays. */
  function Sanitize(heap: ErrorHeap, err: ErrorRef, slot: ErrorId): (result: (ErrorHeap, ErrorRef))
    requires ClosedHeap(heap) && RefIn(heap, err)
  {
    if err.None? || !Inspected(heap, err).invalid then (heap, err)
    else (heap[slot := ErrorTheorems.MalformedNode()], Some(slot))
  }

  predicate WarnedIn(outcomes: seq<CommandOutcome>, ran: Option<nat>)
    requires Fits(outcomes, ran)
  {
    ran.Some? && exists i :: 0 <= i < ran.value && outcomes[i].authenticated && outcomes[i].warned
  }

  /** Some command of the flow's own depth that ran was recorded as a warning. */
  predicate AnyWarned(script: Script, trace: Trace)
    requires TraceFits(script, trace)
  {
    WarnedIn(script.start, trace.start) || WarnedIn(script.body, trace.body)
        || WarnedIn(script.completion, trace.completion)
  }

  /** How the run ends, from the sanitised error that it surfaces. */
  function Concluded(script: Script, trace: Trace, primary: ErrorRef): FlowReport
    requires TraceFits(script, trace)
  {
    match (primary, script.finish)
    case (Some(err), Some(_)) => FlowReport(None, primary)
    case (Some(err), None) => FlowReport(Some(Failed(err)), primary)
    case (None, Some(_)) => FlowReport(None, script.finish)
    case (None, None) => FlowReport(Some(if AnyWarned(script, trace) then Warned else Completed), None)
  }

  /** All commands that ran, in order. */
  ghost function RanCommands(script: Script, trace: Trace): seq<CommandOutcome>
    requires TraceFits(script, trace)
  {
    RanOf(script.start, trace.start) + RanOf(script.body, trace.body) + RanOf(script.completion, trace.completion)
  }

  ghost function RanOf(outcomes: seq<CommandOutcome>, ran: Option<nat>): seq<CommandOutcome>
    requires Fits(outcomes, ran)
  {
    if ran.Some? then outcomes[..ran.value] else []
  }

  ghost predicate SomeWarned(outcomes: seq<CommandOutcome>) {
    exists i :: 0 <= i < |outcomes| && outcomes[i].authenticated && outcomes[i].warned
  }

  /** What the report of a flow means. A flow that could be finished is completed or warned when no error
      surfaced, by whether a command that ran was warned, and otherwise failed with that very error. The
      surfaced error is returned in any case, and a failure to finish only without one. */
  ghost predicate ReportMeans(script: Script, trace: Trace, primary: ErrorRef, report: FlowReport)
    requires TraceFits(script, trace)
  {
    && (report.outcome == Some(Completed) <==>
          primary.None? && script.finish.None? && !SomeWarned(RanCommands(script, trace)))
    && (report.outcome == Some(Warned) <==>
          primary.None? && script.finish.None? && SomeWarned(RanCommands(script, trace)))
    && (forall err: ErrorId :: report.outcome == Some(Failed(err)) <==> primary == Some(err) && script.finish.None?)
    && (primary.Some? ==> report.error == primary)
    && (primary.None? ==> report.error == script.finish)
  }

  lemma WarnedAmong(a: seq<CommandOutcome>, b: seq<CommandOutcome>)
    ensures SomeWarned(a + b) <==> SomeWarned(a) || SomeWarned(b)
  {
    if i :| 0 <= i < |a| && a[i].authenticated && a[i].warned {
      assert (a + b)[i] == a[i];
    }
    if i :| 0 <= i < |b| && b[i].authenticated && b[i].warned {
      assert (a + b)[|a| + i] == b[i];
    }
  }

  lemma WarnedPhase(outcomes: seq<CommandOutcome>, ran: Option<nat>)
    requires Fits(outcomes, ran)
    ensures WarnedIn(outcomes, ran) <==> SomeWarned(RanOf(outcomes, ran))
  {
    if WarnedIn(outcomes, ran) {
      var i :| 0 <= i < ran.value && outcomes[i].authenticated && outcomes[i].warned;
      assert RanOf(outcomes, ran)[i] == outcomes[i];
    }
  }

  lemma {:induction false} ConcludedMeans(script: Script, trace: Trace, primary: ErrorRef)
    requires TraceFits(script, trace)
    ensures ReportMeans(script, trace, primary, Concluded(script, trace, primary))
  {
    hide WarnedIn, SomeWarned, RanOf;
    WarnedPhase(script.start, trace.start);
    WarnedPhase(script.body, trace.body);
    WarnedPhase(script.completion, trace.completion);
    WarnedAmong(RanOf(script.start, trace.start), RanOf(script.body, trace.body));
    WarnedAmong(RanOf(script.start, trace.start) + RanOf(script.body, trace.body),
                RanOf(script.completion, trace.completion));
  }

  /** Runs one flow: entry, phases, closing, sanitising and reporting. `surfaced` is the error before
      malformed graphs are replaced. */
  method ExecuteFlowLifecycle(ownership: Ownership, heap: ErrorHeap, rejection: ErrorId, script: Script, slot: ErrorId)
    returns (trace: Trace, surfaced: ErrorRef, after: ErrorHeap, report: FlowReport)
    requires ScriptIn(heap, rejection, script) && slot !in heap
    ensures script.begin.Some? ==>
              trace == NOTHING_RAN && surfaced == script.begin && after == heap
                  && report == FlowReport(None, script.begin)
    ensures script.begin.None? ==>
              && TraceOk(ownership, heap, rejection, script, trace)
              && Errors(heap, Observed(ownership, rejection, script, trace))
              && surfaced == Surfacing(ownership, heap, Observed(ownership, rejection, script, trace))
              && RefIn(heap, surfaced)
              && after == Sanitize(heap, surfaced, slot).0
              && report == Concluded(script, trace, Sanitize(heap, surfaced, slot).1)
              && ReportMeans(script, trace, Sanitize(heap, surfaced, slot).1, report)
  {
    hide Kept, FirstError, IsIntegrity, PhaseRan, RootPrecedence, Inspected, TraceOk, CommandErrors, ScopeErrors;
    hide AnyWarned, ReportMeans;
    trace := NOTHING_RAN;
    if script.begin.Some? {
      return trace, script.begin, heap, FlowReport(None, script.begin);
    }
    if ownership.SelectedRoot? {
      trace, surfaced := RunRoot(heap, rejection, script);
    } else {
      trace, surfaced := RunNested(heap, rejection, script);
    }
    TraceOkFits(ownership, heap, rejection, script, trace);
    ObservedAreIn(ownership, heap, rejection, script, trace);
    SurfacingIsIn(ownership, heap, Observed(ownership, rejection, script, trace));
    var sanitized := Sanitize(heap, surfaced, slot);
    after := sanitized.0;
    report := Concluded(script, trace, sanitized.1);
    ConcludedMeans(script, trace, sanitized.1);
  }

  lemma TraceOkFits(ownership: Ownership, heap: ErrorHeap, rejection: ErrorId, script: Script, trace: Trace)
    requires ScriptIn(heap, rejection, script) && TraceOk(ownership, heap, rejection, script, trace)
    ensures TraceFits(script, trace) && (trace.entered <==> script.context.None? && script.enter.None?)
  {
  }

  lemma SurfacingIsIn(ownership: Ownership, heap: ErrorHeap, errors: seq<ErrorRef>)
    requires Errors(heap, errors)
    ensures RefIn(heap, Surfacing(ownership, heap, errors))
  {
    FirstErrorIn(heap, errors);
  }

  lemma NothingRanIsOk(ownership: Ownership, heap: ErrorHeap, rejection: ErrorId, script: Script)
    requires ScriptIn(heap, rejection, script) && (script.context.Some? || script.enter.Some?)
    ensures TraceOk(ownership, heap, rejection, script, NOTHING_RAN)
  {
    ObservedAreIn(ownership, heap, rejection, script, NOTHING_RAN);
  }

  method RunRoot(heap: ErrorHeap, rejection: ErrorId, script: Script) returns (trace: Trace, surfaced: ErrorRef)
    requires ScriptIn(heap, rejection, script)
    ensures TraceOk(SelectedRoot, heap, rejection, script, trace)
    ensures TraceFits(script, trace) && Errors(heap, Observed(SelectedRoot, rejection, script, trace))
    ensures surfaced == Kept(heap, Observed(SelectedRoot, rejection, script, trace))
  {
    hide Kept, IsIntegrity, PhaseRan, RootPrecedence, Inspected, TraceOk, CommandErrors, ScopeErrors;
    var failures := new Accumulator(heap);
    trace := NOTHING_RAN;
    NothingSurfaced(heap, []);
    KeptAppend(heap, [], script.context);
    failures.Add(script.context);
    var primary := failures.productError;
    if primary.None? {
      KeptAppend(heap, [], script.enter);
      failures.Add(script.enter);
      primary := failures.productError;
    }
    assert [] + EntryErrors(script) == EntryErrors(script);
    assert failures.productError == Kept(heap, EntryErrors(script));
    if primary.None? {
      trace := RunRootScope(heap, rejection, script, failures);
      TraceOkFits(SelectedRoot, heap, rejection, script, trace);
      KeptOfPhases(heap, EntryErrors(script), ScopeErrors(rejection, script, trace));
    } else {
      NothingRanIsOk(SelectedRoot, heap, rejection, script);
      TraceOkFits(SelectedRoot, heap, rejection, script, trace);
      assert EntryErrors(script) + [] == EntryErrors(script);
    }
    ghost var errors := EntryErrors(script) + (if trace.entered then ScopeErrors(rejection, script, trace) else []);
    ObservedAreIn(SelectedRoot, heap, rejection, script, trace);
    assert failures.productError == Kept(heap, errors);
    KeptAppend(heap, errors, script.sessionClose);
    failures.Add(script.sessionClose);
    surfaced := failures.productError;
  }

  method RunNested(heap: ErrorHeap, rejection: ErrorId, script: Script) returns (trace: Trace, surfaced: ErrorRef)
    requires ScriptIn(heap, rejection, script)
    ensures TraceOk(NestedFlow, heap, rejection, script, trace) && TraceFits(script, trace)
    ensures surfaced == FirstError(Observed(NestedFlow, rejection, script, trace))
  {
    hide FirstError, IsIntegrity, PhaseRan, TraceOk, CommandErrors, ScopeErrors;
    trace := NOTHING_RAN;
    surfaced := OrElse(script.context, script.enter);
    FirstErrorAlone(script.context);
    FirstErrorAlone(script.enter);
    if surfaced.None? {
      trace, surfaced := RunNestedScope(heap, rejection, script);
      TraceOkFits(NestedFlow, heap, rejection, script, trace);
      FirstErrorOfPhases(EntryErrors(script), ScopeErrors(rejection, script, trace));
    } else {
      NothingRanIsOk(NestedFlow, heap, rejection, script);
      TraceOkFits(NestedFlow, heap, rejection, script, trace);
      assert EntryErrors(script) + [] == EntryErrors(script);
    }
    ghost var errors := EntryErrors(script) + (if trace.entered then ScopeErrors(rejection, script, trace) else []);
    assert errors + [] == errors;
  }
}
