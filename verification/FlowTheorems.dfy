/** What holds of every run of a flow, whatever its commands do. */
module FlowTheorems {
  import opened Wrappers
  import opened TerminalErrors
  import opened RootFailures
  import opened FlowLifecycle
  import ErrorTheorems

  // ---------------------------------------------------------------------------
  // When the completion phase is skipped
  // ---------------------------------------------------------------------------

  /** An error after which the flow goes on to its next command. */
  ghost predicate Quiet(ownership: Ownership, heap: ErrorHeap, err: ErrorRef)
    requires ClosedHeap(heap) && RefIn(heap, err)
  {
    err.Some? ==> ownership.SelectedRoot? && RootPrecedence(heap, err) == 0
  }

  ghost predicate QuietUpTo(ownership: Ownership, heap: ErrorHeap, errors: seq<ErrorRef>, n: int)
    requires Errors(heap, errors) && n <= |errors|
  {
    forall i :: 0 <= i < n ==> Quiet(ownership, heap, errors[i])
  }

  lemma UnhaltedIsQuiet(ownership: Ownership, heap: ErrorHeap, rejection: ErrorId, outcome: CommandOutcome)
    requires ClosedHeap(heap) && rejection in heap && RefIn(heap, outcome.error) && !Halts(ownership, heap, outcome)
    ensures Quiet(ownership, heap, Surfaced(rejection, outcome))
  {
    hide RootPrecedence;
    if outcome.error.Some? {
      BypassedMeansPrecedence(heap, outcome.error);
    }
  }

  lemma PhaseIsQuiet(ownership: Ownership, heap: ErrorHeap, rejection: ErrorId, outcomes: seq<CommandOutcome>, ran: nat,
                     halted: bool)
    requires Outcomes(heap, rejection, outcomes) && ran <= |outcomes|
    requires PhaseRan(ownership, heap, rejection, outcomes, ran, halted)
    ensures Errors(heap, SurfacedAll(rejection, outcomes[..ran]))
    ensures QuietUpTo(ownership, heap, SurfacedAll(rejection, outcomes[..ran]), if halted then ran - 1 else ran)
  {
    hide Halts, Quiet;
    SurfacedIsClosed(heap, rejection, outcomes, ran);
    forall i | 0 <= i < (if halted then ran - 1 else ran)
      ensures Quiet(ownership, heap, SurfacedAll(rejection, outcomes[..ran])[i])
    {
      UnhaltedIsQuiet(ownership, heap, rejection, outcomes[i]);
    }
  }

  /** Only the last start or body command that ran can have surfaced an error that ends the flow. */
  lemma AllButTheLastAreQuiet(ownership: Ownership, heap: ErrorHeap, rejection: ErrorId, script: Script, trace: Trace)
    requires ScriptIn(heap, rejection, script) && TraceOk(ownership, heap, rejection, script, trace)
    ensures QuietUpTo(ownership, heap, CommandErrors(rejection, script, trace),
                      |CommandErrors(rejection, script, trace)| - 1)
  {
    hide Quiet, PhaseRan, IsIntegrity;
    if trace.start.Some? {
      var ran := trace.start.value;
      if PhaseRan(ownership, heap, rejection, script.start, ran, false) {
        PhaseIsQuiet(ownership, heap, rejection, script.start, ran, false);
        PhaseIsQuiet(ownership, heap, rejection, script.body, trace.body.value,
                     PhaseRan(ownership, heap, rejection, script.body, trace.body.value, true));
      } else {
        PhaseIsQuiet(ownership, heap, rejection, script.start, ran, true);
      }
    }
  }

  lemma {:induction false} IntegrityIsLast(ownership: Ownership, heap: ErrorHeap, errors: seq<ErrorRef>)
    requires Errors(heap, errors) && QuietUpTo(ownership, heap, errors, |errors| - 1)
    ensures IsIntegrity(heap, Surfacing(ownership, heap, errors)) <==>
              errors != [] && IsIntegrity(heap, errors[|errors| - 1])
  {
    hide Inspected;
    if errors != [] {
      var front, last := errors[..|errors| - 1], errors[|errors| - 1];
      assert errors == front + [last];
      assert forall i :: 0 <= i < |front| ==> front[i] == errors[i];
      if ownership.SelectedRoot? {
        KeptIsEarliestGreatest(heap, front);
        KeptAppend(heap, front, last);
        assert Kept(heap, front).Some? ==> RootPrecedence(heap, Kept(heap, front)) == 0;
      } else {
        FirstErrorIn(heap, front);
        FirstErrorOfPhases(front, [last]);
        FirstErrorAlone(last);
      }
    }
  }

  /** The error is the engine's own mark of a broken session, and not a nil pointer of that type. */
  ghost predicate BrokenSession(heap: ErrorHeap, err: ErrorRef)
    requires RefIn(heap, err)
  {
    err.Some? && heap[err.value].integrity && !heap[err.value].typedNil
  }

  /** In an entered flow, completion is left out exactly when the last start or body command that ran
      surfaced a session-integrity failure: no other failure, not even a cancellation, skips it. */
  lemma {:induction false} CompletionSkippedExactlyAfterIntegrity(ownership: Ownership, heap: ErrorHeap,
                                                                  rejection: ErrorId,
                                                                  script: Script, trace: Trace)
    requires ScriptIn(heap, rejection, script) && TraceOk(ownership, heap, rejection, script, trace) && trace.entered
    ensures trace.completion.None? <==>
            && CommandErrors(rejection, script, trace) != []
            && BrokenSession(heap, CommandErrors(rejection, script,
                                                 trace)[|CommandErrors(rejection, script, trace)| - 1])
  {
    hide QuietUpTo, PhaseRan;
    AllButTheLastAreQuiet(ownership, heap, rejection, script, trace);
    IntegrityIsLast(ownership, heap, CommandErrors(rejection, script, trace));
  }

  // ---------------------------------------------------------------------------
  // Success and determinism
  // ---------------------------------------------------------------------------

  /** An error surfaces exactly when some error came up. */
  lemma SurfacesExactlyWhenSomethingFailed(ownership: Ownership, heap: ErrorHeap, errors: seq<ErrorRef>)
    requires Errors(heap, errors)
    ensures Surfacing(ownership, heap, errors).None? <==> forall i :: 0 <= i < |errors| ==> errors[i].None?
  {
    KeptIsEarliestGreatest(heap, errors);
    FirstErrorIn(heap, errors);
  }

  lemma CleanPhaseRanInFull(ownership: Ownership, heap: ErrorHeap, rejection: ErrorId, outcomes: seq<CommandOutcome>,
                            ran: nat)
    requires Outcomes(heap, rejection, outcomes) && ran <= |outcomes|
    requires PhaseEnded(ownership, heap, rejection, outcomes, ran)
    requires forall i :: 0 <= i < ran ==> Surfaced(rejection, outcomes[i]).None?
    ensures ran == |outcomes| && PhaseRan(ownership, heap, rejection, outcomes, ran, false)
    ensures forall i :: 0 <= i < |outcomes| ==> outcomes[i].authenticated && outcomes[i].error.None?
  {
    forall i | 0 <= i < ran ensures outcomes[i].authenticated && outcomes[i].error.None? {
      assert Surfaced(rejection, outcomes[i]).None?;
    }
  }

  ghost predicate AllNone(errors: seq<ErrorRef>) {
    forall i :: 0 <= i < |errors| ==> errors[i].None?
  }

  lemma AllNoneSplit(a: seq<ErrorRef>, b: seq<ErrorRef>)
    requires AllNone(a + b)
    ensures AllNone(a) && AllNone(b)
  {
    forall i | 0 <= i < |a| ensures a[i].None? { assert (a + b)[i] == a[i]; }
    forall i | 0 <= i < |b| ensures b[i].None? { assert (a + b)[|a| + i] == b[i]; }
  }

  lemma CleanPhase(ownership: Ownership, heap: ErrorHeap, rejection: ErrorId, outcomes: seq<CommandOutcome>,
                   ran: Option<nat>, wanted: bool)
    requires Outcomes(heap, rejection, outcomes) && Fits(outcomes, ran)
    requires PhaseOk(ownership, heap, rejection, outcomes, ran, wanted)
    requires wanted && AllNone(PhaseErrors(rejection, outcomes, ran))
    ensures ran == Some(|outcomes|) && PhaseRan(ownership, heap, rejection, outcomes, |outcomes|, false)
    ensures forall i :: 0 <= i < |outcomes| ==> outcomes[i].authenticated && outcomes[i].error.None?
  {
    hide PhaseRan;
    forall i | 0 <= i < ran.value ensures Surfaced(rejection, outcomes[i]).None? {
      assert PhaseErrors(rejection, outcomes, ran)[i].None?;
    }
    CleanPhaseRanInFull(ownership, heap, rejection, outcomes, ran.value);
  }

  lemma CleanScope(rejection: ErrorId, script: Script, trace: Trace)
    requires TraceFits(script, trace) && AllNone(ScopeErrors(rejection, script, trace))
    ensures AllNone(CommandErrors(rejection, script, trace))
    ensures AllNone(PhaseErrors(rejection, script.start, trace.start))
    ensures AllNone(PhaseErrors(rejection, script.body, trace.body))
    ensures AllNone(PhaseErrors(rejection, script.completion, trace.completion))
  {
    hide AllNone, PhaseErrors;
    AllNoneSplit(CommandErrors(rejection, script, trace) + PhaseErrors(rejection, script.completion, trace.completion),
                 [script.scopeClose]);
    AllNoneSplit(CommandErrors(rejection, script, trace), PhaseErrors(rejection, script.completion, trace.completion));
    AllNoneSplit(PhaseErrors(rejection, script.start, trace.start), PhaseErrors(rejection, script.body, trace.body));
  }

  lemma CleanObserved(ownership: Ownership, rejection: ErrorId, script: Script, trace: Trace)
    requires TraceFits(script, trace) && AllNone(Observed(ownership, rejection, script, trace))
    ensures script.context.None? && script.enter.None?
    ensures trace.entered ==> AllNone(ScopeErrors(rejection, script, trace))
  {
    hide ScopeErrors;
    var entry := EntryErrors(script);
    var scope := if trace.entered then ScopeErrors(rejection, script, trace) else [];
    AllNoneSplit(entry + scope, if ownership.SelectedRoot? then [script.sessionClose] else []);
    AllNoneSplit(entry, scope);
    assert entry[0].None?;
  }

  /** A flow that surfaces no error ran every command of all three phases, and each one succeeded. */
  lemma {:induction false} SuccessRanEverything(ownership: Ownership, heap: ErrorHeap, rejection: ErrorId,
                                                script: Script, trace: Trace)
    requires ScriptIn(heap, rejection, script) && TraceOk(ownership, heap, rejection, script, trace)
    requires Errors(heap, Observed(ownership, rejection, script, trace))
    requires Surfacing(ownership, heap, Observed(ownership, rejection, script, trace)).None?
    ensures trace == Trace(true, Some(|script.start|), Some(|script.body|), Some(|script.completion|))
    ensures forall i :: 0 <= i < |script.start| ==> script.start[i].authenticated && script.start[i].error.None?
    ensures forall i :: 0 <= i < |script.body| ==> script.body[i].authenticated && script.body[i].error.None?
    ensures forall i :: 0 <= i < |script.completion| ==>
              script.completion[i].authenticated && script.completion[i].error.None?
  {
    hide PhaseRan, PhaseOk, Observed, CommandErrors, ScopeErrors, PhaseErrors, Kept, FirstError, AllNone;
    SurfacesExactlyWhenSomethingFailed(ownership, heap, Observed(ownership, rejection, script, trace));
    AllNoneIntro(Observed(ownership, rejection, script, trace));
    CleanObserved(ownership, rejection, script, trace);
    CleanScope(rejection, script, trace);
    CleanPhase(ownership, heap, rejection, script.start, trace.start, trace.entered);
    CleanPhase(ownership, heap, rejection, script.body, trace.body, true);
    NoneIsNoIntegrity(ownership, heap, CommandErrors(rejection, script, trace));
    CleanPhase(ownership, heap, rejection, script.completion, trace.completion, true);
  }

  lemma AllNoneIntro(errors: seq<ErrorRef>)
    requires forall i :: 0 <= i < |errors| ==> errors[i].None?
    ensures AllNone(errors)
  {
  }

  lemma NoneIsNoIntegrity(ownership: Ownership, heap: ErrorHeap, errors: seq<ErrorRef>)
    requires Errors(heap, errors) && AllNone(errors)
    ensures !IsIntegrity(heap, Surfacing(ownership, heap, errors))
  {
    SurfacesExactlyWhenSomethingFailed(ownership, heap, errors);
  }

  ghost predicate AllClean(outcomes: seq<CommandOutcome>) {
    forall i :: 0 <= i < |outcomes| ==> outcomes[i].authenticated && outcomes[i].error.None?
  }

  /** Nothing whatever goes wrong: entering, every command of every phase, closing and finishing. */
  ghost predicate AllWell(ownership: Ownership, script: Script) {
    && script.context.None? && script.enter.None? && script.scopeClose.None? && script.finish.None?
    && (ownership.SelectedRoot? ==> script.sessionClose.None?)
    && AllClean(script.start) && AllClean(script.body) && AllClean(script.completion)
  }

  lemma CleanErrors(rejection: ErrorId, outcomes: seq<CommandOutcome>, ran: Option<nat>)
    requires Fits(outcomes, ran) && AllClean(outcomes)
    ensures AllNone(PhaseErrors(rejection, outcomes, ran))
  {
  }

  lemma AllNoneJoin(a: seq<ErrorRef>, b: seq<ErrorRef>)
    requires AllNone(a) && AllNone(b)
    ensures AllNone(a + b)
  {
  }

  lemma WellObserved(ownership: Ownership, rejection: ErrorId, script: Script, trace: Trace)
    requires TraceFits(script, trace) && AllWell(ownership, script)
    ensures AllNone(Observed(ownership, rejection, script, trace))
  {
    hide PhaseErrors, AllClean;
    CleanErrors(rejection, script.start, trace.start);
    CleanErrors(rejection, script.body, trace.body);
    CleanErrors(rejection, script.completion, trace.completion);
    hide AllNone;
    var start, body := PhaseErrors(rejection, script.start, trace.start), PhaseErrors(rejection, script.body,
            trace.body);
    AllNoneJoin(start, body);
    AllNoneJoin(start + body, PhaseErrors(rejection, script.completion, trace.completion));
    NoneAlone();
    AllNoneJoin(CommandErrors(rejection, script, trace) + PhaseErrors(rejection, script.completion, trace.completion),
                [None]);
    var scope := if trace.entered then ScopeErrors(rejection, script, trace) else [];
    AllNoneJoin(EntryErrors(script), scope);
    AllNoneJoin(EntryErrors(script) + scope, if ownership.SelectedRoot? then [script.sessionClose] else []);
  }

  lemma NoneAlone()
    ensures AllNone([None]) && AllNone([])
  {
  }

  lemma CleanRun(ownership: Ownership, heap: ErrorHeap, rejection: ErrorId, script: Script, trace: Trace)
    requires ScriptIn(heap, rejection, script) && TraceOk(ownership, heap, rejection, script, trace)
    requires Errors(heap, Observed(ownership, rejection, script, trace))
    requires Surfacing(ownership, heap, Observed(ownership, rejection, script, trace)).None?
    ensures script.finish.None? ==> AllWell(ownership, script)
  {
    hide PhaseOk, PhaseRan, Kept, FirstError, AllNone, CommandErrors;
    SuccessRanEverything(ownership, heap, rejection, script, trace);
    SurfacesExactlyWhenSomethingFailed(ownership, heap, Observed(ownership, rejection, script, trace));
    AllNoneIntro(Observed(ownership, rejection, script, trace));
    CleanObserved(ownership, rejection, script, trace);
    ClosedWell(ownership, rejection, script, trace);
  }

  lemma ClosedWell(ownership: Ownership, rejection: ErrorId, script: Script, trace: Trace)
    requires TraceFits(script, trace) && trace.entered && AllNone(Observed(ownership, rejection, script, trace))
    ensures script.scopeClose.None? && (ownership.SelectedRoot? ==> script.sessionClose.None?)
  {
    hide CommandErrors;
    var entry, scope := EntryErrors(script), ScopeErrors(rejection, script, trace);
    var close := if ownership.SelectedRoot? then [script.sessionClose] else [];
    AllNoneSplit(entry + scope, close);
    AllNoneSplit(entry, scope);
    assert scope[|scope| - 1] == script.scopeClose;
    assert ownership.SelectedRoot? ==> close[0] == script.sessionClose;
  }

  /** What a begun flow reports, from the answers of the environment alone: completed or warned exactly when
      nothing went wrong at all, and warned exactly when besides some command was warned. */
  lemma {:induction false} ReportIsWarnedOrCompletedExactlyWhen(ownership: Ownership, heap: ErrorHeap,
                                                                rejection: ErrorId, script: Script, trace: Trace,
                                                                slot: ErrorId, report: FlowReport)
    requires ScriptIn(heap, rejection, script) && TraceOk(ownership, heap, rejection, script, trace)
    requires Errors(heap, Observed(ownership, rejection, script, trace))
    requires RefIn(heap, Surfacing(ownership, heap, Observed(ownership, rejection, script, trace)))
    requires ReportMeans(script, trace,
                         Sanitize(heap, Surfacing(ownership, heap, Observed(ownership, rejection, script, trace)),
                                  slot).1,
                         report)
    ensures report.outcome == Some(Completed) <==>
              AllWell(ownership, script) && !SomeWarned(script.start + script.body + script.completion)
    ensures report.outcome == Some(Warned) <==>
              AllWell(ownership, script) && SomeWarned(script.start + script.body + script.completion)
  {
    hide PhaseOk, PhaseRan, Kept, FirstError, SomeWarned, Inspected, Observed, CommandErrors, AllClean;
    var observed := Observed(ownership, rejection, script, trace);
    if AllWell(ownership, script) {
      WellObserved(ownership, rejection, script, trace);
      SurfacesExactlyWhenSomethingFailed(ownership, heap, observed);
    }
    if Surfacing(ownership, heap, observed).None? {
      SuccessRanEverything(ownership, heap, rejection, script, trace);
      CleanRun(ownership, heap, rejection, script, trace);
      assert script.start[..|script.start|] == script.start && script.body[..|script.body|] == script.body;
      assert script.completion[..|script.completion|] == script.completion;
      assert RanCommands(script, trace) == script.start + script.body + script.completion;
    }
  }

  lemma PhaseOkIsDetermined(ownership: Ownership, heap: ErrorHeap, rejection: ErrorId, outcomes: seq<CommandOutcome>,
                            ran1: Option<nat>, ran2: Option<nat>, wanted: bool)
    requires Outcomes(heap, rejection, outcomes)
    requires PhaseOk(ownership, heap, rejection, outcomes, ran1, wanted)
    requires PhaseOk(ownership, heap, rejection, outcomes, ran2, wanted)
    ensures ran1 == ran2
  {
    hide PhaseRan;
    if wanted {
      var halted1 := PhaseRan(ownership, heap, rejection, outcomes, ran1.value, true);
      var halted2 := PhaseRan(ownership, heap, rejection, outcomes, ran2.value, true);
      PhaseIsDetermined(ownership, heap, rejection, outcomes, ran1.value, halted1, ran2.value, halted2);
    }
  }

  /** The policy leaves no choice: the same answers always run the same commands. */
  lemma {:induction false} TraceIsDetermined(ownership: Ownership, heap: ErrorHeap, rejection: ErrorId, script: Script,
                                             t1: Trace, t2: Trace)
    requires ScriptIn(heap, rejection, script)
    requires TraceOk(ownership, heap, rejection, script, t1) && TraceOk(ownership, heap, rejection, script, t2)
    ensures t1 == t2
  {
    hide PhaseRan, PhaseOk, Kept, FirstError, IsIntegrity;
    PhaseOkIsDetermined(ownership, heap, rejection, script.start, t1.start, t2.start, t1.entered);
    PhaseOkIsDetermined(ownership, heap, rejection, script.body, t1.body, t2.body,
                        t1.start.Some? && PhaseRan(ownership, heap, rejection, script.start, t1.start.value, false));
    PhaseOkIsDetermined(ownership, heap, rejection, script.completion, t1.completion, t2.completion,
                        t1.entered && !IsIntegrity(heap,
                                                   Surfacing(ownership, heap, CommandErrors(rejection, script, t1))));
  }

  // ---------------------------------------------------------------------------
  // What a root never hides
  // ---------------------------------------------------------------------------

  /** A cancellation or device loss among a root's errors is never hidden behind a lesser failure: what
      surfaces is the session's own integrity failure or has at least that precedence, and a cancellation
      surfaces as one. */
  lemma {:induction false} RootNeverHidesDeviceLoss(heap: ErrorHeap, errors: seq<ErrorRef>, j: nat)
    requires Errors(heap, errors) && j < |errors| && errors[j].Some? && !IsIntegrity(heap, errors[j])
    requires Inspected(heap, errors[j]).verdict in {Cancelled, DeviceConnection}
    ensures Kept(heap, errors).Some? && !IsIntegrity(heap, Kept(heap, errors))
    ensures Inspected(heap, Kept(heap, errors)).verdict in {Cancelled, DeviceConnection}
    ensures Inspected(heap, errors[j]).verdict.Cancelled? ==> Inspected(heap, Kept(heap, errors)).verdict.Cancelled?
    ensures !Inspected(heap, Kept(heap, errors)).invalid
  {
    hide Kept, Inspected;
    KeptIsEarliestGreatest(heap, errors);
    var i: nat :| KeptAt(heap, errors, i);
    assert RootPrecedence(heap, errors[j]) <= RootPrecedence(heap, errors[i]);
    if Inspected(heap, Kept(heap, errors)).invalid {
      InvalidIsPlain(heap, Kept(heap, errors));
    }
  }

  lemma InvalidIsPlain(heap: ErrorHeap, err: ErrorRef)
    requires ClosedHeap(heap) && RefIn(heap, err) && Inspected(heap, err).invalid
    ensures Inspected(heap, err).verdict.PlainFailure?
  {
    hide Classify;
    ErrorTheorems.InvalidIsPlainFailure(heap, err, 0, {});
  }

  lemma CancelledBelow(heap: ErrorHeap, id: ErrorId, path: seq<ErrorId>)
    requires ClosedHeap(heap) && id in heap && !Inspected(heap, Some(id)).invalid
    requires ErrorTheorems.Reaches(heap, id, path) && ErrorTheorems.DirectAt(heap, path).Cancelled?
    ensures Inspected(heap, Some(id)).verdict.Cancelled?
  {
    hide Inspected;
    assert ErrorTheorems.ReachesClass(heap, id, Cancelled);
    ErrorTheorems.SeenClass(heap, id, Cancelled);
  }

  /** End to end: when a well-formed error of a root contains a cancellation anywhere below it, the error
      the root reports is classified as cancelled, and sanitising leaves it alone. */
  lemma {:induction false} CancellationSurfaces(heap: ErrorHeap, rejection: ErrorId, script: Script, trace: Trace,
                                                slot: ErrorId,
                                                j: nat, path: seq<ErrorId>)
    requires ScriptIn(heap, rejection, script) && slot !in heap && TraceOk(SelectedRoot, heap, rejection, script, trace)
    requires Errors(heap, Observed(SelectedRoot, rejection, script, trace))
    requires j < |Observed(SelectedRoot, rejection, script, trace)|
    requires Observed(SelectedRoot, rejection, script, trace)[j].Some?
    requires !IsIntegrity(heap, Observed(SelectedRoot, rejection, script, trace)[j])
    requires !Inspected(heap, Observed(SelectedRoot, rejection, script, trace)[j]).invalid
    requires ErrorTheorems.Reaches(heap, Observed(SelectedRoot, rejection, script, trace)[j].value, path)
    requires ErrorTheorems.DirectAt(heap, path).Cancelled?
    ensures Sanitize(heap, Surfacing(SelectedRoot, heap, Observed(SelectedRoot, rejection, script, trace)), slot)
            == (heap, Kept(heap, Observed(SelectedRoot, rejection, script, trace)))
    ensures Inspected(heap, Kept(heap, Observed(SelectedRoot, rejection, script, trace))).verdict.Cancelled?
  {
    hide Kept, Inspected, Observed, PhaseOk;
    var errors := Observed(SelectedRoot, rejection, script, trace);
    CancelledBelow(heap, errors[j].value, path);
    RootNeverHidesDeviceLoss(heap, errors, j);
  }

  /** Sanitising keeps exactly the well-formed errors as they are, and what it puts in the place of a
      malformed one is a well-formed configuration error. */
  lemma {:induction false} SanitizingKeepsExactlyTheWellFormed(heap: ErrorHeap, err: ErrorRef, slot: ErrorId)
    requires ClosedHeap(heap) && RefIn(heap, err) && slot !in heap
    ensures Sanitize(heap, err, slot) == (heap, err) <==> !Inspected(heap, err).invalid
    ensures ClosedHeap(Sanitize(heap, err, slot).0) && RefIn(Sanitize(heap, err, slot).0, Sanitize(heap, err, slot).1)
    ensures !Inspected(Sanitize(heap, err, slot).0, Sanitize(heap, err, slot).1).invalid
    ensures Inspected(heap, err).invalid ==>
              && Inspected(Sanitize(heap, err, slot).0, Sanitize(heap, err, slot).1).verdict.Configuration?
              && !BrokenSession(Sanitize(heap, err, slot).0, Sanitize(heap, err, slot).1)
  {
    hide Inspected;
    NilIsWellFormed(heap);
    ErrorTheorems.MalformedClassification(heap, slot);
  }

  lemma NilIsWellFormed(heap: ErrorHeap)
    requires ClosedHeap(heap)
    ensures !Inspected(heap, None).invalid
  {
    ErrorTheorems.NilIsValid(heap, 0, {});
  }
}
