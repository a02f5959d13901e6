/** The loop over the selected roots: which of them run, and which failure is reported. */
module RootLoop {
  import opened Wrappers

  /** What running one selected root would yield. A session that cannot be created yields no result and
      a run error; `cancelled` tells whether the context is cancelled afterwards. */
  datatype RootAnswer<R, E> = RootAnswer(
    compiled: bool,
    result: Option<R>,
    runError: Option<E>,
    closeError: Option<E>,
    cancelled: bool)

  function ErrorOf<R, E>(answer: RootAnswer<R, E>): Option<E> {
    OrElse(answer.runError, answer.closeError)
  }

  /** The root fails with this error: that of its run, or after a clean run that of closing its session. */
  ghost predicate FailsWith<R, E>(answer: RootAnswer<R, E>, err: E) {
    answer.runError == Some(err) || (answer.runError.None? && answer.closeError == Some(err))
  }

  ghost predicate Succeeds<R, E>(answer: RootAnswer<R, E>) {
    answer.runError.None? && answer.closeError.None?
  }

  lemma ErrorIsTheFailure<R, E>(answer: RootAnswer<R, E>)
    ensures forall err :: ErrorOf(answer) == Some(err) <==> FailsWith(answer, err)
    ensures ErrorOf(answer).None? <==> Succeeds(answer)
  {
  }

  /** No root runs after this one. */
  predicate Ends<R, E>(answer: RootAnswer<R, E>, sequenced: bool, continueOnFailure: bool) {
    !answer.compiled || (ErrorOf(answer).Some? && ((sequenced && !continueOnFailure) || answer.cancelled))
  }

  /** The first `ran` roots ran: up to the first that ends the loop, or all of them. */
  ghost predicate RootsRan<R, E>(answers: seq<RootAnswer<R, E>>, sequencedRoots: int, continueOnFailure: bool,
                                 ran: nat) {
    && ran <= |answers|
    && (forall i :: 0 <= i < ran - 1 ==> !Ends(answers[i], i < sequencedRoots, continueOnFailure))
    && (ran < |answers| ==> ran > 0 && Ends(answers[ran - 1], ran - 1 < sequencedRoots, continueOnFailure))
  }

  /** The results that the compiled roots among the answers produced, in order. */
  function Collected<R, E>(answers: seq<RootAnswer<R, E>>): seq<R> {
    if answers == [] then []
    else
      var last := answers[|answers| - 1];
      Collected(answers[..|answers| - 1]) + (if last.compiled && last.result.Some? then [last.result.value] else [])
  }

  /** Error i is the first among the answers. */
  ghost predicate FirstFailureAt<R, E>(answers: seq<RootAnswer<R, E>>, i: int, err: E) {
    0 <= i < |answers| && FailsWith(answers[i], err) && forall j :: 0 <= j < i ==> Succeeds(answers[j])
  }

  /** The failure is the earliest error of the first `n` answers, if there is one. */
  ghost predicate IsFirstFailure<R, E>(answers: seq<RootAnswer<R, E>>, n: nat, failure: Option<E>) {
    n <= |answers|
    && (failure.None? ==> forall i :: 0 <= i < n ==> Succeeds(answers[i]))
    && (failure.Some? ==> exists i :: i < n && FirstFailureAt(answers, i, failure.value))
  }

  /** A compiled root that is missing overrides every earlier failure. */
  method ExecuteRoots<R, E>(answers: seq<RootAnswer<R, E>>, sequencedRoots: int, continueOnFailure: bool, missing: E)
    returns (results: seq<R>, failure: Option<E>, ran: nat)
    ensures RootsRan(answers, sequencedRoots, continueOnFailure, ran)
    ensures results == Collected(answers[..ran])
    ensures if ran > 0 && !answers[ran - 1].compiled then failure == Some(missing)
            else IsFirstFailure(answers, ran, failure)
  {
    hide Collected;
    results := [];
    failure := None;
    ran := 0;
    CollectedNothing<R, E>();
    while ran < |answers|
      invariant 0 <= ran <= |answers|
      invariant forall i :: 0 <= i < ran ==> !Ends(answers[i], i < sequencedRoots, continueOnFailure)
      invariant results == Collected(answers[..ran])
      invariant IsFirstFailure(answers, ran, failure)
      decreases |answers| - ran
    {
      var index := ran;
      var answer := answers[index];
      ran := ran + 1;
      CollectedStep(answers, index);
      if !answer.compiled {
        return results, Some(missing), ran;
      }
      if answer.result.Some? {
        results := results + [answer.result.value];
      }
      var executeError := ErrorOf(answer);
      if executeError.None? {
        continue;
      }
      if failure.None? {
        failure := executeError;
        assert FirstFailureAt(answers, index, failure.value);
      }
      if index < sequencedRoots && !continueOnFailure {
        return results, failure, ran;
      }
      if answer.cancelled {
        return results, failure, ran;
      }
    }
  }

  lemma CollectedNothing<R, E>()
    ensures Collected<R, E>([]) == []
  {
  }

  lemma CollectedStep<R, E>(answers: seq<RootAnswer<R, E>>, n: nat)
    requires n < |answers|
    ensures Collected(answers[..n + 1]) ==
            Collected(answers[..n]) + (if answers[n].compiled && answers[n].result.Some? then [answers[n].result.value]
                                       else [])
  {
    assert answers[..n + 1][..n] == answers[..n];
  }

  /** With every root compiled, roots are left out exactly when an earlier one failed inside the declared
      sequence without continuation, or failed in a cancelled context. In particular independent roots
      all run however many of them fail. */
  lemma RootsLeftOutExactlyWhen<R, E>(answers: seq<RootAnswer<R, E>>, sequencedRoots: int, continueOnFailure: bool,
                                      ran: nat)
    requires RootsRan(answers, sequencedRoots, continueOnFailure, ran)
    requires forall i :: 0 <= i < |answers| ==> answers[i].compiled
    ensures ran < |answers| <==>
            exists i :: 0 <= i < |answers| - 1 && StopsRun(answers[i], i < sequencedRoots, continueOnFailure)
  {
    if ran < |answers| {
      assert StopsRun(answers[ran - 1], ran - 1 < sequencedRoots, continueOnFailure);
    }
    forall i | 0 <= i < |answers| - 1 && StopsRun(answers[i], i < sequencedRoots, continueOnFailure)
      ensures ran < |answers|
    {
      assert Ends(answers[i], i < sequencedRoots, continueOnFailure);
    }
  }

  ghost predicate StopsRun<R, E>(answer: RootAnswer<R, E>, sequenced: bool, continueOnFailure: bool) {
    !Succeeds(answer) && (answer.cancelled || (sequenced && !continueOnFailure))
  }

  /** Without continuation nothing runs after a failure in the declared sequence, so only the last root
      that ran can be a failed member of it. */
  lemma SequenceStopsAtItsFirstFailure<R, E>(answers: seq<RootAnswer<R, E>>, sequencedRoots: int, ran: nat, i: nat)
    requires RootsRan(answers, sequencedRoots, false, ran)
    requires i < |answers| && i < sequencedRoots && !Succeeds(answers[i])
    ensures ran <= i + 1
  {
    assert Ends(answers[i], true, false);
  }
}
