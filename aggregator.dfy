/** The failure summary (src/aggregator.py): which steps failed, which
    errors they raised, and one status label for the whole evaluation. */
module Aggregator {
  import opened Text
  import opened Models

  /** The four labels of `status`: "all_valid", "all_invalid",
      "some_invalid" and "incorrect_answer". */
  datatype Status = AllValid | AllInvalid | SomeInvalid | IncorrectAnswer

  /** The dictionary `aggregate_failures` returns, one field per key. */
  datatype FailureSummary = FailureSummary(
    invalidStepIndices: seq<int>,
    errorTypes: seq<string>,
    status: Status,
    invalidCount: nat,
    totalSteps: nat,
    finalAnswerCorrect: bool)

  /** The status chain, tried in the source's order. Its last branch cannot
      be reached: the first branch already takes every case with no invalid
      step and a correct answer. */
  function StatusOf(invalidCount: nat, totalSteps: nat, finalAnswerCorrect: bool): (s: Status)
    ensures s == AllValid <==> invalidCount == 0 && finalAnswerCorrect
    ensures s == AllInvalid <==> invalidCount == totalSteps && !(invalidCount == 0 && finalAnswerCorrect)
    ensures s == SomeInvalid <==> 0 < invalidCount && invalidCount != totalSteps
    ensures s == IncorrectAnswer <==> invalidCount == 0 && totalSteps != 0 && !finalAnswerCorrect
  {
    if invalidCount == 0 && finalAnswerCorrect then AllValid
    else if invalidCount == totalSteps then AllInvalid
    else if invalidCount > 0 then SomeInvalid
    else if !finalAnswerCorrect then IncorrectAnswer
    else AllValid
  }

  /** With no steps the answer alone decides: "all_valid" when it is correct
      and "all_invalid" when it is not. */
  lemma {:induction false} NoStepsStatus(finalAnswerCorrect: bool)
    ensures StatusOf(0, 0, finalAnswerCorrect) == if finalAnswerCorrect then AllValid else AllInvalid
  {
  }

  /** When every one of several steps is invalid, the status is "all_invalid"
      even if the answer is correct. */
  lemma {:induction false} EveryStepInvalidStatus(totalSteps: nat, finalAnswerCorrect: bool)
    requires totalSteps > 0
    ensures StatusOf(totalSteps, totalSteps, finalAnswerCorrect) == AllInvalid
  {
  }

  /** The `index` of every invalid step, in order. */
  function InvalidIndices(evaluated: seq<EvaluatedStep>): (r: seq<int>)
    ensures |r| <= |evaluated|
    ensures forall x :: x in r <==>
              exists i :: 0 <= i < |evaluated| && !evaluated[i].valid && evaluated[i].step.index == x
    ensures r == [] <==> forall i :: 0 <= i < |evaluated| ==> evaluated[i].valid
    ensures |r| == |evaluated| <==> forall i :: 0 <= i < |evaluated| ==> !evaluated[i].valid
  {
    if evaluated == [] then []
    else
      var init := evaluated[..|evaluated| - 1];
      var last := evaluated[|evaluated| - 1];
      var r := InvalidIndices(init) + (if last.valid then [] else [last.step.index]);
      assert forall i :: 0 <= i < |init| ==> init[i] == evaluated[i];
      r
  }

  /** Collecting indices works step by step: the indices of two runs of
      steps one after the other are those of the first run followed by those
      of the second, so the list keeps the input order of the steps. */
  lemma {:induction false} InvalidIndicesConcat(a: seq<EvaluatedStep>, b: seq<EvaluatedStep>)
    ensures InvalidIndices(a + b) == InvalidIndices(a) + InvalidIndices(b)
  {
    if b != [] {
      var ab := a + b;
      var init := b[..|b| - 1];
      var last := b[|b| - 1];
      assert ab[..|ab| - 1] == a + init;
      assert ab[|ab| - 1] == last;
      InvalidIndicesSnoc(ab);
      InvalidIndicesSnoc(b);
      InvalidIndicesConcat(a, init);
      AssociativeInts(InvalidIndices(a), InvalidIndices(init), if last.valid then [] else [last.step.index]);
    } else {
      assert a + b == a;
    }
  }

  /** `InvalidIndices` of a non-empty list: the indices of all but the last
      step, then the last step's index when it is invalid. */
  lemma {:induction false} InvalidIndicesSnoc(evaluated: seq<EvaluatedStep>)
    requires evaluated != []
    ensures InvalidIndices(evaluated) ==
              InvalidIndices(evaluated[..|evaluated| - 1]) +
              (if evaluated[|evaluated| - 1].valid then [] else [evaluated[|evaluated| - 1].step.index])
  {
  }

  /** `ReportedErrors` after one more step: the errors collected so far, and
      that step's errors when it is invalid. */
  lemma {:induction false} ReportedErrorsSnoc(init: seq<EvaluatedStep>, last: EvaluatedStep)
    ensures ReportedErrors(init + [last]) ==
              ReportedErrors(init) + (if last.valid then {} else set e | e in last.errors)
  {
    assert (init + [last])[..|init|] == init;
  }

  /** What the loop of `aggregate_failures` holds after step `i`: what it
      held before, and that step's index and errors when it is invalid. */
  lemma {:induction false} CollectedAfterStep(evaluated: seq<EvaluatedStep>, i: nat, step: EvaluatedStep)
    requires i < |evaluated| && step == evaluated[i]
    ensures InvalidIndices(evaluated[..i + 1]) ==
              InvalidIndices(evaluated[..i]) + (if step.valid then [] else [step.step.index])
    ensures ReportedErrors(evaluated[..i + 1]) ==
              ReportedErrors(evaluated[..i]) + (if step.valid then {} else set e | e in step.errors)
  {
    assert evaluated[..i + 1][..i] == evaluated[..i];
    InvalidIndicesSnoc(evaluated[..i + 1]);
    assert evaluated[..i + 1] == evaluated[..i] + [step];
    ReportedErrorsSnoc(evaluated[..i], step);
  }

  lemma {:induction false} AssociativeInts(x: seq<int>, y: seq<int>, z: seq<int>)
    ensures x + y + z == x + (y + z)
  {
  }

  /** The errors of the invalid steps; the errors a valid step carries are
      not collected. */
  function ReportedErrors(evaluated: seq<EvaluatedStep>): (errors: set<string>)
    ensures forall e :: e in errors <==>
              exists i :: 0 <= i < |evaluated| && !evaluated[i].valid && e in evaluated[i].errors
  {
    if evaluated == [] then {}
    else
      var init := evaluated[..|evaluated| - 1];
      var last := evaluated[|evaluated| - 1];
      assert forall i :: 0 <= i < |init| ==> init[i] == evaluated[i];
      ReportedErrors(init) + (if last.valid then {} else set e | e in last.errors)
  }

  /** The inner loop of `aggregate_failures`: `error_set.add` for each error
      of one step, leaving the set holding exactly the old errors and these. */
  method AddErrors(errorSet: set<string>, errors: seq<string>) returns (result: set<string>)
    ensures forall e :: e in result <==> e in errorSet || e in errors
    ensures result == errorSet + set e | e in errors
  {
    result := errorSet;
    for j := 0 to |errors|
      invariant forall e :: e in result <==> e in errorSet || e in errors[..j]
    {
      assert errors[..j + 1] == errors[..j] + [errors[j]];
      result := result + {errors[j]};
    }
    assert errors[..|errors|] == errors;
  }

  /** The loop of `aggregate_failures`: one pass over the evaluated steps
      collecting the indices of the invalid ones and the set of their errors. */
  method CollectFailures(evaluated: seq<EvaluatedStep>) returns (invalidStepIndices: seq<int>, errorSet: set<string>)
    ensures invalidStepIndices == InvalidIndices(evaluated)
    ensures errorSet == ReportedErrors(evaluated)
  {
    invalidStepIndices := [];
    errorSet := {};
    for i := 0 to |evaluated|
      invariant invalidStepIndices == InvalidIndices(evaluated[..i])
      invariant errorSet == ReportedErrors(evaluated[..i])
    {
      var evaluatedStep := evaluated[i];
      CollectedAfterStep(evaluated, i, evaluatedStep);
      if !evaluatedStep.valid {
        invalidStepIndices := invalidStepIndices + [evaluatedStep.step.index];
        errorSet := AddErrors(errorSet, evaluatedStep.errors);
      }
    }
    assert evaluated[..|evaluated|] == evaluated;
  }

  /** `aggregate_failures`: the invalid steps' indices and errors, then the
      counts, the status and the errors in sorted order. */
  method AggregateFailures(evaluated: seq<EvaluatedStep>, finalAnswerCorrect: bool) returns (summary: FailureSummary)
    ensures summary.invalidStepIndices == InvalidIndices(evaluated)
    ensures StrictlySorted(summary.errorTypes)
    ensures forall e :: e in summary.errorTypes <==>
              exists i :: 0 <= i < |evaluated| && !evaluated[i].valid && e in evaluated[i].errors
    ensures summary.invalidCount == |InvalidIndices(evaluated)|
    ensures summary.totalSteps == |evaluated|
    ensures summary.status == StatusOf(summary.invalidCount, summary.totalSteps, finalAnswerCorrect)
    ensures summary.finalAnswerCorrect == finalAnswerCorrect
  {
    var invalidStepIndices, errorSet := CollectFailures(evaluated);
    var totalSteps := |evaluated|;
    var invalidCount := |invalidStepIndices|;
    var status := StatusOf(invalidCount, totalSteps, finalAnswerCorrect);
    summary := FailureSummary(invalidStepIndices, SortedElements(errorSet), status,
                              invalidCount, totalSteps, finalAnswerCorrect);
  }

  /** Steps numbered 1, 2, … in order, as the parser numbers them. */
  predicate Numbered(evaluated: seq<EvaluatedStep>) {
    forall i :: 0 <= i < |evaluated| ==> evaluated[i].step.index == i + 1
  }

  predicate Increasing(r: seq<int>) {
    forall j, k :: 0 <= j < k < |r| ==> r[j] < r[k]
  }

  /** For numbered steps the invalid indices are increasing and each names
      an invalid step. */
  lemma {:induction false} InvalidIndicesOfNumberedSteps(evaluated: seq<EvaluatedStep>)
    requires Numbered(evaluated)
    ensures Increasing(InvalidIndices(evaluated))
    ensures forall x :: x in InvalidIndices(evaluated) ==>
              1 <= x <= |evaluated| && !evaluated[x - 1].valid
  {
    if evaluated != [] {
      var init := evaluated[..|evaluated| - 1];
      var last := evaluated[|evaluated| - 1];
      assert forall i :: 0 <= i < |init| ==> init[i] == evaluated[i];
      InvalidIndicesOfNumberedSteps(init);
      var before := InvalidIndices(init);
      var tail := if last.valid then [] else [last.step.index];
      assert InvalidIndices(evaluated) == before + tail;
      assert forall j :: 0 <= j < |before| ==> before[j] in before;
      AppendLarger(before, tail, |evaluated|);
    }
  }

  /** Appending numbers larger than all of an increasing list keeps it increasing. */
  lemma {:induction false} AppendLarger(before: seq<int>, tail: seq<int>, n: int)
    requires Increasing(before) && Increasing(tail)
    requires forall j :: 0 <= j < |before| ==> before[j] < n
    requires forall j :: 0 <= j < |tail| ==> tail[j] == n
    ensures Increasing(before + tail)
  {
  }

  /** For numbered steps, an invalid step's number is among the indices. */
  lemma {:induction false} InvalidStepListed(evaluated: seq<EvaluatedStep>, i: nat)
    requires Numbered(evaluated)
    requires i < |evaluated| && !evaluated[i].valid
    ensures i + 1 in InvalidIndices(evaluated)
  {
  }
}
