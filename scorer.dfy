/** The three scores of an evaluation (src/scorer.py), on percentages. */
module Scorer {
  import opened Models
  import Aggregator

  /** `(reasoning_score, correctness_score, overall_score)`. */
  datatype Scores = Scores(reasoning: real, correctness: real, overall: real)

  /** The default weights of `compute_scores`. */
  const DefaultReasoningWeight: real := 0.7
  const DefaultCorrectnessWeight: real := 0.3

  /** `sum(1 for e in evaluated_steps if e.valid)`. */
  function CountValid(evaluated: seq<EvaluatedStep>): (n: nat)
    ensures n <= |evaluated|
    ensures n == |evaluated| <==> forall i :: 0 <= i < |evaluated| ==> evaluated[i].valid
    ensures n == 0 <==> forall i :: 0 <= i < |evaluated| ==> !evaluated[i].valid
  {
    if evaluated == [] then 0
    else
      var init := evaluated[..|evaluated| - 1];
      assert forall i :: 0 <= i < |init| ==> init[i] == evaluated[i];
      CountValid(init) + (if evaluated[|evaluated| - 1].valid then 1 else 0)
  }

  /** The scores of `valid` valid steps out of `total` steps: the reasoning
      score is the percentage of valid steps (0 when there are no steps), so it
      lies in [0, 100], is 100 exactly when every step is valid and 0 exactly
      when none is; the correctness score is 100 or 0; the overall score is
      their weighted sum. */
  function ScoresOf(valid: nat, total: nat, finalAnswerCorrect: bool,
                    reasoningWeight: real, correctnessWeight: real): (s: Scores)
    requires valid <= total
    ensures total == 0 ==> s.reasoning == 0.0
    ensures total > 0 ==> s.reasoning * total as real == 100.0 * valid as real
    ensures 0.0 <= s.reasoning <= 100.0
    ensures s.reasoning == 100.0 <==> total > 0 && valid == total
    ensures s.reasoning == 0.0 <==> valid == 0
    ensures s.correctness == 100.0 <==> finalAnswerCorrect
    ensures s.correctness == 0.0 <==> !finalAnswerCorrect
    ensures s.overall == reasoningWeight * s.reasoning + correctnessWeight * s.correctness
  {
    var reasoning := if total == 0 then 0.0 else (valid as real / total as real) * 100.0;
    assert total > 0 ==>
             reasoning * total as real == 100.0 * valid as real && 0.0 <= reasoning <= 100.0 &&
             (reasoning == 100.0 <==> valid == total) && (reasoning == 0.0 <==> valid == 0) by {
      if total > 0 {
        ReasoningBounds(valid, total);
      }
    }
    var correctness := if finalAnswerCorrect then 100.0 else 0.0;
    Scores(reasoning, correctness, reasoningWeight * reasoning + correctnessWeight * correctness)
  }

  lemma {:induction false} ReasoningBounds(valid: nat, total: nat)
    requires 0 < total && valid <= total
    ensures var r := (valid as real / total as real) * 100.0;
            r * total as real == 100.0 * valid as real &&
            0.0 <= r <= 100.0 &&
            (r == 100.0 <==> valid == total) &&
            (r == 0.0 <==> valid == 0)
  {
    var q := valid as real / total as real;
    assert q * total as real == valid as real;
    if q == 1.0 {
      assert valid as real == total as real;
    }
  }

  /** `compute_scores`: the scores of the count of valid steps, the number of
      steps and the answer flag, so nothing else about the steps (their
      errors, their order) matters. */
  function ComputeScores(evaluated: seq<EvaluatedStep>, finalAnswerCorrect: bool,
                         reasoningWeight: real, correctnessWeight: real): (s: Scores)
    ensures s == ScoresOf(CountValid(evaluated), |evaluated|, finalAnswerCorrect, reasoningWeight, correctnessWeight)
    ensures s.reasoning == 100.0 <==> |evaluated| > 0 && forall i :: 0 <= i < |evaluated| ==> evaluated[i].valid
    ensures s.reasoning == 0.0 <==> forall i :: 0 <= i < |evaluated| ==> !evaluated[i].valid
  {
    ScoresOf(CountValid(evaluated), |evaluated|, finalAnswerCorrect, reasoningWeight, correctnessWeight)
  }

  /** With non-negative weights summing to one, the overall score is a
      percentage too. */
  lemma {:induction false} OverallIsPercentage(evaluated: seq<EvaluatedStep>, finalAnswerCorrect: bool,
                            reasoningWeight: real, correctnessWeight: real)
    requires 0.0 <= reasoningWeight && 0.0 <= correctnessWeight
    requires reasoningWeight + correctnessWeight == 1.0
    ensures var s := ComputeScores(evaluated, finalAnswerCorrect, reasoningWeight, correctnessWeight);
            0.0 <= s.overall <= 100.0
  {
    OverallOfPercentages(ComputeScores(evaluated, finalAnswerCorrect, reasoningWeight, correctnessWeight),
                         reasoningWeight, correctnessWeight);
  }

  /** Scores whose two parts are percentages and whose overall score is their
      weighted sum, with weights as above, have a percentage overall. */
  lemma {:induction false} OverallOfPercentages(s: Scores, reasoningWeight: real, correctnessWeight: real)
    requires 0.0 <= reasoningWeight && 0.0 <= correctnessWeight
    requires reasoningWeight + correctnessWeight == 1.0
    requires 0.0 <= s.reasoning <= 100.0 && 0.0 <= s.correctness <= 100.0
    requires s.overall == reasoningWeight * s.reasoning + correctnessWeight * s.correctness
    ensures 0.0 <= s.overall <= 100.0
  {
    WeightedPercentage(reasoningWeight, s.reasoning);
    WeightedPercentage(correctnessWeight, s.correctness);
    SumOfWeighted(reasoningWeight * s.reasoning, correctnessWeight * s.correctness, reasoningWeight, correctnessWeight);
  }

  /** Two weighted percentages with weights summing to one add up to a
      percentage. */
  lemma {:induction false} SumOfWeighted(p: real, q: real, reasoningWeight: real, correctnessWeight: real)
    requires 0.0 <= p <= reasoningWeight * 100.0 && 0.0 <= q <= correctnessWeight * 100.0
    requires reasoningWeight + correctnessWeight == 1.0
    ensures 0.0 <= p + q <= 100.0
  {
  }

  /** A non-negative weight times a percentage lies between 0 and the weight
      times 100. */
  lemma {:induction false} WeightedPercentage(weight: real, score: real)
    requires 0.0 <= weight && 0.0 <= score <= 100.0
    ensures 0.0 <= weight * score <= weight * 100.0
  {
    assert weight * (100.0 - score) >= 0.0;
  }

  /** With the default weights a non-empty, fully valid evaluation with the
      right answer scores 100 overall, and a correct answer with no steps
      scores 30. */
  lemma {:induction false} DefaultWeightExtremes(evaluated: seq<EvaluatedStep>)
    ensures (|evaluated| > 0 && forall i :: 0 <= i < |evaluated| ==> evaluated[i].valid) ==>
              ComputeScores(evaluated, true, DefaultReasoningWeight, DefaultCorrectnessWeight).overall == 100.0
    ensures |evaluated| == 0 ==>
              ComputeScores(evaluated, true, DefaultReasoningWeight, DefaultCorrectnessWeight).overall == 30.0
  {
  }

  /** The valid steps the scorer counts and the invalid steps the failure
      summary lists together make up all the steps. */
  lemma {:induction false} ScoresAgreeWithSummary(evaluated: seq<EvaluatedStep>)
    ensures CountValid(evaluated) + |Aggregator.InvalidIndices(evaluated)| == |evaluated|
  {
    if evaluated != [] {
      ScoresAgreeWithSummary(evaluated[..|evaluated| - 1]);
    }
  }
}
