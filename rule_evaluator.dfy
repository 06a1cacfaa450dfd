/** The rule evaluator (src/rule_evaluator.py): three substring heuristics run
    on every step, every error they find is kept, and a step is valid exactly
    when none was found. */
module RuleEvaluator {
  import opened Text
  import opened Models

  /** Wording that suggests a step builds on the one before. */
  const ContinuationPhrases: seq<string> := [
    "next i will", "now i", "then i", "after that",
    "following this", "continuing", "based on this", "from the previous"
  ]

  /** Wording that counts as an explicit backward reference. */
  const ReferencePhrases: seq<string> := [
    "from step", "as shown", "as calculated", "this gives", "this means",
    "therefore", "thus", "so", "which", "the result", "the answer",
    "we have", "i have", "remaining", "now"
  ]

  const IrrelevantError: string := "Possibly irrelevant to the task"

  const ContinuityError: string :=
    "Possible missing link in reasoning: " + "continuation without clear reference to previous step"

  function ConstraintError(constraint: string): string {
    "Potential constraint violation: '" + constraint + "'"
  }

  /** `any(phrase in text for phrase in phrases)`. */
  predicate ContainsAny(text: string, phrases: seq<string>) {
    exists k :: 0 <= k < |phrases| && Contains(text, phrases[k])
  }

  /** The words of the previous step that count as key terms: alphabetic and
      longer than three characters, in their original order. */
  function KeyTerms(words: seq<string>): (terms: seq<string>)
    ensures forall k :: 0 <= k < |terms| ==> |terms[k]| > 3 && IsAlpha(terms[k]) && terms[k] in words
    ensures forall k :: 0 <= k < |words| && |words[k]| > 3 && IsAlpha(words[k]) ==> words[k] in terms
  {
    if words == [] then []
    else
      var rest := KeyTerms(words[1..]);
      var w := words[0];
      if |w| > 3 && IsAlpha(w) then [w] + rest else rest
  }

  /** `check_continuity`: a step that uses continuation wording must carry a
      reference phrase or one of the previous step's key terms. */
  function CheckContinuity(current: Step, previous: Option<Step>): (r: Option<string>)
    ensures r.Some? ==> r.value == ContinuityError
    ensures !ContainsAny(Lower(current.text), ContinuationPhrases) ==> r == None
    ensures ContainsAny(Lower(current.text), ReferencePhrases) ==> r == None
    ensures previous.Some? &&
            (exists k :: 0 <= k < |Words(Lower(previous.value.text))| &&
              var w := Words(Lower(previous.value.text))[k];
              |w| > 3 && IsAlpha(w) && Contains(Lower(current.text), w))
            ==> r == None
    ensures previous == None ==>
              (r.Some? <==> ContainsAny(Lower(current.text), ContinuationPhrases) &&
                            !ContainsAny(Lower(current.text), ReferencePhrases))
    ensures previous.Some? &&
            ContainsAny(Lower(current.text), ContinuationPhrases) &&
            !ContainsAny(Lower(current.text), ReferencePhrases) &&
            (forall k :: 0 <= k < |Words(Lower(previous.value.text))| ==>
              var w := Words(Lower(previous.value.text))[k];
              !(|w| > 3 && IsAlpha(w) && Contains(Lower(current.text), w)))
            ==> r == Some(ContinuityError)
  {
    var textLower := Lower(current.text);
    var usesContinuation := ContainsAny(textLower, ContinuationPhrases);
    if !usesContinuation then None
    else
      var hasReference := ContainsAny(textLower, ReferencePhrases);
      var referencesPrevious :=
        match previous
        case Some(prev) => ContainsAny(textLower, KeyTerms(Words(Lower(prev.text))))
        case None => false;
      if !hasReference && !referencesPrevious then Some(ContinuityError) else None
  }

  /** `task_lower.split()[:3]`. */
  function TaskTokens(taskDescription: string): (tokens: seq<string>)
    ensures |tokens| <= 3
  {
    var words := Words(Lower(taskDescription));
    if |words| <= 3 then words else words[..3]
  }

  /** The relevance rule's contribution to a step's errors. */
  function RelevanceErrors(textLower: string, tokens: seq<string>): (r: seq<string>)
    ensures r == [] || r == [IrrelevantError]
    ensures r == [] <==> exists k :: 0 <= k < |tokens| && Contains(textLower, tokens[k])
  {
    if ContainsAny(textLower, tokens) then [] else [IrrelevantError]
  }

  /** The constraint rule's contribution: one error per matching constraint,
      in list order. */
  function ConstraintErrors(textLower: string, constraints: seq<string>): (r: seq<string>)
    ensures |r| <= |constraints|
  {
    if constraints == [] then []
    else
      var last := constraints[|constraints| - 1];
      ConstraintErrors(textLower, constraints[..|constraints| - 1]) +
        (if Contains(textLower, Lower(last)) then [ConstraintError(last)] else [])
  }

  /** The continuity rule's contribution. */
  function ContinuityErrors(current: Step, previous: Option<Step>): seq<string> {
    match CheckContinuity(current, previous)
    case Some(e) => [e]
    case None => []
  }

  /** The errors recorded for `steps[i]`: relevance, then constraints, then continuity. */
  function StepErrors(steps: seq<Step>, i: nat, tokens: seq<string>, constraints: seq<string>): (r: seq<string>)
    requires i < |steps|
    ensures |r| <= |constraints| + 2
  {
    var textLower := Lower(steps[i].text);
    var previous := if i > 0 then Some(steps[i - 1]) else None;
    RelevanceErrors(textLower, tokens) + ConstraintErrors(textLower, constraints) +
      ContinuityErrors(steps[i], previous)
  }

  /** The verdict on `steps[i]`: the step itself, its errors, and valid
      exactly when there are none. */
  function Verdict(steps: seq<Step>, i: nat, tokens: seq<string>, constraints: seq<string>): (e: EvaluatedStep)
    requires i < |steps|
    ensures e.step == steps[i]
    ensures e.valid <==> e.errors == []
  {
    var errors := StepErrors(steps, i, tokens, constraints);
    EvaluatedStep(steps[i], |errors| == 0, errors)
  }

  /** `constraints`, with a missing list (`None`) treated as the empty one. */
  function ConstraintList(constraints: Option<seq<string>>): seq<string> {
    if constraints == None then [] else constraints.value
  }

  /** `evaluate_steps`: one verdict per step, in order. */
  method EvaluateSteps(steps: seq<Step>, taskDescription: string, constraints: Option<seq<string>>)
    returns (evaluated: seq<EvaluatedStep>)
    ensures |evaluated| == |steps|
    ensures forall i :: 0 <= i < |steps| ==>
              evaluated[i] == Verdict(steps, i, TaskTokens(taskDescription), ConstraintList(constraints))
  {
    var cs := ConstraintList(constraints);
    evaluated := [];
    var tokens := TaskTokens(taskDescription);
    for i := 0 to |steps|
      invariant |evaluated| == i
      invariant forall k :: 0 <= k < i ==> evaluated[k] == Verdict(steps, k, tokens, cs)
    {
      var verdict := EvaluateStep(steps, i, tokens, cs);
      evaluated := evaluated + [verdict];
    }
  }

  /** The body of the loop in `evaluate_steps`: run the three rules on
      `steps[i]`, appending each error found to the step's error list. */
  method EvaluateStep(steps: seq<Step>, i: nat, tokens: seq<string>, constraints: seq<string>)
    returns (verdict: EvaluatedStep)
    requires i < |steps|
    ensures verdict == Verdict(steps, i, tokens, constraints)
  {
    var step := steps[i];
    var errors: seq<string> := [];
    var textLower := Lower(step.text);
    if !ContainsAny(textLower, tokens) {
      errors := errors + [IrrelevantError];
    }
    for j := 0 to |constraints|
      invariant errors == RelevanceErrors(textLower, tokens) + ConstraintErrors(textLower, constraints[..j])
    {
      assert constraints[..j + 1][..j] == constraints[..j];
      if Contains(textLower, Lower(constraints[j])) {
        errors := errors + [ConstraintError(constraints[j])];
      }
    }
    assert constraints[..|constraints|] == constraints;
    var previous := if i > 0 then Some(steps[i - 1]) else None;
    var continuityError := CheckContinuity(step, previous);
    if continuityError.Some? {
      errors := errors + [continuityError.value];
    }
    verdict := EvaluatedStep(step, |errors| == 0, errors);
  }

  /** A step containing "now i" never gets the continuity error, because the
      continuation phrase "now i" contains the reference phrase "now". */
  lemma {:induction false} NowINeverBreaksContinuity(current: Step, previous: Option<Step>)
    requires Contains(Lower(current.text), "now i")
    ensures CheckContinuity(current, previous) == None
  {
    assert IsPrefix("now", "now i"[0..]);
    ContainsTransitive(Lower(current.text), "now i", "now");
    assert ReferencePhrases[14] == "now";
  }

  /** No constraint error has the wording of the other two rules' errors. */
  lemma {:induction false} ConstraintErrorsAreDistinct(textLower: string, constraints: seq<string>)
    ensures IrrelevantError !in ConstraintErrors(textLower, constraints)
    ensures ContinuityError !in ConstraintErrors(textLower, constraints)
    ensures forall e :: e in ConstraintErrors(textLower, constraints) ==>
              exists k :: 0 <= k < |constraints| && Contains(textLower, Lower(constraints[k])) &&
                          e == ConstraintError(constraints[k])
  {
    if constraints != [] {
      var init := constraints[..|constraints| - 1];
      ConstraintErrorsAreDistinct(textLower, init);
      var last := constraints[|constraints| - 1];
      assert ConstraintError(last)[2] == 't';
      assert IrrelevantError[2] == 's' && ContinuityError[2] == 's';
      forall e | e in ConstraintErrors(textLower, constraints)
        ensures exists k :: 0 <= k < |constraints| && Contains(textLower, Lower(constraints[k])) &&
                            e == ConstraintError(constraints[k])
      {
        if e in ConstraintErrors(textLower, init) {
          var k :| 0 <= k < |init| && Contains(textLower, Lower(init[k])) && e == ConstraintError(init[k]);
          assert constraints[k] == init[k];
        } else {
          assert constraints[|constraints| - 1] == last;
        }
      }
    }
  }

  /** Constraints are checked one after the other, so the errors of a list of
      constraints are those of its first part followed by those of the rest. */
  lemma {:induction false} ConstraintErrorsConcat(textLower: string, first: seq<string>, rest: seq<string>)
    ensures ConstraintErrors(textLower, first + rest) ==
              ConstraintErrors(textLower, first) + ConstraintErrors(textLower, rest)
    decreases |rest|
  {
    if rest == [] {
      assert first + rest == first;
    } else {
      var init := rest[..|rest| - 1];
      var last := rest[|rest| - 1];
      assert (first + rest)[..|first + rest| - 1] == first + init;
      ConstraintErrorsConcat(textLower, first, init);
    }
  }

  /** A constraint that occurs in the step text yields exactly its one
      error, and one that does not yields none. */
  lemma {:induction false} OneConstraintErrors(textLower: string, constraint: string)
    ensures ConstraintErrors(textLower, [constraint]) ==
              if Contains(textLower, Lower(constraint)) then [ConstraintError(constraint)] else []
  {
    assert [constraint][..0] == [];
  }

  /** Every constraint that occurs in the step text yields its error. */
  lemma {:induction false} MatchingConstraintReported(textLower: string, constraints: seq<string>, k: nat)
    requires k < |constraints| && Contains(textLower, Lower(constraints[k]))
    ensures ConstraintError(constraints[k]) in ConstraintErrors(textLower, constraints)
  {
    if k < |constraints| - 1 {
      var init := constraints[..|constraints| - 1];
      assert init[k] == constraints[k];
      MatchingConstraintReported(textLower, init, k);
    }
  }

  /** The empty constraint occurs in every text, so it flags every step. */
  lemma {:induction false} EmptyConstraintFlagsEveryStep(steps: seq<Step>, i: nat, tokens: seq<string>, constraints: seq<string>)
    requires i < |steps| && "" in constraints
    ensures ConstraintError("") in StepErrors(steps, i, tokens, constraints)
  {
    var k :| 0 <= k < |constraints| && constraints[k] == "";
    var textLower := Lower(steps[i].text);
    assert IsPrefix(Lower(""), textLower[0..]);
    MatchingConstraintReported(textLower, constraints, k);
  }

  /** An error list that starts with at most one copy of `e` and has no
      other: `e` is in it exactly when it starts with `e`. */
  lemma {:induction false} OnlyAtFront(e: string, front: seq<string>, rest: seq<string>)
    requires front == [] || front == [e]
    requires e !in rest
    ensures e in front + rest <==> front != []
    ensures e in front + rest ==> (front + rest)[0] == e
    ensures multiset(front + rest)[e] <= 1
  {
    assert multiset(front + rest) == multiset(front) + multiset(rest);
  }

  /** The mirror image of `OnlyAtFront`, for the end of the list. */
  lemma {:induction false} OnlyAtBack(e: string, rest: seq<string>, back: seq<string>)
    requires back == [] || back == [e]
    requires e !in rest
    ensures e in rest + back <==> back != []
    ensures e in rest + back ==> (rest + back)[|rest + back| - 1] == e
    ensures multiset(rest + back)[e] <= 1
  {
    assert multiset(rest + back) == multiset(rest) + multiset(back);
  }

  /** The layout of a step's errors: the relevance error comes first and only
      when no task token occurs, the continuity error comes last and only when
      `check_continuity` reports it, and each appears at most once. */
  lemma {:induction false} StepErrorsLayout(steps: seq<Step>, i: nat, tokens: seq<string>, constraints: seq<string>)
    requires i < |steps|
    ensures IrrelevantError in StepErrors(steps, i, tokens, constraints) <==>
              !ContainsAny(Lower(steps[i].text), tokens)
    ensures IrrelevantError in StepErrors(steps, i, tokens, constraints) ==>
              StepErrors(steps, i, tokens, constraints)[0] == IrrelevantError
    ensures multiset(StepErrors(steps, i, tokens, constraints))[IrrelevantError] <= 1
    ensures ContinuityError in StepErrors(steps, i, tokens, constraints) <==>
              CheckContinuity(steps[i], if i > 0 then Some(steps[i - 1]) else None).Some?
    ensures ContinuityError in StepErrors(steps, i, tokens, constraints) ==>
              StepErrors(steps, i, tokens, constraints)[|StepErrors(steps, i, tokens, constraints)| - 1] == ContinuityError
    ensures multiset(StepErrors(steps, i, tokens, constraints))[ContinuityError] <= 1
  {
    var textLower := Lower(steps[i].text);
    var previous := if i > 0 then Some(steps[i - 1]) else None;
    var rel := RelevanceErrors(textLower, tokens);
    var cons := ConstraintErrors(textLower, constraints);
    var cont := ContinuityErrors(steps[i], previous);
    ConstraintErrorsAreDistinct(textLower, constraints);
    assert IrrelevantError[7] == 'y' && ContinuityError[7] == 'e';
    assert rel + cons + cont == rel + (cons + cont);
    OnlyAtFront(IrrelevantError, rel, cons + cont);
    OnlyAtBack(ContinuityError, rel + cons, cont);
  }

  /** A blank task description gives no tokens, so every step is flagged as
      irrelevant, first among its errors. */
  lemma {:induction false} BlankTaskFlagsEveryStep(steps: seq<Step>, i: nat, taskDescription: string, constraints: seq<string>)
    requires i < |steps|
    requires forall k :: 0 <= k < |taskDescription| ==> IsSpace(taskDescription[k])
    ensures var errors := StepErrors(steps, i, TaskTokens(taskDescription), constraints);
            |errors| > 0 && errors[0] == IrrelevantError
  {
    var taskLower := Lower(taskDescription);
    assert forall k :: 0 <= k < |taskLower| ==> IsSpace(taskLower[k]);
    WordsOfBlank(taskLower);
    assert TaskTokens(taskDescription) == [];
    assert !ContainsAny(Lower(steps[i].text), []);
  }

  /** The first step, having no predecessor, gets the continuity error exactly
      when it uses continuation wording and no reference phrase. */
  lemma {:induction false} FirstStepContinuity(steps: seq<Step>, tokens: seq<string>, constraints: seq<string>)
    requires |steps| > 0
    ensures ContinuityError in StepErrors(steps, 0, tokens, constraints) <==>
              ContainsAny(Lower(steps[0].text), ContinuationPhrases) &&
              !ContainsAny(Lower(steps[0].text), ReferencePhrases)
  {
    StepErrorsLayout(steps, 0, tokens, constraints);
  }
}
