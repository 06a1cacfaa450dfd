/** The records handed from one stage of the evaluator to the next (src/models.py). */
module Models {

  datatype Option<+T> = None | Some(value: T)

  /** One reasoning step: its 1-based position among the non-blank lines of
      the transcript, and its text. */
  datatype Step = Step(index: int, text: string)

  /** A step with the rule evaluator's verdict; the evaluator makes `valid`
      true exactly when `errors` is empty. */
  datatype EvaluatedStep = EvaluatedStep(step: Step, valid: bool, errors: seq<string>)
}
