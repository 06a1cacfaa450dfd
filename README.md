# Reasoning-transcript evaluator, modelled in Dafny

The evaluator grades a free-text reasoning transcript in five steps:

- `parse_reasoning` turns each non-blank line into a numbered step. When the line's lowercase form contains "step" anywhere, the text is what follows its first colon, stripped, so "A stepwise plan: x" gives "x"; such a line without a colon is kept whole.
- `evaluate_steps` runs three substring rules on every step and keeps every error they find:
  - relevance to the task;
  - constraint mentions;
  - continuity with the previous step.
- `extract_final_answer` and `check_final_answer` find the first "Final Answer:" line and compare its literal with the expected value.
- `aggregate_failures` lists the invalid steps, the distinct errors in sorted order, and one status label.
- `compute_scores` computes:
  - the percentage of valid steps;
  - a correctness score of 100 or 0;
  - a weighted overall score.

One Dafny module models each source file:

| file | module | form |
|---|---|---|
| `parser.dfy` | `Parser` | a method with the source's loop, proved against the function of the lines |
| `rule_evaluator.dfy` | `RuleEvaluator` | the rules as functions; the per-step loop and the outer loop as methods |
| `answer_checker.dfy` | `AnswerChecker` | recursive first-match scan and pure functions |
| `aggregator.dfy` | `Aggregator` | a method with the source's loop, proved against functions of the steps; the status chain as a function |
| `scorer.dfy` | `Scorer` | functions over `real` |

`models.dfy` holds the records `Step` and `EvaluatedStep`. `text.dfy` holds ASCII versions of the Python string operations the code uses:

- `lower`, `strip` and `split()`;
- `splitlines`;
- `isalpha`;
- substring `in` and `startswith`;
- `<` on strings, for `sorted`.

`line_breaks.dfy` (`LineBreaks`) shows that `Text.Lines` loses no character of the text.

With zero steps and a correct answer the status is "all_valid": the first test (`invalid_count == 0 and final_answer_correct`, src/aggregator.py:35) comes before the `invalid_count == total_steps` test (src/aggregator.py:37). With zero steps the status is "all_invalid" only when the answer is wrong. `Aggregator.StatusOf` and `Aggregator.NoStepsStatus` state this.

## Model

| member | source | states |
|---|---|---|
| Parser.NonBlankLines | src/parser.py:15 | No kept line is empty or has whitespace at either end; there are at most as many as input lines |
| Parser.NonBlankLinesKeeps | src/parser.py:15 | Every kept line is an input line stripped, and every input line that stripping leaves non-empty is kept |
| Parser.NonBlankLinesConcat | src/parser.py:15 | The line filter works line by line: filtering a concatenation gives the concatenation of the filtered parts |
| Parser.StepText | src/parser.py:20-29 | The step text of a kept line is never longer than the line. Its cases are pinned down by `StepTextAfterFirstColon`, `StepTextWithoutColon` and `StepTextWithoutMarker` |
| Parser.ParseReasoning | src/parser.py:5-34 | One step per non-blank line, in line order. Step k has index k+1 (indices 1..n with no gaps) and the text computed from its own stripped line |
| Parser.WhitespaceOnlyHasNoSteps | src/parser.py:15 | Empty or whitespace-only text has no non-blank line, so it yields no steps |
| Parser.JoinedTextLines | src/parser.py:15-32 | Lines are handled independently: the lines kept from two texts joined by a line break are those of the first followed by those of the second |
| Parser.StepTextAfterFirstColon | src/parser.py:21-25 | A line containing "step" (any case) with a colon gives the stripped text after its FIRST colon |
| Parser.StepTextWithoutColon | src/parser.py:23-27 | A line with no colon is kept whole |
| Parser.StepTextWithoutMarker | src/parser.py:28-29 | A kept line without "step" in any case is its own text, so that text is not empty |
| Parser.EmptyStepText | src/parser.py:21-25 | "Step 2:" gives the empty step text |
| RuleEvaluator.KeyTerms | src/rule_evaluator.py:57-60 | The key terms are exactly the previous step's words that are alphabetic and longer than 3 characters |
| RuleEvaluator.CheckContinuity | src/rule_evaluator.py:37-68 | The continuity error is the exact message, and it is absent in three cases: no continuation phrase; any reference phrase; a previous-step key term in the text. Otherwise it is reported, for a first step (no previous step) and for a later one alike |
| RuleEvaluator.TaskTokens | src/rule_evaluator.py:96 | At most the first three tokens of the lowercased task are checked |
| RuleEvaluator.RelevanceErrors | src/rule_evaluator.py:95-98 | Either no error or exactly the relevance error, and none iff some task token occurs in the lowercased text |
| RuleEvaluator.ConstraintErrors | src/rule_evaluator.py:100-103 | At most one error per constraint. Order and wording are pinned down by `ConstraintErrorsConcat` and `OneConstraintErrors` |
| RuleEvaluator.StepErrors | src/rule_evaluator.py:95-109 | At most two errors besides one per constraint. The layout is pinned down by `StepErrorsLayout` |
| RuleEvaluator.Verdict | src/rule_evaluator.py:111-117 | The verdict carries the step unchanged, and `valid` holds iff `errors` is empty |
| RuleEvaluator.EvaluateStep | src/rule_evaluator.py:92-117 | The loop body appends the relevance, constraint and continuity errors in that order and builds the step's verdict |
| RuleEvaluator.EvaluateSteps | src/rule_evaluator.py:71-119 | Exactly one verdict per input step, in order. Each is that step's verdict under the task's first three tokens and the constraint list, a missing list counting as empty |
| RuleEvaluator.NowINeverBreaksContinuity | src/rule_evaluator.py:6-34 | A step containing "now i" never gets the continuity error, because "now" is a reference phrase |
| RuleEvaluator.ConstraintErrorsAreDistinct | src/rule_evaluator.py:100-103 | Every constraint error names a constraint whose lowercase form occurs in the text. No constraint error has the wording of the relevance or continuity error |
| RuleEvaluator.ConstraintErrorsConcat | src/rule_evaluator.py:101-103 | Constraints are checked in list order: the errors of a concatenated list are the errors of each part, in order |
| RuleEvaluator.OneConstraintErrors | src/rule_evaluator.py:102-103 | One constraint gives exactly one error, with the exact message, when its lowercase form occurs in the text, and none otherwise |
| RuleEvaluator.MatchingConstraintReported | src/rule_evaluator.py:101-103 | Every constraint occurring in the text has its error reported |
| RuleEvaluator.EmptyConstraintFlagsEveryStep | src/rule_evaluator.py:101-103 | The empty constraint occurs in every text and flags every step |
| RuleEvaluator.StepErrorsLayout | src/rule_evaluator.py:95-109 | The relevance error is present iff no task token occurs; it comes first and at most once. The continuity error is present iff `check_continuity` reports it; it comes last and at most once |
| RuleEvaluator.BlankTaskFlagsEveryStep | src/rule_evaluator.py:96-98 | A blank task description flags every step as irrelevant, as its first error |
| RuleEvaluator.FirstStepContinuity | src/rule_evaluator.py:106-107 | The first step has no previous step. It gets the continuity error iff it has a continuation phrase and no reference phrase |
| AnswerChecker.IsAnswerLine | src/answer_checker.py:13-14 | An answer line, once stripped, is at least as long as the 13-character marker and has a colon where the marker ends |
| AnswerChecker.AnswerOf | src/answer_checker.py:15 | The answer is no longer than what follows the marker in the stripped line. `AnswerFollowsMarker` says it is exactly that text, stripped |
| AnswerChecker.MarkerColonFirst | src/answer_checker.py:15 | The first colon of a stripped answer line is the one ending the marker, so `split(":", 1)` splits there |
| AnswerChecker.AnswerFollowsMarker | src/answer_checker.py:13-15 | "final answer" has no colon, so the answer is the stripped text after the 13-character marker of the stripped line |
| AnswerChecker.EmptyAnswer | src/answer_checker.py:15 | A line that is only the marker gives the empty answer, which is not "no answer" |
| AnswerChecker.FirstAnswerLine | src/answer_checker.py:11-17 | The position of the first answer line: no earlier line is one, and the line there is one (or there is none) |
| AnswerChecker.FirstAnswer | src/answer_checker.py:11-17 | The early-return scan gives the answer of the first answer line, and none exactly when there is no answer line |
| AnswerChecker.ExtractFinalAnswer | src/answer_checker.py:6-17 | None iff no line, stripped and lowercased, starts with "final answer:". Otherwise the answer of the first such line |
| AnswerChecker.FirstAnswerLineWins | src/answer_checker.py:11-16 | The first answer line decides, whatever later lines say |
| AnswerChecker.ParseAnswer | src/answer_checker.py:20-33 | No answer gives none. A literal the parser accepts gives its value. A rejected one gives the answer string unchanged |
| AnswerChecker.CheckFinalAnswer | src/answer_checker.py:36-55 | False whenever nothing is extracted. True iff there is an answer line and the parsed first answer equals the expected value |
| Aggregator.StatusOf | src/aggregator.py:35-44 | The status precedence as four iffs. "all_valid" iff no invalid step and a correct answer; "all_invalid" iff invalid == total otherwise; "some_invalid" iff 0 < invalid != total; "incorrect_answer" iff no invalid step, some steps, wrong answer. So the final `else` is unreachable |
| Aggregator.NoStepsStatus | src/aggregator.py:35-38 | With zero steps: "all_valid" if the answer is correct, "all_invalid" otherwise |
| Aggregator.EveryStepInvalidStatus | src/aggregator.py:35-38 | With n > 0 steps all invalid: "all_invalid" whatever the answer |
| Aggregator.InvalidIndices | src/aggregator.py:25-27 | The collected indices are exactly those of invalid steps. The list is empty iff every step is valid, and has one entry per step iff every step is invalid |
| Aggregator.InvalidIndicesConcat | src/aggregator.py:25-27 | The indices of two runs of steps one after the other are those of the first followed by those of the second, so input order is kept whatever the step numbers are |
| Aggregator.ReportedErrors | src/aggregator.py:26-29 | An error is collected iff it appears on an invalid step |
| Aggregator.AddErrors | src/aggregator.py:28-29 | Adding a step's errors one by one leaves the old errors and exactly these |
| Aggregator.CollectFailures | src/aggregator.py:22-29 | The loop collects exactly the invalid steps' indices in input order (`InvalidIndices`) and exactly the errors on invalid steps (`ReportedErrors`) |
| Aggregator.AggregateFailures | src/aggregator.py:5-53 | The summary holds: the invalid steps' indices in input order; a strictly sorted, duplicate-free list of exactly the errors on invalid steps; the count of invalid steps; the number of steps; the status of those counts; the answer flag echoed |
| Aggregator.InvalidIndicesOfNumberedSteps | src/aggregator.py:25-27 | For steps numbered 1..n, the invalid indices are strictly increasing and each names an invalid step |
| Aggregator.InvalidStepListed | src/aggregator.py:26-27 | For steps numbered 1..n, every invalid step's number is listed |
| Text.SortedElements | src/aggregator.py:48 | `sorted(list(error_set))`: strictly increasing, with exactly the set's elements, one each |
| Text.Words | src/rule_evaluator.py:58 | `split()` gives non-empty words with no whitespace in them |
| Text.WordsOfSpaceThen | src/rule_evaluator.py:96 | Leading whitespace does not change the words of `split()` |
| Text.WordsOfWordThen | src/rule_evaluator.py:58 | A run of non-whitespace followed by whitespace is the first word, followed by the words of the rest |
| Text.WordsOfWord | src/rule_evaluator.py:58 | A non-empty text with no whitespace is one word. With `WordsOfBlank` and the two lemmas above, this fixes `split()` on every text: the words are the runs of non-whitespace, in order |
| Text.StripPadded | src/parser.py:15 | `strip()` of a text padded with whitespace on both sides gives back that text when it neither starts nor ends with whitespace: exactly the edge whitespace is removed |
| LineBreaks.LinesRoundTrip | src/parser.py:15 | Ending each line of `splitlines` with '\n' gives back the text, plus a '\n' when it did not end with one |
| Scorer.CountValid | src/scorer.py:18 | The number of valid steps: at most the total, equal to it iff all are valid, 0 iff none is |
| Scorer.ScoresOf | src/scorer.py:14-22 | Reasoning is 0 with no steps and otherwise satisfies reasoning × total = 100 × valid. It lies in [0, 100], is 100 iff all of at least one step are valid, and is 0 iff none is valid. Correctness is 100 iff the answer is correct and 0 iff not. Overall = rw × reasoning + cw × correctness |
| Scorer.ReasoningBounds | src/scorer.py:18-19 | The valid-step percentage lies in [0, 100]. It is 100 exactly when all steps are valid and 0 exactly when none is |
| Scorer.ComputeScores | src/scorer.py:5-24 | The scores are those of the valid count, the step count and the answer flag, so errors and order play no part. Reasoning is 100 iff there are steps and all are valid, and 0 iff none is valid |
| Scorer.OverallIsPercentage | src/scorer.py:22 | With non-negative weights summing to 1, the overall score lies in [0, 100] |
| Scorer.DefaultWeightExtremes | src/scorer.py:8-22 | With weights 0.7/0.3: non-empty, all valid and correct gives 100; zero steps and correct gives 30 |
| Scorer.ScoresAgreeWithSummary | src/scorer.py:18 | The steps the scorer counts as valid and the steps the summary lists as invalid make up all the steps |

## Left out

- `src/main.py`, `src/formatter.py` and `src/logger.py` are not part of this model:
  - command-line dispatch, task files, JSON loading and printing;
  - score formatting;
  - log files and timestamps.
- `EvaluationResult` (src/models.py:18-26) is not modelled. It only carries results to that glue code.
- `ast.literal_eval` is Python's own parser. It is the parameter `literalEval` of `AnswerChecker.ParseAnswer`: it returns `None` where the source catches `ValueError` or `SyntaxError`. Other exceptions it could raise are not modelled.
- Answer values are a small datatype, `AnswerChecker.Value`: `None`, booleans, integers, strings and lists of these, compared structurally. The other kinds `ast.literal_eval` can return are not modelled: floats ("2.5"), complex numbers, bytes, tuples ("(1, 2)"), dictionaries ("{}") and sets. Python's cross-type equality (`1 == True == 1.0`) is not modelled either.
- Scores are `real`, so float rounding is not modelled.
- Strings are handled as ASCII:
  - `lower` maps A–Z only;
  - `strip`/`split` use ASCII whitespace (tab, line feed, vertical tab, form feed, carriage return, 0x1c–0x1f, space);
  - `isalpha` accepts ASCII letters only.
  
  Unicode case mapping and whitespace are not modelled.
- `Text.Lines` breaks lines at '\n' only. It drops the empty line after a final '\n', as `splitlines` does. The other breaks `splitlines` recognises ('\r', '\r\n', '\x0b', …) are not modelled as line breaks.
- `RuleEvaluator.TaskTokens`: only the bound of three tokens is stated. That they are the first three words of the lowercased task is its definition.
- `if previous_step:` (src/rule_evaluator.py:55) is modelled as "there is a previous step". A dataclass instance is always truthy.
- `RuleEvaluator.EvaluateStep`: the body of the loop in `evaluate_steps` is a method of its own, called from the loop in `RuleEvaluator.EvaluateSteps`. Likewise the loop of `aggregate_failures` is `Aggregator.CollectFailures`, called from `Aggregator.AggregateFailures`, and its inner loop is `Aggregator.AddErrors`.
