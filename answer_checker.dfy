/** The final-answer extractor and checker (src/answer_checker.py). */
module AnswerChecker {
  import opened Text
  import opened Models

  /** The prefix, after stripping and lowercasing, that marks the answer line. */
  const AnswerMarker: string := "final answer:"

  /** The values an answer is compared as: `None`, booleans, integers,
      strings and lists of these, with structural equality on lists. */
  datatype Value =
    | NoneValue
    | BoolValue(b: bool)
    | IntValue(i: int)
    | StrValue(s: string)
    | ListValue(items: seq<Value>)

  /** The line `line.strip().lower().startswith("final answer:")` accepts. */
  predicate IsAnswerLine(line: string): (b: bool)
    ensures b ==> |Strip(line)| >= |AnswerMarker| && Strip(line)[|AnswerMarker| - 1] == ':'
  {
    var b := IsPrefix(AnswerMarker, Lower(Strip(line)));
    if b then LowerKeepsColons(Strip(line), 12); b else b
  }

  /** A lowercased colon is still a colon, and nothing else lowercases to one. */
  lemma {:induction false} LowerKeepsColons(s: string, k: nat)
    requires k < |s|
    ensures Lower(s)[k] == ':' <==> s[k] == ':'
  {
  }

  /** The answer an answer line carries: the stripped text after the first
      colon of the stripped line. */
  function AnswerOf(line: string): (r: string)
    requires IsAnswerLine(line)
    ensures |r| <= |Strip(line)| - |AnswerMarker|
  {
    var stripped := Strip(line);
    MarkerColonFirst(line);
    Strip(stripped[IndexOf(stripped, ':') + 1..])
  }

  /** "final answer" has no colon, so the first colon of an answer line is
      the one ending the marker and the answer is what follows the 13
      characters of the marker, stripped. */
  lemma {:induction false} AnswerFollowsMarker(line: string)
    requires IsAnswerLine(line)
    ensures AnswerOf(line) == Strip(Strip(line)[|AnswerMarker|..])
  {
    MarkerColonFirst(line);
  }

  /** The first colon of a stripped answer line is the one ending the marker. */
  lemma {:induction false} MarkerColonFirst(line: string)
    requires IsAnswerLine(line)
    ensures IndexOf(Strip(line), ':') == |AnswerMarker| - 1
  {
    var stripped := Strip(line);
    forall k | 0 <= k < 12
      ensures stripped[k] != ':'
    {
      assert Lower(stripped)[k] == AnswerMarker[k] != ':';
      LowerKeepsColons(stripped, k);
    }
    LowerKeepsColons(stripped, 12);
  }

  /** No line of `lines` is an answer line. */
  predicate NoAnswerLine(lines: seq<string>) {
    forall k :: 0 <= k < |lines| ==> !IsAnswerLine(lines[k])
  }

  /** The position of the first answer line, `|lines|` when there is none. */
  function FirstAnswerLine(lines: seq<string>): (k: nat)
    ensures k <= |lines|
    ensures forall j :: 0 <= j < k ==> !IsAnswerLine(lines[j])
    ensures k < |lines| ==> IsAnswerLine(lines[k])
  {
    if lines == [] || IsAnswerLine(lines[0]) then 0 else 1 + FirstAnswerLine(lines[1..])
  }

  /** The scan of `extract_final_answer` over a list of lines: it returns as
      soon as a line is an answer line, so the answer is that of the first
      answer line, and there is none exactly when no line is one. */
  function FirstAnswer(lines: seq<string>): (r: Option<string>)
    ensures var k := FirstAnswerLine(lines);
            r == if k == |lines| then None else Some(AnswerOf(lines[k]))
  {
    if lines == [] then None
    else if IsAnswerLine(lines[0]) then Some(AnswerOf(lines[0]))
    else
      assert lines[1..][FirstAnswerLine(lines[1..])..] == lines[FirstAnswerLine(lines)..];
      FirstAnswer(lines[1..])
  }

  /** `extract_final_answer`: the answer of the first answer line among the
      lines of the text, or none when no line is one. */
  function ExtractFinalAnswer(rawReasoning: string): (r: Option<string>)
    ensures r == None <==> NoAnswerLine(Lines(rawReasoning))
    ensures r.Some? ==> r.value == AnswerOf(Lines(rawReasoning)[FirstAnswerLine(Lines(rawReasoning))])
  {
    var lines := Lines(rawReasoning);
    var k := FirstAnswerLine(lines);
    assert k < |lines| ==> IsAnswerLine(lines[k]);
    FirstAnswer(lines)
  }

  /** Only the first answer line counts, whatever the lines after it say. */
  lemma {:induction false} FirstAnswerLineWins(before: seq<string>, line: string, after: seq<string>)
    requires forall k :: 0 <= k < |before| ==> !IsAnswerLine(before[k])
    requires IsAnswerLine(line)
    ensures FirstAnswer(before + [line] + after) == Some(AnswerOf(line))
  {
    var lines := before + [line] + after;
    if before == [] {
      assert lines[0] == line;
    } else {
      assert lines[0] == before[0];
      assert lines[1..] == before[1..] + [line] + after;
      FirstAnswerLineWins(before[1..], line, after);
    }
  }

  /** An answer line that is only the marker gives the empty answer, which is
      not the same as no answer. */
  lemma {:induction false} EmptyAnswer(line: string)
    requires IsAnswerLine(line) && |Strip(line)| == |AnswerMarker|
    ensures AnswerOf(line) == ""
  {
    AnswerFollowsMarker(line);
  }

  /** `parse_answer`: the literal the parser reads from the answer, the
      answer itself as a string when the parser rejects it, and none for no
      answer. `literalEval` stands for Python's `ast.literal_eval`, `None`
      meaning that it raised `ValueError` or `SyntaxError`. */
  function ParseAnswer(answer: Option<string>, literalEval: string -> Option<Value>): (v: Value)
    ensures answer == None ==> v == NoneValue
    ensures answer.Some? && literalEval(answer.value) == None ==> v == StrValue(answer.value)
    ensures answer.Some? && literalEval(answer.value).Some? ==> v == literalEval(answer.value).value
  {
    match answer
    case None => NoneValue
    case Some(s) =>
      match literalEval(s)
      case Some(literal) => literal
      case None => StrValue(s)
  }

  /** `check_final_answer`: false when there is no answer line, whatever is
      expected; otherwise whether the first answer line's answer, parsed,
      equals the expected value. */
  function CheckFinalAnswer(rawReasoning: string, expected: Value, literalEval: string -> Option<Value>): (ok: bool)
    ensures ExtractFinalAnswer(rawReasoning) == None ==> !ok
    ensures var lines := Lines(rawReasoning);
            var k := FirstAnswerLine(lines);
            ok <==> k < |lines| && ParseAnswer(Some(AnswerOf(lines[k])), literalEval) == expected
  {
    var answer := ExtractFinalAnswer(rawReasoning);
    if answer == None then false
    else ParseAnswer(answer, literalEval) == expected
  }
}
