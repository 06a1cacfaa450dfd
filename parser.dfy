/** The step parser (src/parser.py): one step per non-blank line of the
    transcript, numbered from 1, with a "Step ...:" prefix cut off. */
module Parser {
  import opened Text
  import opened Models

  /** The comprehension `[line.strip() for line in lines if line.strip()]`. */
  function NonBlankLines(lines: seq<string>): (r: seq<string>)
    ensures |r| <= |lines|
    ensures forall k :: 0 <= k < |r| ==> r[k] != []
    ensures forall k :: 0 <= k < |r| ==> !IsSpace(r[k][0]) && !IsSpace(r[k][|r[k]| - 1])
  {
    if lines == [] then []
    else
      var first := Strip(lines[0]);
      StripBlank(lines[0]);
      (if first != [] then [first] else []) + NonBlankLines(lines[1..])
  }

  /** The text of the step made from the stripped line `line`. */
  function StepText(line: string): (r: string)
    ensures |r| <= |line|
  {
    if Contains(Lower(line), "step") then
      var colon := IndexOf(line, ':');
      if colon < |line| then Strip(line[colon + 1..]) else line
    else
      line
  }

  /** `parse_reasoning`: the loop appends one step per non-blank line while
      counting the index up from 1. */
  method ParseReasoning(rawText: string) returns (steps: seq<Step>)
    ensures |steps| == |NonBlankLines(Lines(rawText))|
    ensures forall k :: 0 <= k < |steps| ==>
              steps[k] == Step(k + 1, StepText(NonBlankLines(Lines(rawText))[k]))
  {
    steps := [];
    var lines := NonBlankLines(Lines(rawText));
    var index := 1;
    for i := 0 to |lines|
      invariant index == i + 1
      invariant |steps| == i
      invariant forall k :: 0 <= k < i ==> steps[k] == Step(k + 1, StepText(lines[k]))
    {
      var line := lines[i];
      var lowered := Lower(line);
      var text;
      if Contains(lowered, "step") {
        var colon := IndexOf(line, ':');
        if colon < |line| {
          text := Strip(line[colon + 1..]);
        } else {
          text := line;
        }
      } else {
        text := line;
      }
      steps := steps + [Step(index, text)];
      index := index + 1;
    }
  }

  /** Whitespace-only (or empty) text yields no steps. */
  lemma {:induction false} WhitespaceOnlyHasNoSteps(rawText: string)
    requires forall k :: 0 <= k < |rawText| ==> IsSpace(rawText[k])
    ensures NonBlankLines(Lines(rawText)) == []
  {
    LinesOfBlank(rawText);
    AllBlank(Lines(rawText));
  }

  lemma {:induction false} AllBlank(lines: seq<string>)
    requires forall j, k :: 0 <= j < |lines| && 0 <= k < |lines[j]| ==> IsSpace(lines[j][k])
    ensures NonBlankLines(lines) == []
  {
    if lines != [] {
      StripBlank(lines[0]);
      AllBlank(lines[1..]);
    }
  }

  /** The comprehension keeps a line exactly when stripping leaves something:
      every kept line is an input line stripped, and every input line that
      stripping leaves non-empty is kept. */
  lemma {:induction false} NonBlankLinesKeeps(lines: seq<string>)
    ensures forall k :: 0 <= k < |NonBlankLines(lines)| ==>
              exists j :: 0 <= j < |lines| && NonBlankLines(lines)[k] == Strip(lines[j])
    ensures forall j :: 0 <= j < |lines| && Strip(lines[j]) != [] ==> Strip(lines[j]) in NonBlankLines(lines)
  {
    if lines != [] {
      var rest := NonBlankLines(lines[1..]);
      NonBlankLinesKeeps(lines[1..]);
      var first := Strip(lines[0]);
      var kept := if first != [] then [first] else [];
      assert NonBlankLines(lines) == kept + rest;
      forall k | 0 <= k < |NonBlankLines(lines)|
        ensures exists j :: 0 <= j < |lines| && NonBlankLines(lines)[k] == Strip(lines[j])
      {
        if k < |kept| {
          assert NonBlankLines(lines)[k] == Strip(lines[0]);
        } else {
          var j :| 0 <= j < |lines[1..]| && rest[k - |kept|] == Strip(lines[1..][j]);
          assert NonBlankLines(lines)[k] == Strip(lines[j + 1]);
        }
      }
      forall j | 0 <= j < |lines| && Strip(lines[j]) != []
        ensures Strip(lines[j]) in NonBlankLines(lines)
      {
        if j > 0 {
          assert lines[1..][j - 1] == lines[j];
        }
      }
    } else {
      assert NonBlankLines(lines) == [];
    }
  }

  /** The comprehension filters line by line: the kept lines of two lists
      one after the other are those of the first followed by those of the
      second. */
  lemma {:induction false} NonBlankLinesConcat(a: seq<string>, b: seq<string>)
    ensures NonBlankLines(a + b) == NonBlankLines(a) + NonBlankLines(b)
  {
    if a != [] {
      NonBlankLinesConcat(a[1..], b);
      assert (a + b)[0] == a[0];
      assert (a + b)[1..] == a[1..] + b;
      var first := Strip(a[0]);
      var kept := if first != [] then [first] else [];
      Associative(kept, NonBlankLines(a[1..]), NonBlankLines(b));
    } else {
      assert a + b == b;
    }
  }

  /** How `Lines` splits text that has a line break right after `a`, when
      `a` itself has none. */
  lemma {:induction false} LinesOfJoinedLine(a: string, b: string)
    requires IndexOf(a, '\n') == |a|
    ensures Lines(a + "\n" + b) == [a] + Lines(b)
  {
    var s := a + "\n" + b;
    FirstBreakOfJoined(a, b);
    assert s[..|a|] == a && s[|a| + 1..] == b;
  }

  /** How `Lines` splits `a` and `a + "\n" + b` when `a` has a line break:
      both start with the line before it. */
  lemma {:induction false} LinesOfJoinedBroken(a: string, b: string, na: nat)
    requires na == IndexOf(a, '\n') && na < |a|
    ensures Lines(a) == [a[..na]] + Lines(a[na + 1..])
    ensures Lines(a + "\n" + b) == [a[..na]] + Lines(a[na + 1..] + "\n" + b)
  {
    var s := a + "\n" + b;
    FirstBreakOfJoined(a, b);
    assert s[..na] == a[..na];
    assert s[na + 1..] == a[na + 1..] + "\n" + b;
  }

  /** The first line break of `a + "\n" + b` is the first of `a`, or the
      joining one when `a` has none. */
  lemma {:induction false} FirstBreakOfJoined(a: string, b: string)
    ensures IndexOf(a + "\n" + b, '\n') == IndexOf(a, '\n')
  {
    var s := a + "\n" + b;
    var na := IndexOf(a, '\n');
    assert forall k :: 0 <= k < |a| ==> s[k] == a[k];
    assert s[na] == '\n';
  }

  /** Lines are processed independently: the kept lines of two texts joined
      by a line break are the kept lines of the first followed by those of
      the second. */
  lemma {:induction false} JoinedTextLines(a: string, b: string)
    ensures NonBlankLines(Lines(a + "\n" + b)) == NonBlankLines(Lines(a)) + NonBlankLines(Lines(b))
    decreases |a|
  {
    var na := IndexOf(a, '\n');
    if na == |a| {
      JoinedSingleLine(a, b);
    } else {
      var head, tail := a[..na], a[na + 1..];
      LinesOfJoinedBroken(a, b, na);
      JoinedTextLines(tail, b);
      NonBlankLinesCons(head, Lines(a + "\n" + b), Lines(tail + "\n" + b), Lines(a), Lines(tail), Lines(b));
    }
  }

  /** The inductive step of `JoinedTextLines`, on lists of lines alone. */
  lemma {:induction false} NonBlankLinesCons(head: string, joined: seq<string>, joinedTail: seq<string>,
                                             lines: seq<string>, tailLines: seq<string>, bLines: seq<string>)
    requires joined == [head] + joinedTail && lines == [head] + tailLines
    requires NonBlankLines(joinedTail) == NonBlankLines(tailLines) + NonBlankLines(bLines)
    ensures NonBlankLines(joined) == NonBlankLines(lines) + NonBlankLines(bLines)
  {
    NonBlankLinesConcat([head], joinedTail);
    NonBlankLinesConcat([head], tailLines);
    Associative(NonBlankLines([head]), NonBlankLines(tailLines), NonBlankLines(bLines));
  }

  /** The base case of `JoinedTextLines`: `a` has no line break. */
  lemma {:induction false} JoinedSingleLine(a: string, b: string)
    requires IndexOf(a, '\n') == |a|
    ensures NonBlankLines(Lines(a + "\n" + b)) == NonBlankLines(Lines(a)) + NonBlankLines(Lines(b))
  {
    LinesOfJoinedLine(a, b);
    NonBlankLinesConcat([a], Lines(b));
    if a == [] {
      assert NonBlankLines([a]) == [] == NonBlankLines(Lines(a));
    } else {
      assert Lines(a) == [a];
    }
  }

  /** Regrouping a concatenation; stated apart so the solver sees it as one step. */
  lemma {:induction false} Associative(x: seq<string>, y: seq<string>, z: seq<string>)
    ensures x + (y + z) == (x + y) + z
  {
  }

  /** A line that mentions "step" and has a colon gives the stripped text
      after its first colon, which may be empty. */
  lemma {:induction false} StepTextAfterFirstColon(line: string, colon: nat)
    requires Contains(Lower(line), "step")
    requires colon < |line| && line[colon] == ':' && ':' !in line[..colon]
    ensures StepText(line) == Strip(line[colon + 1..])
  {
    assert forall k :: 0 <= k < colon ==> line[k] == line[..colon][k];
  }

  /** A line that mentions "step" but has no colon is kept whole. */
  lemma {:induction false} StepTextWithoutColon(line: string)
    requires ':' !in line
    ensures StepText(line) == line
  {
  }

  /** A line without "step" in any case is kept whole, so its text is not empty. */
  lemma {:induction false} StepTextWithoutMarker(lines: seq<string>, k: nat)
    requires k < |NonBlankLines(lines)|
    requires !Contains(Lower(NonBlankLines(lines)[k]), "step")
    ensures StepText(NonBlankLines(lines)[k]) == NonBlankLines(lines)[k] != []
  {
  }

  /** "Step 2:" with nothing after the colon gives an empty step text. */
  lemma {:induction false} EmptyStepText()
    ensures StepText("Step 2:") == ""
  {
    var line := "Step 2:";
    assert Lower(line)[..4] == "step";
    assert IsPrefix("step", Lower(line)[0..]);
    StepTextAfterFirstColon(line, 6);
  }
}
