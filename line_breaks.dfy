/** What `Text.Lines` keeps of a text: every character, line breaks included. */
module LineBreaks {
  import opened Text

  /** The lines each followed by '\n', one after the other. */
  function JoinLines(ls: seq<string>): string {
    if ls == [] then [] else ls[0] + "\n" + JoinLines(ls[1..])
  }

  /** Ending every line with '\n' gives back the text, with a '\n' added
      when the text did not already end with one: no character is lost or
      moved. */
  lemma {:induction false} LinesRoundTrip(s: string)
    ensures JoinLines(Lines(s)) == if s == [] || s[|s| - 1] == '\n' then s else s + "\n"
    decreases |s|
  {
    if s != [] {
      var n := IndexOf(s, '\n');
      if n == |s| {
        assert Lines(s) == [s] + [];
        JoinLinesCons(s, []);
        assert s[|s| - 1] != '\n';
      } else {
        var t := s[n + 1..];
        assert Lines(s) == [s[..n]] + Lines(t);
        LinesRoundTrip(t);
        JoinLinesCons(s[..n], Lines(t));
        SplitAtBreak(s, n);
      }
    }
  }

  /** Cutting `s` at a line break at `n`: the text is the part before, the
      break and the part after, and it ends with '\n' exactly when the part
      after is empty or does. */
  lemma {:induction false} SplitAtBreak(s: string, n: nat)
    requires n < |s| && s[n] == '\n'
    ensures s == s[..n] + "\n" + s[n + 1..]
    ensures var t := s[n + 1..];
            (s[|s| - 1] == '\n') == (t == [] || t[|t| - 1] == '\n')
  {
    var t := s[n + 1..];
    if t != [] {
      assert t[|t| - 1] == s[|s| - 1];
    }
  }

  lemma {:induction false} JoinLinesCons(line: string, ls: seq<string>)
    ensures JoinLines([line] + ls) == line + "\n" + JoinLines(ls)
  {
    assert ([line] + ls)[0] == line && ([line] + ls)[1..] == ls;
  }
}
