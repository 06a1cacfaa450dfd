/** ASCII stand-ins for the Python string primitives the evaluator is built on:
    `str.lower`, `str.strip`, `str.split()`, `str.splitlines`, `str.isalpha`,
    the `in` substring test, `str.startswith`, and `<` on strings. */
module Text {

  /** The ASCII characters Python's `str.isspace` accepts: tab, line feed,
      vertical tab, form feed, carriage return, the four separators 0x1c-0x1f
      and the space. `strip()` and `split()` remove exactly these. */
  predicate IsSpace(c: char) {
    9 <= c as int <= 13 || 28 <= c as int <= 32
  }

  predicate IsAlphaChar(c: char) {
    'a' <= c <= 'z' || 'A' <= c <= 'Z'
  }

  /** `str.isalpha`: non-empty and made of letters only. */
  predicate IsAlpha(s: string) {
    |s| > 0 && forall k :: 0 <= k < |s| ==> IsAlphaChar(s[k])
  }

  function LowerChar(c: char): char {
    if 'A' <= c <= 'Z' then (c as int + 32) as char else c
  }

  /** `str.lower` on ASCII letters; every other character is kept. */
  function Lower(s: string): string {
    seq(|s|, k requires 0 <= k < |s| => LowerChar(s[k]))
  }

  /** `s.startswith(p)`. */
  predicate IsPrefix(p: string, s: string) {
    |p| <= |s| && s[..|p|] == p
  }

  /** Python's `sub in s`. */
  predicate Contains(s: string, sub: string) {
    exists i :: 0 <= i <= |s| && IsPrefix(sub, s[i..])
  }

  /** A substring of a substring is a substring. */
  lemma {:induction false} ContainsTransitive(s: string, mid: string, sub: string)
    requires Contains(s, mid) && Contains(mid, sub)
    ensures Contains(s, sub)
  {
    var i :| 0 <= i <= |s| && IsPrefix(mid, s[i..]);
    var j :| 0 <= j <= |mid| && IsPrefix(sub, mid[j..]);
    assert forall k :: 0 <= k < |sub| ==> s[i + j..][k] == mid[j..][k] == sub[k];
    assert IsPrefix(sub, s[i + j..]);
  }

  /** `str.lstrip()`. */
  function StripStart(s: string): (r: string)
    ensures |r| <= |s|
    ensures r != [] ==> !IsSpace(r[0])
  {
    if s != [] && IsSpace(s[0]) then StripStart(s[1..]) else s
  }

  /** `str.rstrip()`. */
  function StripEnd(s: string): (r: string)
    ensures |r| <= |s|
    ensures r != [] ==> !IsSpace(r[|r| - 1])
  {
    if s != [] && IsSpace(s[|s| - 1]) then StripEnd(s[..|s| - 1]) else s
  }

  /** `str.strip()`. */
  function Strip(s: string): string {
    StripEnd(StripStart(s))
  }

  /** `lstrip` removes everything exactly from whitespace-only text. */
  lemma {:induction false} StripStartBlank(s: string)
    ensures StripStart(s) == [] <==> forall k :: 0 <= k < |s| ==> IsSpace(s[k])
  {
    if s != [] && IsSpace(s[0]) {
      StripStartBlank(s[1..]);
      assert forall k :: 1 <= k < |s| ==> s[k] == s[1..][k - 1];
    }
  }

  /** `rstrip` leaves nothing exactly of whitespace-only text. */
  lemma {:induction false} StripEndBlank(s: string)
    ensures StripEnd(s) == [] <==> forall k :: 0 <= k < |s| ==> IsSpace(s[k])
  {
    if s != [] && IsSpace(s[|s| - 1]) {
      StripEndBlank(s[..|s| - 1]);
      assert forall k :: 0 <= k < |s| - 1 ==> s[k] == s[..|s| - 1][k];
    }
  }

  /** `strip()` leaves nothing exactly of whitespace-only text, and otherwise
      leaves text that neither starts nor ends with whitespace. */
  lemma {:induction false} StripBlank(s: string)
    ensures Strip(s) == [] <==> forall k :: 0 <= k < |s| ==> IsSpace(s[k])
    ensures Strip(s) != [] ==> !IsSpace(Strip(s)[0]) && !IsSpace(Strip(s)[|Strip(s)| - 1])
  {
    StripStartBlank(s);
    StripEndBlank(StripStart(s));
    if StripStart(s) != [] {
      StripEndKeepsStart(StripStart(s));
    }
  }

  /** `rstrip` keeps the first character of text that has a non-space. */
  lemma {:induction false} StripEndKeepsStart(s: string)
    requires s != [] && !IsSpace(s[0])
    ensures StripEnd(s) != [] && StripEnd(s)[0] == s[0]
  {
    if |s| > 1 && IsSpace(s[|s| - 1]) {
      StripEndKeepsStart(s[..|s| - 1]);
    }
  }

  /** Length of the run of non-whitespace characters at the start of `s`. */
  function TokenEnd(s: string): (n: nat)
    ensures n <= |s|
    ensures forall k :: 0 <= k < n ==> !IsSpace(s[k])
    ensures n < |s| ==> IsSpace(s[n])
  {
    if s != [] && !IsSpace(s[0]) then 1 + TokenEnd(s[1..]) else 0
  }

  /** `str.split()` with no separator: the maximal runs of non-whitespace. */
  function Words(s: string): (ws: seq<string>)
    ensures forall k :: 0 <= k < |ws| ==> ws[k] != []
    ensures forall k, i :: 0 <= k < |ws| && 0 <= i < |ws[k]| ==> !IsSpace(ws[k][i])
    decreases |s|
  {
    var rest := StripStart(s);
    if rest == [] then []
    else
      var n := TokenEnd(rest);
      [rest[..n]] + Words(rest[n..])
  }

  /** Whitespace-only text has no words. */
  lemma {:induction false} WordsOfBlank(s: string)
    requires forall k :: 0 <= k < |s| ==> IsSpace(s[k])
    ensures Words(s) == []
  {
    StripStartBlank(s);
  }

  /** Text made of whitespace only (the empty text included). */
  predicate AllSpace(s: string) {
    forall k :: 0 <= k < |s| ==> IsSpace(s[k])
  }

  /** Text with no whitespace in it. */
  predicate NoSpace(s: string) {
    forall k :: 0 <= k < |s| ==> !IsSpace(s[k])
  }

  /** `lstrip` removes leading whitespace and nothing more. */
  lemma {:induction false} StripStartOfSpaceThen(sp: string, s: string)
    requires AllSpace(sp)
    ensures StripStart(sp + s) == StripStart(s)
  {
    if sp == [] {
      assert sp + s == s;
    } else {
      assert (sp + s)[0] == sp[0];
      assert (sp + s)[1..] == sp[1..] + s;
      StripStartOfSpaceThen(sp[1..], s);
    }
  }

  /** `rstrip` removes trailing whitespace and nothing more. */
  lemma {:induction false} StripEndOfThenSpace(s: string, sp: string)
    requires AllSpace(sp)
    ensures StripEnd(s + sp) == StripEnd(s)
  {
    if sp == [] {
      assert s + sp == s;
    } else {
      var t := s + sp;
      assert t[|t| - 1] == sp[|sp| - 1];
      assert t[..|t| - 1] == s + sp[..|sp| - 1];
      StripEndOfThenSpace(s, sp[..|sp| - 1]);
    }
  }

  /** `strip()` of a text padded with whitespace on both sides gives back
      the text, when that text neither starts nor ends with whitespace. */
  lemma {:induction false} StripPadded(sp1: string, w: string, sp2: string)
    requires AllSpace(sp1) && AllSpace(sp2)
    requires w != [] && !IsSpace(w[0]) && !IsSpace(w[|w| - 1])
    ensures Strip(sp1 + w + sp2) == w
  {
    assert sp1 + w + sp2 == sp1 + (w + sp2);
    StripStartOfSpaceThen(sp1, w + sp2);
    assert (w + sp2)[0] == w[0];
    StripEndOfThenSpace(w, sp2);
  }

  /** The run of non-whitespace at the start of `w + t` is `w` when `t`
      does not continue it. */
  lemma {:induction false} TokenEndOfWord(w: string, t: string)
    requires NoSpace(w)
    requires t == [] || IsSpace(t[0])
    ensures TokenEnd(w + t) == |w|
  {
    if w == [] {
      assert w + t == t;
    } else {
      assert (w + t)[0] == w[0];
      assert (w + t)[1..] == w[1..] + t;
      TokenEndOfWord(w[1..], t);
    }
  }

  /** Leading whitespace does not change the words. */
  lemma {:induction false} WordsOfSpaceThen(sp: string, s: string)
    requires AllSpace(sp)
    ensures Words(sp + s) == Words(s)
  {
    StripStartOfSpaceThen(sp, s);
  }

  /** A word followed by whitespace is the first word, and the words of the
      rest follow it. */
  lemma {:induction false} WordsOfWordThen(w: string, sp: string, s: string)
    requires w != [] && NoSpace(w)
    requires sp != [] && AllSpace(sp)
    ensures Words(w + sp + s) == [w] + Words(s)
  {
    var t := w + sp + s;
    assert t[0] == w[0];
    assert t == w + (sp + s);
    TokenEndOfWord(w, sp + s);
    assert t[..|w|] == w && t[|w|..] == sp + s;
    WordsOfSpaceThen(sp, s);
  }

  /** A text that is one word has just that word. */
  lemma {:induction false} WordsOfWord(w: string)
    requires w != [] && NoSpace(w)
    ensures Words(w) == [w]
  {
    assert w + [] == w;
    TokenEndOfWord(w, []);
    assert w[|w|..] == [];
  }

  /** Position of the first `c` in `s`, or `|s|` when there is none. */
  function IndexOf(s: string, c: char): (n: nat)
    ensures n <= |s|
    ensures forall k :: 0 <= k < n ==> s[k] != c
    ensures n < |s| ==> s[n] == c
  {
    if s == [] || s[0] == c then 0 else 1 + IndexOf(s[1..], c)
  }

  /** `str.splitlines` for text whose only line break is '\n': a final
      '\n' ends the last line rather than starting an empty one, and the
      empty text has no lines. */
  function Lines(s: string): (ls: seq<string>)
    ensures forall k :: 0 <= k < |ls| ==> '\n' !in ls[k]
    decreases |s|
  {
    if s == [] then []
    else
      var n := IndexOf(s, '\n');
      if n == |s| then [s] else [s[..n]] + Lines(s[n + 1..])
  }

  /** Every line of a whitespace-only text is whitespace-only. */
  lemma {:induction false} LinesOfBlank(s: string)
    requires forall k :: 0 <= k < |s| ==> IsSpace(s[k])
    ensures forall j, k :: 0 <= j < |Lines(s)| && 0 <= k < |Lines(s)[j]| ==> IsSpace(Lines(s)[j][k])
    decreases |s|
  {
    if s != [] {
      var n := IndexOf(s, '\n');
      if n < |s| {
        LinesOfBlank(s[n + 1..]);
        assert Lines(s) == [s[..n]] + Lines(s[n + 1..]);
      }
    }
  }

  /** Python's `a < b` on strings: lexicographic by code point, a proper
      prefix coming first. */
  predicate Less(a: string, b: string) {
    if a == [] then b != []
    else if b == [] then false
    else a[0] < b[0] || (a[0] == b[0] && Less(a[1..], b[1..]))
  }

  lemma {:induction false} LessIrreflexive(a: string)
    ensures !Less(a, a)
  {
    if a != [] {
      LessIrreflexive(a[1..]);
    }
  }

  lemma {:induction false} LessAsymmetric(a: string, b: string)
    requires Less(a, b)
    ensures !Less(b, a)
  {
    if a != [] && b != [] && a[0] == b[0] {
      LessAsymmetric(a[1..], b[1..]);
    }
  }

  lemma {:induction false} LessTransitive(a: string, b: string, c: string)
    requires Less(a, b) && Less(b, c)
    ensures Less(a, c)
  {
    if a != [] && a[0] == b[0] && b[0] == c[0] {
      LessTransitive(a[1..], b[1..], c[1..]);
    }
  }

  lemma {:induction false} LessTotal(a: string, b: string)
    ensures a == b || Less(a, b) || Less(b, a)
  {
    if a != [] && b != [] && a[0] == b[0] {
      LessTotal(a[1..], b[1..]);
      if a[1..] == b[1..] {
        assert a == [a[0]] + a[1..] && b == [b[0]] + b[1..];
      }
    }
  }

  /** Strictly increasing, hence free of duplicates. */
  predicate StrictlySorted(s: seq<string>) {
    forall i, j :: 0 <= i < j < |s| ==> Less(s[i], s[j])
  }

  /** `m` is the least element of `s`. */
  predicate IsLeast(m: string, s: set<string>) {
    m in s && forall x :: x in s && x != m ==> Less(m, x)
  }

  /** Every non-empty finite set of strings has a least element. */
  lemma {:induction false} LeastExists(s: set<string>)
    requires s != {}
    ensures exists m :: IsLeast(m, s)
    decreases |s|
  {
    var y :| y in s;
    if s == {y} {
      assert IsLeast(y, s);
    } else {
      var rest := s - {y};
      LeastExists(rest);
      var m :| IsLeast(m, rest);
      LessTotal(m, y);
      if Less(y, m) {
        forall x | x in s && x != y
          ensures Less(y, x)
        {
          if x != m {
            assert x in rest;
            LessTransitive(y, m, x);
          }
        }
        assert IsLeast(y, s);
      } else {
        assert forall x :: x in s && x != m ==> x == y || x in rest;
        assert IsLeast(m, s);
      }
    }
  }

  lemma {:induction false} LessIsAsymmetric()
    ensures forall a, b :: Less(a, b) ==> !Less(b, a)
  {
    forall a, b | Less(a, b)
      ensures !Less(b, a)
    {
      LessAsymmetric(a, b);
    }
  }

  /** The least element of a non-empty set of strings. */
  function Least(s: set<string>): (m: string)
    requires s != {}
    ensures IsLeast(m, s)
  {
    LeastExists(s);
    LessIsAsymmetric();
    var m :| IsLeast(m, s);
    m
  }

  /** Python's `sorted(list(s))` for a set of strings. */
  function SortedElements(s: set<string>): (r: seq<string>)
    ensures StrictlySorted(r)
    ensures forall x :: x in r <==> x in s
    ensures |r| == |s|
    decreases |s|
  {
    if s == {} then []
    else
      var m := Least(s);
      var rest := SortedElements(s - {m});
      assert forall j :: 0 <= j < |rest| ==> Less(m, rest[j]) by {
        forall j | 0 <= j < |rest| ensures Less(m, rest[j]) {
          assert rest[j] in s - {m};
        }
      }
      [m] + rest
  }
}
