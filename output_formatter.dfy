/**
 * `OutputFormatter`: the normaliser that decides whether an answer matches,
 * the rendering of solution results, and the display helpers around a
 * failed comparison.
 */
module OutputFormatter {
  import opened Wrappers
  import JavaString
  import opened JavaValue
  import TreeCodec

  // ============================================================
  // normalizeOutput
  // ============================================================

  /** The number of regex spaces (`\s`) at the start of `s`. */
  function SpaceRun(s: string): (k: nat)
    ensures k <= |s|
    ensures forall j :: 0 <= j < k ==> JavaString.IsRegexSpace(s[j])
    ensures k < |s| ==> !JavaString.IsRegexSpace(s[k])
  {
    if s != [] && JavaString.IsRegexSpace(s[0]) then 1 + SpaceRun(s[1..]) else 0
  }

  /**
   * `replaceAll("\\[\\s+", "[")` with `o` for the bracket: each `o`, with
   * the run of spaces after it removed, scanning left to right.
   */
  function AfterOpen(s: string, o: char): (r: string)
    ensures |r| <= |s|
    ensures s != [] ==> r != [] && r[0] == s[0]
    decreases |s|
  {
    if s == [] then []
    else if s[0] == o then
      var k := SpaceRun(s[1..]);
      [o] + AfterOpen(s[1 + k..], o)
    else [s[0]] + AfterOpen(s[1..], o)
  }

  /**
   * `replaceAll("\\s+\\]", "]")` with `c` for the bracket: a run of spaces
   * directly before `c` is removed; any other run is kept.
   */
  function BeforeClose(s: string, c: char): (r: string)
    ensures |r| <= |s|
    ensures s != [] && !JavaString.IsRegexSpace(s[0]) ==> r != [] && r[0] == s[0]
    decreases |s|
  {
    if s == [] then []
    else if JavaString.IsRegexSpace(s[0]) then
      var k := SpaceRun(s);
      if k < |s| && s[k] == c then [c] + BeforeClose(s[k + 1..], c)
      else s[..k] + BeforeClose(s[k..], c)
    else [s[0]] + BeforeClose(s[1..], c)
  }

  /** `w` occurs at `i` as a whole word: `\b` on both sides. */
  predicate WholeWordAt(s: string, w: string, i: nat)
  {
    JavaString.OccursAt(s, w, i)
    && (i == 0 || !JavaString.IsWordChar(s[i - 1]))
    && (i + |w| == |s| || !JavaString.IsWordChar(s[i + |w|]))
  }

  /** `s[i..].replaceAll("\\b" + w + "\\b", rep)`, word boundaries judged on the whole of `s`. */
  function ReplaceWord(s: string, w: string, rep: string, i: nat): (r: string)
    requires i <= |s|
    decreases |s| - i
  {
    if i == |s| then []
    else if |w| > 0 && WholeWordAt(s, w, i) then rep + ReplaceWord(s, w, rep, i + |w|)
    else [s[i]] + ReplaceWord(s, w, rep, i + 1)
  }

  /** `normalizeOutput`: trim, tighten commas and brackets, lower-case `True`/`False`. */
  function Normalize(output: Option<string>): string
  {
    match output
    case None => "null"
    case Some(s) =>
      LowerWords(Tighten(JavaString.ReplaceAll(JavaString.Trim(s), ", ", ",")))
  }

  /** The bracket passes in their source order: `[`, `]`, `(`, `)`. */
  function Tighten(s: string): string
  {
    BeforeClose(AfterOpen(BeforeClose(AfterOpen(s, '['), ']'), '('), ')')
  }

  /** The boolean passes in their source order. */
  function LowerWords(s: string): string
  {
    ReplaceWord(ReplaceWord(s, "True", "true", 0), "False", "false", 0)
  }

  /** `validateResult`: the two outputs agree once normalised. */
  predicate ValidateResult(expected: Option<string>, actual: Option<string>)
  {
    Normalize(expected) == Normalize(actual)
  }

  // ------------------------------------------------ what the normaliser achieves

  /** No whitespace directly after an opening `o`. */
  predicate NoSpaceAfter(s: string, o: char)
  {
    forall i :: 0 <= i < |s| - 1 && s[i] == o ==> !JavaString.IsRegexSpace(s[i + 1])
  }

  /** No whitespace directly before a closing `c`. */
  predicate NoSpaceBefore(s: string, c: char)
  {
    forall i :: 0 < i < |s| && s[i] == c ==> !JavaString.IsRegexSpace(s[i - 1])
  }

  /** `w` nowhere occurs as a whole word. */
  predicate NoWord(s: string, w: string)
  {
    forall j :: 0 <= j <= |s| ==> !WholeWordAt(s, w, j)
  }

  lemma {:induction false} NoSpaceAfterAppend(a: string, b: string, o: char)
    requires NoSpaceAfter(a, o) && NoSpaceAfter(b, o)
    requires a != [] && b != [] && a[|a| - 1] == o ==> !JavaString.IsRegexSpace(b[0])
    ensures NoSpaceAfter(a + b, o)
  {
    var s := a + b;
    forall i | 0 <= i < |s| - 1 && s[i] == o
      ensures !JavaString.IsRegexSpace(s[i + 1])
    {
      if i >= |a| {
        assert s[i] == b[i - |a|] && s[i + 1] == b[i - |a| + 1];
      } else if i + 1 < |a| {
        assert s[i + 1] == a[i + 1];
      }
    }
  }

  lemma {:induction false} NoSpaceBeforeAppend(a: string, b: string, c: char)
    requires NoSpaceBefore(a, c) && NoSpaceBefore(b, c)
    requires a != [] && b != [] && b[0] == c ==> !JavaString.IsRegexSpace(a[|a| - 1])
    ensures NoSpaceBefore(a + b, c)
  {
    var s := a + b;
    forall i | 0 < i < |s| && s[i] == c
      ensures !JavaString.IsRegexSpace(s[i - 1])
    {
      if i > |a| {
        assert s[i] == b[i - |a|] && s[i - 1] == b[i - |a| - 1];
      } else if i < |a| {
        assert s[i] == a[i] && s[i - 1] == a[i - 1];
      }
    }
  }

  lemma {:induction false} NoSpaceAfterSuffix(s: string, o: char, j: nat)
    requires j <= |s| && NoSpaceAfter(s, o)
    ensures NoSpaceAfter(s[j..], o)
  {
    var t := s[j..];
    forall i | 0 <= i < |t| - 1 && t[i] == o
      ensures !JavaString.IsRegexSpace(t[i + 1])
    {
      assert t[i] == s[j + i] && t[i + 1] == s[j + i + 1];
    }
  }

  lemma {:induction false} NoSpaceBeforeSuffix(s: string, c: char, j: nat)
    requires j <= |s| && NoSpaceBefore(s, c)
    ensures NoSpaceBefore(s[j..], c)
  {
    var t := s[j..];
    forall i | 0 < i < |t| && t[i] == c
      ensures !JavaString.IsRegexSpace(t[i - 1])
    {
      assert t[i] == s[j + i] && t[i - 1] == s[j + i - 1];
    }
  }

  /** A run of spaces has no bracket in it, so it breaks neither rule. */
  lemma {:induction false} SpacesOnly(s: string, k: nat, o: char, c: char)
    requires k <= |s| && forall j :: 0 <= j < k ==> JavaString.IsRegexSpace(s[j])
    requires !JavaString.IsRegexSpace(o) && !JavaString.IsRegexSpace(c)
    ensures NoSpaceAfter(s[..k], o) && NoSpaceBefore(s[..k], c)
  {
    var t := s[..k];
    assert forall i :: 0 <= i < |t| ==> t[i] == s[i];
  }

  /** After `\[\s+` is replaced, no `[` is followed by whitespace. */
  lemma {:induction false} AfterOpenTight(s: string, o: char)
    requires !JavaString.IsRegexSpace(o)
    ensures NoSpaceAfter(AfterOpen(s, o), o)
    decreases |s|
  {
    if s != [] {
      if s[0] == o {
        var k := SpaceRun(s[1..]);
        var rest := s[1 + k..];
        AfterOpenTight(rest, o);
        assert rest != [] ==> rest[0] == s[1..][k];
        NoSpaceAfterAppend([o], AfterOpen(rest, o), o);
      } else {
        AfterOpenTight(s[1..], o);
        NoSpaceAfterAppend([s[0]], AfterOpen(s[1..], o), o);
      }
    }
  }

  /** Removing spaces after one bracket never puts a space after another. */
  lemma {:induction false} AfterOpenKeepsAfter(s: string, o: char, o2: char)
    requires !JavaString.IsRegexSpace(o) && NoSpaceAfter(s, o2)
    ensures NoSpaceAfter(AfterOpen(s, o), o2)
    decreases |s|
  {
    if s != [] {
      if s[0] == o {
        var k := SpaceRun(s[1..]);
        var rest := s[1 + k..];
        NoSpaceAfterSuffix(s, o2, 1 + k);
        AfterOpenKeepsAfter(rest, o, o2);
        assert rest != [] ==> rest[0] == s[1..][k];
        NoSpaceAfterAppend([o], AfterOpen(rest, o), o2);
      } else {
        NoSpaceAfterSuffix(s, o2, 1);
        AfterOpenKeepsAfter(s[1..], o, o2);
        NoSpaceAfterAppend([s[0]], AfterOpen(s[1..], o), o2);
      }
    }
  }

  /** Removing spaces after an opening bracket never puts a space before a closing one. */
  lemma {:induction false} AfterOpenKeepsBefore(s: string, o: char, c: char)
    requires !JavaString.IsRegexSpace(o) && NoSpaceBefore(s, c)
    ensures NoSpaceBefore(AfterOpen(s, o), c)
    decreases |s|
  {
    if s != [] {
      if s[0] == o {
        var k := SpaceRun(s[1..]);
        NoSpaceBeforeSuffix(s, c, 1 + k);
        AfterOpenKeepsBefore(s[1 + k..], o, c);
        NoSpaceBeforeAppend([o], AfterOpen(s[1 + k..], o), c);
      } else {
        NoSpaceBeforeSuffix(s, c, 1);
        AfterOpenKeepsBefore(s[1..], o, c);
        NoSpaceBeforeAppend([s[0]], AfterOpen(s[1..], o), c);
      }
    }
  }

  /** After `\s+\]` is replaced, no `]` is preceded by whitespace. */
  lemma {:induction false} BeforeCloseTight(s: string, c: char)
    requires !JavaString.IsRegexSpace(c)
    ensures NoSpaceBefore(BeforeClose(s, c), c)
    decreases |s|
  {
    if s != [] {
      if JavaString.IsRegexSpace(s[0]) {
        var k := SpaceRun(s);
        if k < |s| && s[k] == c {
          BeforeCloseTight(s[k + 1..], c);
          NoSpaceBeforeAppend([c], BeforeClose(s[k + 1..], c), c);
        } else {
          BeforeCloseTight(s[k..], c);
          SpacesOnly(s, k, c, c);
          NoSpaceBeforeAppend(s[..k], BeforeClose(s[k..], c), c);
        }
      } else {
        BeforeCloseTight(s[1..], c);
        NoSpaceBeforeAppend([s[0]], BeforeClose(s[1..], c), c);
      }
    }
  }

  /** Removing spaces before a closing bracket never puts a space after an opening one. */
  lemma {:induction false} BeforeCloseKeepsAfter(s: string, c: char, o: char)
    requires !JavaString.IsRegexSpace(o) && !JavaString.IsRegexSpace(c) && c != o
    requires NoSpaceAfter(s, o)
    ensures NoSpaceAfter(BeforeClose(s, c), o)
    decreases |s|
  {
    if s != [] {
      if JavaString.IsRegexSpace(s[0]) {
        var k := SpaceRun(s);
        if k < |s| && s[k] == c {
          NoSpaceAfterSuffix(s, o, k + 1);
          BeforeCloseKeepsAfter(s[k + 1..], c, o);
          NoSpaceAfterAppend([c], BeforeClose(s[k + 1..], c), o);
        } else {
          NoSpaceAfterSuffix(s, o, k);
          BeforeCloseKeepsAfter(s[k..], c, o);
          SpacesOnly(s, k, o, c);
          NoSpaceAfterAppend(s[..k], BeforeClose(s[k..], c), o);
        }
      } else {
        NoSpaceAfterSuffix(s, o, 1);
        BeforeCloseKeepsAfter(s[1..], c, o);
        NoSpaceAfterAppend([s[0]], BeforeClose(s[1..], c), o);
      }
    }
  }

  /** Removing spaces before one closing bracket never puts a space before another. */
  lemma {:induction false} BeforeCloseKeepsBefore(s: string, c: char, c2: char)
    requires !JavaString.IsRegexSpace(c) && !JavaString.IsRegexSpace(c2)
    requires NoSpaceBefore(s, c2)
    ensures NoSpaceBefore(BeforeClose(s, c), c2)
    decreases |s|
  {
    if s != [] {
      if JavaString.IsRegexSpace(s[0]) {
        var k := SpaceRun(s);
        if k < |s| && s[k] == c {
          NoSpaceBeforeSuffix(s, c2, k + 1);
          BeforeCloseKeepsBefore(s[k + 1..], c, c2);
          NoSpaceBeforeAppend([c], BeforeClose(s[k + 1..], c), c2);
        } else {
          NoSpaceBeforeSuffix(s, c2, k);
          BeforeCloseKeepsBefore(s[k..], c, c2);
          SpacesOnly(s, k, c2, c2);
          NoSpaceBeforeAppend(s[..k], BeforeClose(s[k..], c), c2);
        }
      } else {
        NoSpaceBeforeSuffix(s, c2, 1);
        BeforeCloseKeepsBefore(s[1..], c, c2);
        NoSpaceBeforeAppend([s[0]], BeforeClose(s[1..], c), c2);
      }
    }
  }

  /** The word pass's premise: a word-character word whose replacement differs only in its first letter. */
  predicate WordSwap(w: string, rep: string)
  {
    |w| > 0 && |rep| == |w| && rep[1..] == w[1..]
    && JavaString.IsWordChar(rep[0])
    && forall m :: 0 <= m < |w| ==> JavaString.IsWordChar(w[m])
  }

  /** The character the word pass leaves at `j`. */
  function WordOut(s: string, w: string, rep: string, j: nat): char
    requires j < |s| && |rep| > 0
  {
    if WholeWordAt(s, w, j) then rep[0] else s[j]
  }

  /** Inside a whole word there is no word boundary, so no second match starts there. */
  lemma {:induction false} InsideWord(s: string, w: string, rep: string, i: nat, j: nat)
    requires WordSwap(w, rep) && WholeWordAt(s, w, i) && i < j < i + |w|
    ensures !WholeWordAt(s, w, j) && s[j] == rep[j - i]
  {
    assert s[i..i + |w|][j - i] == w[j - i];
    assert s[i..i + |w|][j - 1 - i] == w[j - 1 - i];
    assert rep[j - i] == rep[1..][j - i - 1] == w[1..][j - i - 1];
  }

  lemma {:induction false} MatchStep(s: string, w: string, rep: string, i: nat, tail: string)
    requires WordSwap(w, rep) && WholeWordAt(s, w, i)
    requires |tail| == |s| - (i + |w|)
    requires forall j :: i + |w| <= j < |s| ==> tail[j - (i + |w|)] == WordOut(s, w, rep, j)
    ensures forall j :: i <= j < |s| ==> (rep + tail)[j - i] == WordOut(s, w, rep, j)
  {
    forall j | i <= j < |s|
      ensures (rep + tail)[j - i] == WordOut(s, w, rep, j)
    {
      if j >= i + |w| {
        assert (rep + tail)[j - i] == tail[j - (i + |w|)];
      } else if j > i {
        InsideWord(s, w, rep, i, j);
      }
    }
  }

  lemma {:induction false} PlainStep(s: string, w: string, rep: string, i: nat, tail: string)
    requires WordSwap(w, rep) && i < |s| && !WholeWordAt(s, w, i)
    requires |tail| == |s| - (i + 1)
    requires forall j :: i + 1 <= j < |s| ==> tail[j - (i + 1)] == WordOut(s, w, rep, j)
    ensures forall j :: i <= j < |s| ==> ([s[i]] + tail)[j - i] == WordOut(s, w, rep, j)
  {
    forall j | i < j < |s|
      ensures ([s[i]] + tail)[j - i] == WordOut(s, w, rep, j)
    {
      assert ([s[i]] + tail)[j - i] == tail[j - (i + 1)];
    }
  }

  /**
   * The word pass changes exactly the first letter of each whole-word
   * occurrence and keeps every other character where it was.
   */
  lemma {:induction false} ReplaceWordAt(s: string, w: string, rep: string, i: nat)
    requires i <= |s| && WordSwap(w, rep)
    ensures |ReplaceWord(s, w, rep, i)| == |s| - i
    ensures forall j :: i <= j < |s| ==> ReplaceWord(s, w, rep, i)[j - i] == WordOut(s, w, rep, j)
    decreases |s| - i
  {
    if i < |s| {
      if WholeWordAt(s, w, i) {
        ReplaceWordAt(s, w, rep, i + |w|);
        MatchStep(s, w, rep, i, ReplaceWord(s, w, rep, i + |w|));
      } else {
        ReplaceWordAt(s, w, rep, i + 1);
        PlainStep(s, w, rep, i, ReplaceWord(s, w, rep, i + 1));
      }
    }
  }

  /** A whole word of the output that avoids the replacement letter was a whole word of the input. */
  lemma {:induction false} WholeWordBack(s: string, w: string, rep: string, v: string, j: nat)
    requires WordSwap(w, rep) && rep[0] !in v && j <= |s|
    ensures WholeWordAt(ReplaceWord(s, w, rep, 0), v, j) ==> WholeWordAt(s, v, j)
  {
    var r := ReplaceWord(s, w, rep, 0);
    ReplaceWordAt(s, w, rep, 0);
    if WholeWordAt(r, v, j) {
      forall m | 0 <= m < |v|
        ensures s[j + m] == v[m]
      {
        assert r[j..j + |v|][m] == v[m];
        assert r[j + m - 0] == WordOut(s, w, rep, j + m);
      }
      assert s[j..j + |v|] == v;
      if j > 0 {
        assert r[j - 1 - 0] == WordOut(s, w, rep, j - 1);
      }
      if j + |v| < |s| {
        assert r[j + |v| - 0] == WordOut(s, w, rep, j + |v|);
      }
    }
  }

  /** After the word pass, `w` no longer occurs as a whole word. */
  lemma {:induction false} ReplaceWordGone(s: string, w: string, rep: string)
    requires WordSwap(w, rep) && rep[0] !in w
    ensures NoWord(ReplaceWord(s, w, rep, 0), w)
  {
    var r := ReplaceWord(s, w, rep, 0);
    ReplaceWordAt(s, w, rep, 0);
    forall j | 0 <= j <= |r|
      ensures !WholeWordAt(r, w, j)
    {
      WholeWordBack(s, w, rep, w, j);
      if WholeWordAt(s, w, j) {
        assert r[j - 0] == WordOut(s, w, rep, j) == rep[0];
        assert rep[0] != w[0];
        assert j + |w| <= |r| ==> r[j..j + |w|][0] == r[j];
      }
    }
  }

  /** The word pass for one word leaves the absence of another whole word intact. */
  lemma {:induction false} ReplaceWordKeepsNoWord(s: string, w: string, rep: string, v: string)
    requires WordSwap(w, rep) && rep[0] !in v && NoWord(s, v)
    ensures NoWord(ReplaceWord(s, w, rep, 0), v)
  {
    var r := ReplaceWord(s, w, rep, 0);
    ReplaceWordAt(s, w, rep, 0);
    forall j | 0 <= j <= |r|
      ensures !WholeWordAt(r, v, j)
    {
      WholeWordBack(s, w, rep, v, j);
    }
  }

  /** Without a whole-word occurrence the pass changes nothing: `TRUE` or `true` are kept as they are. */
  lemma {:induction false} ReplaceWordAbsent(s: string, w: string, rep: string)
    requires WordSwap(w, rep) && NoWord(s, w)
    ensures ReplaceWord(s, w, rep, 0) == s
  {
    ReplaceWordAt(s, w, rep, 0);
    var r := ReplaceWord(s, w, rep, 0);
    forall j | 0 <= j < |s|
      ensures r[j] == s[j]
    {
      assert r[j - 0] == WordOut(s, w, rep, j);
    }
  }

  /** The word pass touches only letters, so it keeps the bracket rules. */
  lemma {:induction false} ReplaceWordKeepsBrackets(s: string, w: string, rep: string, o: char, c: char)
    requires WordSwap(w, rep)
    requires !JavaString.IsWordChar(o) && !JavaString.IsWordChar(c)
    requires NoSpaceAfter(s, o) && NoSpaceBefore(s, c)
    ensures NoSpaceAfter(ReplaceWord(s, w, rep, 0), o) && NoSpaceBefore(ReplaceWord(s, w, rep, 0), c)
  {
    var r := ReplaceWord(s, w, rep, 0);
    ReplaceWordAt(s, w, rep, 0);
    forall j | 0 <= j < |s|
      ensures r[j] == s[j] || JavaString.IsWordChar(r[j])
    {
      assert r[j - 0] == WordOut(s, w, rep, j);
    }
  }

  /** What the normaliser guarantees: tight brackets and parentheses, and no whole-word `True`/`False`. */
  predicate Canonical(n: string)
  {
    NoSpaceAfter(n, '[') && NoSpaceBefore(n, ']') && NoSpaceAfter(n, '(') && NoSpaceBefore(n, ')')
    && NoWord(n, "True") && NoWord(n, "False")
  }

  /** After the bracket passes, no bracket or parenthesis has whitespace on its inner side. */
  lemma {:induction false} TightenTight(s: string)
    ensures var t := Tighten(s);
      NoSpaceAfter(t, '[') && NoSpaceBefore(t, ']') && NoSpaceAfter(t, '(') && NoSpaceBefore(t, ')')
  {
    var a := AfterOpen(s, '[');
    AfterOpenTight(s, '[');
    var b := BeforeClose(a, ']');
    BeforeCloseTight(a, ']');
    BeforeCloseKeepsAfter(a, ']', '[');
    var c := AfterOpen(b, '(');
    AfterOpenTight(b, '(');
    AfterOpenKeepsAfter(b, '(', '[');
    AfterOpenKeepsBefore(b, '(', ']');
    BeforeCloseTight(c, ')');
    BeforeCloseKeepsAfter(c, ')', '[');
    BeforeCloseKeepsAfter(c, ')', '(');
    BeforeCloseKeepsBefore(c, ')', ']');
  }

  /** After the boolean passes neither `True` nor `False` is left as a whole word. */
  lemma {:induction false} LowerWordsClean(s: string)
    ensures NoWord(LowerWords(s), "True") && NoWord(LowerWords(s), "False")
  {
    assert WordSwap("True", "true");
    assert WordSwap("False", "false");
    var t := ReplaceWord(s, "True", "true", 0);
    ReplaceWordGone(s, "True", "true");
    ReplaceWordGone(t, "False", "false");
    ReplaceWordKeepsNoWord(t, "False", "false", "True");
  }

  /** The boolean passes keep a tightened text tight. */
  lemma {:induction false} LowerWordsKeepBrackets(s: string)
    requires NoSpaceAfter(s, '[') && NoSpaceBefore(s, ']') && NoSpaceAfter(s, '(') && NoSpaceBefore(s, ')')
    ensures var t := LowerWords(s);
      NoSpaceAfter(t, '[') && NoSpaceBefore(t, ']') && NoSpaceAfter(t, '(') && NoSpaceBefore(t, ')')
  {
    assert WordSwap("True", "true");
    assert WordSwap("False", "false");
    var t := ReplaceWord(s, "True", "true", 0);
    ReplaceWordKeepsBrackets(s, "True", "true", '[', ']');
    ReplaceWordKeepsBrackets(s, "True", "true", '(', ')');
    ReplaceWordKeepsBrackets(t, "False", "false", '[', ']');
    ReplaceWordKeepsBrackets(t, "False", "false", '(', ')');
  }

  /** Every string `normalizeOutput` returns for a non-null input is canonical. */
  lemma {:induction false} NormalizeCanonical(s: string)
    ensures Canonical(Normalize(Some(s)))
  {
    var c := JavaString.ReplaceAll(JavaString.Trim(s), ", ", ",");
    TightenTight(c);
    LowerWordsKeepBrackets(Tighten(c));
    LowerWordsClean(Tighten(c));
  }

  // ------------------------------------------------ when the normaliser changes nothing

  lemma {:induction false} AfterOpenSame(s: string, o: char)
    requires NoSpaceAfter(s, o)
    ensures AfterOpen(s, o) == s
    decreases |s|
  {
    if s != [] {
      NoSpaceAfterSuffix(s, o, 1);
      AfterOpenSame(s[1..], o);
      if s[0] == o && |s| > 1 {
        assert s[1..][0] == s[1];
      }
      assert s == [s[0]] + s[1..];
    }
  }

  lemma {:induction false} BeforeCloseSame(s: string, c: char)
    requires NoSpaceBefore(s, c)
    ensures BeforeClose(s, c) == s
    decreases |s|
  {
    if s != [] {
      if JavaString.IsRegexSpace(s[0]) {
        var k := SpaceRun(s);
        assert k >= 1 && JavaString.IsRegexSpace(s[k - 1]);
        assert !(k < |s| && s[k] == c);
        NoSpaceBeforeSuffix(s, c, k);
        BeforeCloseSame(s[k..], c);
        assert s == s[..k] + s[k..];
      } else {
        NoSpaceBeforeSuffix(s, c, 1);
        BeforeCloseSame(s[1..], c);
        assert s == [s[0]] + s[1..];
      }
    }
  }

  /** The bracket and boolean passes leave a canonical text as it is. */
  lemma {:induction false} PassesSame(s: string)
    requires Canonical(s)
    ensures LowerWords(Tighten(s)) == s
  {
    AfterOpenSame(s, '[');
    BeforeCloseSame(s, ']');
    AfterOpenSame(s, '(');
    BeforeCloseSame(s, ')');
    assert WordSwap("True", "true");
    assert WordSwap("False", "false");
    ReplaceWordAbsent(s, "True", "true");
    ReplaceWordAbsent(s, "False", "false");
  }

  /** A canonical text without a `", "` that `trim` keeps whole is its own normal form. */
  lemma {:induction false} NormalizeFixed(s: string)
    requires JavaString.Trim(s) == s && !JavaString.Contains(s, ", ") && Canonical(s)
    ensures Normalize(Some(s)) == s
  {
    JavaString.ReplaceAbsent(s, ", ", ",");
    PassesSame(s);
  }

  /** Surrounding whitespace never matters: the input is trimmed first. */
  lemma {:induction false} NormalizeTrim(s: string)
    ensures Normalize(Some(JavaString.Trim(s))) == Normalize(Some(s))
  {
    JavaString.TrimIdempotent(s);
  }

  /** No whitespace, and no `T` or `F` to start a boolean word. */
  predicate Quiet(s: string)
  {
    forall i :: 0 <= i < |s| ==> !JavaString.IsRegexSpace(s[i]) && s[i] != 'T' && s[i] != 'F'
  }

  /** A quiet text is canonical and holds no `", "`. */
  lemma {:induction false} QuietCanonical(s: string)
    requires Quiet(s)
    ensures Canonical(s) && !JavaString.Contains(s, ", ")
  {
    forall j | 0 <= j <= |s|
      ensures !WholeWordAt(s, "True", j) && !WholeWordAt(s, "False", j)
    {
      if j < |s| {
        assert j + 4 <= |s| ==> s[j..j + 4][0] == s[j];
        assert j + 5 <= |s| ==> s[j..j + 5][0] == s[j];
      }
    }
    forall i | 0 <= i <= |s| - 2
      ensures !JavaString.OccursAt(s, ", ", i)
    {
      assert s[i..i + 2][1] == s[i + 1];
    }
  }

  /** A text with no bracket, parenthesis, `T` or `F` is canonical. */
  lemma {:induction false} PlainCanonical(s: string)
    requires '[' !in s && ']' !in s && '(' !in s && ')' !in s && 'T' !in s && 'F' !in s
    ensures Canonical(s)
  {
    forall j | 0 <= j <= |s|
      ensures !WholeWordAt(s, "True", j) && !WholeWordAt(s, "False", j)
    {
      if j < |s| {
        assert j + 4 <= |s| ==> s[j..j + 4][0] == s[j];
        assert j + 5 <= |s| ==> s[j..j + 5][0] == s[j];
      }
    }
  }

  lemma {:induction false} QuietAppend(a: string, b: string)
    requires Quiet(a) && Quiet(b)
    ensures Quiet(a + b)
  {
    var s := a + b;
    forall i | 0 <= i < |s|
      ensures !JavaString.IsRegexSpace(s[i]) && s[i] != 'T' && s[i] != 'F'
    {
      if i < |a| {
        assert s[i] == a[i];
      } else {
        assert s[i] == b[i - |a|];
      }
    }
  }

  lemma {:induction false} QuietJoin(parts: seq<string>, sep: char)
    requires forall i :: 0 <= i < |parts| ==> Quiet(parts[i])
    requires Quiet([sep])
    ensures Quiet(JavaString.Join(parts, sep))
  {
    if |parts| > 1 {
      QuietJoin(parts[1..], sep);
      QuietAppend(parts[0], [sep]);
      QuietAppend(parts[0] + [sep], JavaString.Join(parts[1..], sep));
    }
  }

  /** With a non-empty pattern starting like its replacement, the first character survives the pass. */
  lemma {:induction false} ReplaceHead(t: string, pat: string, rep: string)
    requires |pat| > 0 && |rep| > 0 && rep[0] == pat[0] && t != []
    ensures JavaString.ReplaceAll(t, pat, rep) != [] && JavaString.ReplaceAll(t, pat, rep)[0] == t[0]
  {
  }

  /** A prefix without a comma goes through the comma pass untouched. */
  lemma {:induction false} CommaPassPrefix(a: string, u: string)
    requires ',' !in a
    ensures JavaString.ReplaceAll(a + u, ", ", ",") == a + JavaString.ReplaceAll(u, ", ", ",")
    decreases |a|
  {
    var s := a + u;
    if a == [] {
      assert s == u;
    } else {
      assert s[0] == a[0];
      if |s| >= 2 {
        assert s[..2][0] == a[0];
        assert s[1..] == a[1..] + u;
        CommaPassPrefix(a[1..], u);
      } else {
        assert u == [] && s == a;
      }
    }
  }

  lemma {:induction false} CommaPassSpace(v: string)
    ensures JavaString.ReplaceAll(", " + v, ", ", ",") == "," + JavaString.ReplaceAll(v, ", ", ",")
  {
    var s := ", " + v;
    assert s[..2] == ", ";
    assert s[2..] == v;
  }

  /** The comma pass turns Java's `", "`-joined list body into the `","`-joined one. */
  lemma {:induction false} CommaSpaceJoin(parts: seq<string>, tail: string)
    requires forall i :: 0 <= i < |parts| ==> ',' !in parts[i]
    requires ',' !in tail
    ensures JavaString.ReplaceAll(CommaSpace(parts) + tail, ", ", ",") == JavaString.Join(parts, ',') + tail
  {
    assert JavaString.ReplaceAll([], ", ", ",") == [];
    if parts == [] {
      CommaPassPrefix(tail, []);
      assert tail + [] == tail && CommaSpace(parts) + tail == tail;
    } else if |parts| == 1 {
      CommaPassPrefix(parts[0] + tail, []);
      assert parts[0] + tail + [] == parts[0] + tail == CommaSpace(parts) + tail;
    } else {
      var rest := CommaSpace(parts[1..]) + tail;
      var joined := JavaString.Join(parts[1..], ',');
      assert CommaSpace(parts) + tail == parts[0] + (", " + rest);
      assert JavaString.ReplaceAll(rest, ", ", ",") == joined + tail by {
        CommaSpaceJoin(parts[1..], tail);
      }
      assert JavaString.ReplaceAll(parts[0] + (", " + rest), ", ", ",") == parts[0] + ("," + (joined + tail)) by {
        CommaPassPrefix(parts[0], ", " + rest);
        CommaPassSpace(rest);
      }
      assert JavaString.Join(parts, ',') == parts[0] + "," + joined;
    }
  }

  /** Java's `List<Integer>.toString` written for a list of ints. */
  function IntList(xs: seq<int>): (v: Value)
    ensures v.List? && |v.items| == |xs|
    ensures forall i :: 0 <= i < |xs| ==> v.items[i] == Int(xs[i])
  {
    List(seq(|xs|, i requires 0 <= i < |xs| => Int(xs[i])))
  }

  /** The normal form, once the comma pass is known to give a canonical text. */
  lemma {:induction false} NormalizeVia(s: string, c: string)
    requires s != [] && !JavaString.IsTrimmable(s[0]) && !JavaString.IsTrimmable(s[|s| - 1])
    requires JavaString.ReplaceAll(s, ", ", ",") == c && Canonical(c)
    ensures Normalize(Some(s)) == c
  {
    JavaString.TrimOfTrimmed(s);
    PassesSame(c);
  }

  /** The pieces of an int list as `List.toString` writes them: decimal, comma-free, quiet. */
  lemma {:induction false} IntListParts(xs: seq<int>)
    ensures var items := IntList(xs).items;
      ShowAll(items) == Elements(items, false)
      && forall i :: 0 <= i < |xs| ==> ',' !in ShowAll(items)[i] && Quiet(ShowAll(items)[i])
  {
    var items := IntList(xs).items;
    var parts := ShowAll(items);
    forall i | 0 <= i < |parts|
      ensures parts[i] == Element(items[i], false) && ',' !in parts[i] && Quiet(parts[i])
    {
      ShowAllAt(items, i);
      TreeCodec.IntStringChars(xs[i]);
    }
  }

  /** `[` + the comma-free parts joined by `", "` + `]` loses exactly the spaces in the comma pass. */
  lemma {:induction false} ListCommaPass(parts: seq<string>, o: char, c: char)
    requires forall i :: 0 <= i < |parts| ==> ',' !in parts[i]
    requires o != ',' && c != ','
    ensures JavaString.ReplaceAll([o] + CommaSpace(parts) + [c], ", ", ",")
         == [o] + JavaString.Join(parts, ',') + [c]
  {
    var body := CommaSpace(parts);
    var joined := JavaString.Join(parts, ',');
    assert [o] + body + [c] == [o] + (body + [c]);
    assert JavaString.ReplaceAll(body + [c], ", ", ",") == joined + [c] by {
      CommaSpaceJoin(parts, [c]);
    }
    assert JavaString.ReplaceAll([o] + (body + [c]), ", ", ",") == [o] + (joined + [c]) by {
      CommaPassPrefix([o], body + [c]);
    }
    assert [o] + (joined + [c]) == [o] + joined + [c];
  }

  /** Bracketed quiet parts make a canonical text. */
  lemma {:induction false} ListCanonical(parts: seq<string>)
    requires forall i :: 0 <= i < |parts| ==> Quiet(parts[i])
    ensures Canonical("[" + JavaString.Join(parts, ',') + "]")
  {
    var body := JavaString.Join(parts, ',');
    QuietJoin(parts, ',');
    QuietAppend("[", body);
    QuietAppend("[" + body, "]");
    QuietCanonical("[" + body + "]");
  }

  /**
   * What comparison through the normaliser buys: a solution that returns
   * `List<Integer>`, printed by Java as `[1, 2, 3]`, matches the
   * `resultToString` form `[1,2,3]` of the same list.
   */
  lemma {:induction false} ListNormalizes(xs: seq<int>)
    ensures Normalize(Some(Show(IntList(xs)))) == ResultText(IntList(xs))
  {
    var items := IntList(xs).items;
    IntListParts(xs);
    var parts := ShowAll(items);
    var u := "[" + JavaString.Join(parts, ',') + "]";
    assert Show(IntList(xs)) == "[" + CommaSpace(parts) + "]";
    assert u == ResultText(IntList(xs));
    var shown := Show(IntList(xs));
    assert shown[0] == '[' && shown[|shown| - 1] == ']';
    ListCommaPass(parts, '[', ']');
    ListCanonical(parts);
    NormalizeVia(shown, u);
  }

  /**
   * The comma pass is one left-to-right sweep: a `", "` is left in its
   * output only where the input had a comma followed by two spaces.
   */
  lemma {:induction false} CommaPassSpaced(s: string, i: nat)
    requires JavaString.OccursAt(JavaString.ReplaceAll(s, ", ", ","), ", ", i)
    ensures JavaString.Contains(s, ",  ")
    decreases |s|
  {
    var r := JavaString.ReplaceAll(s, ", ", ",");
    assert r[i] == r[i..i + 2][0] == ',' && r[i + 1] == r[i..i + 2][1] == ' ';
    if |s| >= 2 {
      if s[..2] == ", " {
        var t := s[2..];
        var rt := JavaString.ReplaceAll(t, ", ", ",");
        assert r == "," + rt;
        if i == 0 {
          ReplaceHead(t, ", ", ",");
          assert s[0..3] == ",  ";
          assert JavaString.OccursAt(s, ",  ", 0);
        } else {
          assert rt[i - 1..i + 1] == r[i..i + 2];
          CommaPassSpaced(t, i - 1);
          var m :| 0 <= m <= |t| - 3 && JavaString.OccursAt(t, ",  ", m);
          assert s[m + 2..m + 5] == t[m..m + 3];
          assert JavaString.OccursAt(s, ",  ", m + 2);
        }
      } else {
        var t := s[1..];
        var rt := JavaString.ReplaceAll(t, ", ", ",");
        assert r == [s[0]] + rt;
        if i == 0 {
          ReplaceHead(t, ", ", ",");
          assert false;
        } else {
          assert rt[i - 1..i + 1] == r[i..i + 2];
          CommaPassSpaced(t, i - 1);
          var m :| 0 <= m <= |t| - 3 && JavaString.OccursAt(t, ",  ", m);
          assert s[m + 1..m + 4] == t[m..m + 3];
          assert JavaString.OccursAt(s, ",  ", m + 1);
        }
      }
    }
  }

  /** Without a comma followed by two spaces, the comma pass leaves no `", "` behind. */
  lemma {:induction false} CommaPassClean(s: string)
    requires !JavaString.Contains(s, ",  ")
    ensures !JavaString.Contains(JavaString.ReplaceAll(s, ", ", ","), ", ")
  {
    var r := JavaString.ReplaceAll(s, ", ", ",");
    if JavaString.Contains(r, ", ") {
      var i :| 0 <= i <= |r| - 2 && JavaString.OccursAt(r, ", ", i);
      CommaPassSpaced(s, i);
    }
  }

  /** No comma, bracket, parenthesis, `T` or `F`. */
  predicate Bare(s: string)
  {
    ',' !in s && '[' !in s && ']' !in s && '(' !in s && ')' !in s && 'T' !in s && 'F' !in s
  }

  lemma {:induction false} CommaPassTwoSpaces(a: string, b: string)
    requires ',' !in a && ',' !in b
    ensures JavaString.ReplaceAll(a + ",  " + b, ", ", ",") == a + ", " + b
  {
    assert a + ",  " + b == a + (", " + (" " + b));
    CommaPassPrefix(a, ", " + (" " + b));
    CommaPassSpace(" " + b);
    CommaPassPrefix(" " + b, []);
    assert JavaString.ReplaceAll([], ", ", ",") == [];
    assert " " + b + [] == " " + b;
    assert a + ("," + (" " + b)) == a + ", " + b;
  }

  lemma {:induction false} CommaPassOneSpace(a: string, b: string)
    requires ',' !in a && ',' !in b
    ensures JavaString.ReplaceAll(a + ", " + b, ", ", ",") == a + "," + b
  {
    assert a + ", " + b == a + (", " + b);
    CommaPassPrefix(a, ", " + b);
    CommaPassSpace(b);
    CommaPassPrefix(b, []);
    assert JavaString.ReplaceAll([], ", ", ",") == [];
    assert b + [] == b;
    assert a + ("," + b) == a + "," + b;
  }

  lemma {:induction false} NormalizeSpaced(a: string, b: string)
    requires a != [] && b != [] && !JavaString.IsTrimmable(a[0]) && !JavaString.IsTrimmable(b[|b| - 1])
    requires Bare(a) && Bare(b)
    ensures Normalize(Some(a + ",  " + b)) == a + ", " + b
  {
    var s := a + ",  " + b;
    assert s[0] == a[0] && s[|s| - 1] == b[|b| - 1];
    CommaPassTwoSpaces(a, b);
    PlainCanonical(a + ", " + b);
    NormalizeVia(a + ",  " + b, a + ", " + b);
  }

  lemma {:induction false} NormalizeOnce(a: string, b: string)
    requires a != [] && b != [] && !JavaString.IsTrimmable(a[0]) && !JavaString.IsTrimmable(b[|b| - 1])
    requires Bare(a) && Bare(b)
    ensures Normalize(Some(a + ", " + b)) == a + "," + b
  {
    var s := a + ", " + b;
    assert s[0] == a[0] && s[|s| - 1] == b[|b| - 1];
    CommaPassOneSpace(a, b);
    PlainCanonical(a + "," + b);
    NormalizeVia(a + ", " + b, a + "," + b);
  }

  /**
   * The normaliser is not idempotent: `a,  b` becomes `a, b`, which a second
   * pass turns into `a,b`, for any words `a` and `b` free of commas and brackets.
   */
  lemma {:induction false} NormalizeNotIdempotent(a: string, b: string)
    requires a != [] && b != [] && !JavaString.IsTrimmable(a[0]) && !JavaString.IsTrimmable(b[|b| - 1])
    requires Bare(a) && Bare(b)
    ensures Normalize(Some(Normalize(Some(a + ",  " + b)))) != Normalize(Some(a + ",  " + b))
  {
    NormalizeSpaced(a, b);
    NormalizeOnce(a, b);
    assert (a + ", " + b)[|a| + 1] == ' ';
    assert |a + "," + b| < |a + ", " + b|;
  }

  /** Agreement is symmetric, so a test passes the same way with its two sides swapped. */
  lemma {:induction false} ValidateSymmetric(expected: Option<string>, actual: Option<string>)
    ensures ValidateResult(expected, actual) <==> ValidateResult(actual, expected)
  {
  }

  // ============================================================
  // resultToString
  // ============================================================

  /** One element as the `format*` helpers write it: `null`, or its `toString`, quoted for `String[]`. */
  function Element(v: Value, quoted: bool): string
  {
    if v.Null? then "null" else if quoted then "\"" + Show(v) + "\"" else Show(v)
  }

  function Elements(items: seq<Value>, quoted: bool): (r: seq<string>)
    ensures |r| == |items|
    ensures forall i :: 0 <= i < |items| ==> r[i] == Element(items[i], quoted)
  {
    seq(|items|, i requires 0 <= i < |items| => Element(items[i], quoted))
  }

  /** `"[" + elements joined by "," + "]"`, the shape of every `format*` helper. */
  function Bracketed(items: seq<Value>, quoted: bool): string
  {
    "[" + JavaString.Join(Elements(items, quoted), ',') + "]"
  }

  /** `resultToString`, following its `instanceof` chain in order. */
  function ResultText(v: Value): string
  {
    match v
    case Null => "null"
    case List(items) => Bracketed(items, false)
    case Array(k, items) =>
      if k == StringArr then Bracketed(items, true)
      else if k == IntArr || k == BooleanArr || IsObjectArray(k) then Bracketed(items, false)
      else Show(v)
    case Bool(b) => BoolText(b)
    case _ => Show(v)
  }

  /** The `StringBuilder` loop shared by the `format*` helpers. */
  method FormatItems(items: seq<Value>, quoted: bool) returns (s: string)
    ensures s == Bracketed(items, quoted)
  {
    s := "[";
    ghost var all := Elements(items, quoted);
    for i := 0 to |items|
      invariant s == "[" + JavaString.Join(all[..i], ',')
    {
      var e := Element(items[i], quoted);
      assert all[..i + 1] == all[..i] + [e];
      FormatStep(all[..i], e, s);
      if i > 0 {
        s := s + ",";
      }
      s := s + e;
    }
    assert all[..|items|] == all;
    s := s + "]";
  }

  /** One element more in the buffer: a comma unless it is the first, then the element. */
  lemma {:induction false} FormatStep(done: seq<string>, e: string, s: string)
    requires s == "[" + JavaString.Join(done, ',')
    ensures (if done == [] then s else s + ",") + e == "[" + JavaString.Join(done + [e], ',')
  {
    JavaString.JoinSnoc(done, e, ',');
  }

  /** `resultToString(result)`. */
  method ResultToString(v: Value) returns (s: string)
    ensures s == ResultText(v)
  {
    match v {
      case Null =>
        s := "null";
      case List(items) =>
        s := FormatItems(items, false);
      case Array(k, items) =>
        if k == StringArr {
          s := FormatItems(items, true);
        } else if k == IntArr || k == BooleanArr || IsObjectArray(k) {
          s := FormatItems(items, false);
        } else {
          s := Show(v);
        }
      case Bool(b) =>
        s := if b then "true" else "false";
      case _ =>
        s := Show(v);
    }
  }

  /** The boxed form of an `Integer[]` slot. */
  function Boxed(x: Option<int>): Value
  {
    if x.Some? then Int(x.value) else Null
  }

  function BoxedAll(xs: seq<Option<int>>): (r: seq<Value>)
    ensures |r| == |xs|
    ensures forall i :: 0 <= i < |xs| ==> r[i] == Boxed(xs[i])
  {
    seq(|xs|, i requires 0 <= i < |xs| => Boxed(xs[i]))
  }

  /** Each element of a boxed `Integer[]` is written as `List.toString` writes it: no comma, and it parses back. */
  lemma {:induction false} IntegerItems(xs: seq<Option<int>>)
    requires TreeCodec.IntSlots(xs)
    ensures var items := Elements(BoxedAll(xs), false);
      forall i :: 0 <= i < |xs| ==>
        items[i] == TreeCodec.ElementString(xs[i]) && ',' !in items[i]
        && TreeCodec.ParseElement(items[i]) == Ok(xs[i])
  {
    var items := Elements(BoxedAll(xs), false);
    forall i | 0 <= i < |xs|
      ensures items[i] == TreeCodec.ElementString(xs[i]) && ',' !in items[i]
      ensures TreeCodec.ParseElement(items[i]) == Ok(xs[i])
    {
      TreeCodec.ElementNoComma(xs[i], "");
      TreeCodec.ParseElementString(xs[i], "");
      assert "" + items[i] == items[i];
    }
  }

  /** The elements of a boxed `Integer[]` parse back to the slots they were written from. */
  lemma {:induction false} ParseIntegerItems(xs: seq<Option<int>>)
    requires TreeCodec.IntSlots(xs)
    ensures TreeCodec.ParseElements(Elements(BoxedAll(xs), false)) == Ok(xs)
  {
    var items := Elements(BoxedAll(xs), false);
    IntegerItems(xs);
    TreeCodec.ParseElementsOk(items);
    var r := TreeCodec.ParseElements(items);
    assert r.Ok? by {
      forall i | 0 <= i < |items|
        ensures TreeCodec.ParseElement(items[i]).Ok?
      {
        assert TreeCodec.ParseElement(items[i]) == Ok(xs[i]);
      }
    }
    assert |r.value| == |xs|;
    forall i | 0 <= i < |xs|
      ensures r.value[i] == xs[i]
    {
      assert TreeCodec.ParseElement(items[i]) == Ok(xs[i]);
      assert TreeCodec.ParseElement(items[i]) == Ok(r.value[i]);
    }
    assert r.value == xs;
  }

  /** Taking the brackets off a non-empty `[a,b,...]` leaves the joined elements. */
  lemma {:induction false} BracketedContent(items: seq<string>)
    requires items != [] && items[0] != ""
    ensures "[" + JavaString.Join(items, ',') + "]" != "[]"
    ensures var s := "[" + JavaString.Join(items, ',') + "]";
      JavaString.Substring(s, 1, |s| - 1) == Ok(JavaString.Join(items, ','))
  {
    var s := "[" + JavaString.Join(items, ',') + "]";
    TreeCodec.JoinHead(items, ',');
    assert s[1..|s| - 1] == JavaString.Join(items, ',');
  }

  /**
   * An `Integer[]` result is written in the form `TreeNode.parseArray`
   * reads: parsing it back gives the same slots, `null` included.
   */
  lemma {:induction false} IntegerArrayRoundTrip(xs: seq<Option<int>>)
    requires TreeCodec.IntSlots(xs)
    ensures TreeCodec.ParseArraySpec(ResultText(Array(IntegerArr, BoxedAll(xs)))) == Ok(xs)
  {
    var items := Elements(BoxedAll(xs), false);
    var s := ResultText(Array(IntegerArr, BoxedAll(xs)));
    assert s == "[" + JavaString.Join(items, ',') + "]";
    if xs == [] {
      assert s == "[]";
    } else {
      IntegerItems(xs);
      assert JavaString.Split(JavaString.Join(items, ','), ',') == items by {
        JavaString.SplitJoin(items, ',');
      }
      BracketedContent(items);
      ParseIntegerItems(xs);
    }
  }

  // ============================================================
  // display helpers
  // ============================================================

  /** `formatInputForDisplay`: at most 100 characters, the first 97 and `...` when longer. */
  function InputForDisplay(input: Option<string>): (r: string)
    ensures input.None? ==> r == "null"
    ensures input.Some? && |input.value| <= 100 ==> r == input.value
    ensures input.Some? && |input.value| > 100 ==>
      |r| == 100 && JavaString.StartsWith(input.value, r[..97]) && r[97..] == "..."
  {
    match input
    case None => "null"
    case Some(s) => if |s| > 100 then s[..97] + "..." else s
  }

  /** The character `highlightDifferences` compares at `i`: a space past the end. */
  function PaddedAt(s: string, i: nat): char
  {
    if i < |s| then s[i] else ' '
  }

  /** The marker line: `^` where the space-padded strings differ, a space where they agree. */
  function Markers(e: string, a: string): (r: string)
    ensures |r| == if |e| < |a| then |a| else |e|
    ensures forall i :: 0 <= i < |r| ==> (r[i] == '^' <==> PaddedAt(e, i) != PaddedAt(a, i))
    ensures forall i :: 0 <= i < |r| ==> r[i] == '^' || r[i] == ' '
  {
    var n := if |e| < |a| then |a| else |e|;
    seq(n, i requires 0 <= i < n => if PaddedAt(e, i) != PaddedAt(a, i) then '^' else ' ')
  }

  /** `highlightDifferences`: the marker line, built one character at a time. */
  method HighlightDifferences(e: string, a: string) returns (marks: string)
    ensures marks == Markers(e, a)
  {
    var n := if |e| < |a| then |a| else |e|;
    marks := "";
    for i := 0 to n
      invariant |marks| == i
      invariant forall j :: 0 <= j < i ==> marks[j] == (if PaddedAt(e, j) != PaddedAt(a, j) then '^' else ' ')
    {
      var ec := if i < |e| then e[i] else ' ';
      var ac := if i < |a| then a[i] else ' ';
      marks := marks + (if ec != ac then "^" else " ");
    }
  }

  /** Markers are symmetric in the two strings, and a string compared with itself has none. */
  lemma {:induction false} MarkersSymmetric(e: string, a: string)
    ensures Markers(e, a) == Markers(a, e)
    ensures '^' !in Markers(e, e)
  {
    var r := Markers(e, e);
    assert forall i :: 0 <= i < |r| ==> r[i] == ' ';
  }

  /** Two different strings of the same length get at least one marker. */
  lemma {:induction false} MarkersFindDifference(e: string, a: string)
    requires |e| == |a| && e != a
    ensures '^' in Markers(e, a)
  {
    var i :| 0 <= i < |e| && e[i] != a[i];
    assert Markers(e, a)[i] == '^';
  }

  /** The two labelled lines every comparison starts with. */
  function ComparisonHeader(expected: Option<string>, actual: Option<string>): string
  {
    "Expected: " + JavaString.OrNull(expected) + "\n" + "Actual:   " + JavaString.OrNull(actual) + "\n"
  }

  /**
   * `formatComparison`: the two lines, then a `Diff:` line only when the
   * normalised forms differ. A null side there makes `highlightDifferences`
   * throw `NullPointerException` when it asks for the length, `expected`'s first.
   */
  function FormatComparison(expected: Option<string>, actual: Option<string>): (r: Result<string>)
    ensures ValidateResult(expected, actual) ==> r == Ok(ComparisonHeader(expected, actual))
    ensures !ValidateResult(expected, actual) && expected.Some? && actual.Some? ==>
      r == Ok(ComparisonHeader(expected, actual) + "Diff:     " + Markers(expected.value, actual.value))
    ensures r.Err? <==> !ValidateResult(expected, actual) && (expected.None? || actual.None?)
    ensures r.Err? ==> r.error == NullDereference("String.length()", if expected.None? then "expected" else "actual")
  {
    var header := ComparisonHeader(expected, actual);
    if Normalize(expected) == Normalize(actual) then Ok(header)
    else if expected.None? then Err(NullDereference("String.length()", "expected"))
    else if actual.None? then Err(NullDereference("String.length()", "actual"))
    else Ok(header + "Diff:     " + Markers(expected.value, actual.value))
  }

  /** A null expected value and the text `null` compare equal, so their comparison has no Diff line. */
  lemma {:induction false} NullMatchesNullText()
    ensures FormatComparison(None, Some("null")) == Ok(ComparisonHeader(None, Some("null")))
  {
    CommaPassPrefix("null", []);
    assert "null" + [] == "null";
    assert JavaString.ReplaceAll([], ", ", ",") == [];
    PlainCanonical("null");
    NormalizeVia("null", "null");
  }

  /** The status word of a summary line: an error outranks a pass. */
  function Status(passed: bool, hasError: bool): (r: string)
    ensures hasError ==> r == "❌ ERROR"
    ensures !hasError && passed ==> r == "✅ PASS"
    ensures !hasError && !passed ==> r == "❌ FAIL"
  {
    if hasError then "❌ ERROR" else if passed then "✅ PASS" else "❌ FAIL"
  }

  /** `%-Ns`: the text, left-justified with spaces to at least `width` characters. */
  function PadRight(s: string, width: nat): (r: string)
    ensures |r| == if |s| < width then width else |s|
    ensures r[..|s|] == s && forall i :: |s| <= i < |r| ==> r[i] == ' '
  {
    if |s| < width then s + seq(width - |s|, _ => ' ') else s
  }

  /** `formatTestSummary`: the name padded to 30 columns, a space, and the status. */
  function FormatTestSummary(name: Option<string>, passed: bool, hasError: bool): (r: string)
    ensures JavaString.StartsWith(r, JavaString.OrNull(name))
    ensures JavaString.EndsWith(r, Status(passed, hasError))
    ensures |r| == (if |JavaString.OrNull(name)| < 30 then 30 else |JavaString.OrNull(name)|)
                   + 1 + |Status(passed, hasError)|
  {
    var padded := PadRight(JavaString.OrNull(name), 30);
    var r := padded + " " + Status(passed, hasError);
    assert r[..|padded|] == padded;
    r
  }
}
