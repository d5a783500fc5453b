/**
 * The character scanners the harness uses to cut bracketed text into
 * pieces. Every one walks the text once, left to right, keeping a little
 * state (nesting depth, whether it is inside quotes, whether the previous
 * character was a backslash) and cuts where that state says "top level".
 *
 * Each scanner is specified by a fold over prefixes of its input (the
 * state after the first `n` characters), implemented by a method whose
 * loop keeps exactly that fold as its invariant, and characterised by
 * concatenation lemmas: what it does to `a + "," + b` given what it does
 * to `a` and to `b`.
 */
module Scanner {
  import JavaString

  // ===================================================== comma splitting

  /** The three comma splitters of the harness. */
  datatype Dialect =
      /**
       * `TypeParser.splitArrayElements` and `TestExecutor.parseJsonArray`:
       * a backslash escapes the next character, quotes toggle, and one
       * depth counts `[` and `{` up and `]` and `}` down.
       */
    | Nested
      /**
       * `JsonProcessor.splitJsonPairs` and `JsonProcessor.splitArrayElements`:
       * the same, except that brackets and braces are two depths and a cut
       * needs both at zero. (These skip the character after a backslash with
       * `i++`; that cuts the text exactly where an escape flag would.)
       */
    | JsonNested
      /**
       * The older `splitJsonPairs`: only quotes are tracked, and a quote
       * right after a backslash does not toggle.
       */
    | QuoteOnly

  /**
   * What a splitter remembers between characters: one depth over brackets
   * and braces together, the two depths apart, whether it is inside quotes,
   * whether the next character is escaped, and whether the last character
   * was a backslash.
   */
  datatype ScanState = ScanState(depth: int, brackets: int, braces: int, inQuotes: bool, escaped: bool, afterBackslash: bool)

  const Start: ScanState := ScanState(0, 0, 0, false, false, false)

  /** The state after one more character. */
  function Step(d: Dialect, st: ScanState, c: char): ScanState
  {
    if d == QuoteOnly then
      st.(inQuotes := if c == '"' && !st.afterBackslash then !st.inQuotes else st.inQuotes,
          afterBackslash := c == '\\')
    else if st.escaped then st.(escaped := false)
    else if c == '\\' then st.(escaped := true)
    else if c == '"' then st.(inQuotes := !st.inQuotes)
    else if st.inQuotes then st
    else if c == '[' then st.(depth := st.depth + 1, brackets := st.brackets + 1)
    else if c == ']' then st.(depth := st.depth - 1, brackets := st.brackets - 1)
    else if c == '{' then st.(depth := st.depth + 1, braces := st.braces + 1)
    else if c == '}' then st.(depth := st.depth - 1, braces := st.braces - 1)
    else st
  }

  /** Outside every bracket and brace, as the dialect counts them. */
  predicate AtTop(d: Dialect, st: ScanState)
  {
    match d
    case Nested => st.depth == 0
    case JsonNested => st.brackets == 0 && st.braces == 0
    case QuoteOnly => true
  }

  /** The splitter cuts at `c`: a comma, not escaped, outside quotes, at top level. */
  predicate IsCut(d: Dialect, st: ScanState, c: char)
  {
    c == ',' && !st.escaped && !st.inQuotes && AtTop(d, st)
  }

  /** The state after a whole string. */
  function Scan(d: Dialect, st: ScanState, s: string): ScanState
    decreases |s|
  {
    if s == [] then st else Scan(d, Step(d, st, s[0]), s[1..])
  }

  lemma {:induction false} ScanAppend(d: Dialect, st: ScanState, a: string, b: string)
    ensures Scan(d, st, a + b) == Scan(d, Scan(d, st, a), b)
    decreases |a|
  {
    if a == [] {
      assert a + b == b;
    } else {
      assert (a + b)[1..] == a[1..] + b;
      ScanAppend(d, Step(d, st, a[0]), a[1..], b);
    }
  }

  /**
   * The loop state of a splitter after `n` characters: its scan state,
   * where the current piece starts, and the pieces cut so far, kept here
   * untrimmed (the splitters trim each piece as they cut it).
   */
  datatype Progress = Progress(st: ScanState, start: nat, raw: seq<string>)

  /** Every string trimmed, in order. */
  function TrimAll(xs: seq<string>): (r: seq<string>)
    ensures |r| == |xs|
  {
    if xs == [] then [] else [JavaString.Trim(xs[0])] + TrimAll(xs[1..])
  }

  lemma {:induction false} TrimAllAt(xs: seq<string>)
    ensures forall i :: 0 <= i < |xs| ==> TrimAll(xs)[i] == JavaString.Trim(xs[i])
  {
    if xs != [] {
      TrimAllAt(xs[1..]);
      forall i | 1 <= i < |xs|
        ensures TrimAll(xs)[i] == JavaString.Trim(xs[i])
      {
        assert xs[1..][i - 1] == xs[i];
      }
    }
  }

  lemma {:induction false} TrimAllAppend(xs: seq<string>, ys: seq<string>)
    ensures TrimAll(xs + ys) == TrimAll(xs) + TrimAll(ys)
    decreases |xs|
  {
    if xs == [] {
      assert xs + ys == ys;
    } else {
      var zs := xs + ys;
      assert zs[0] == xs[0] && zs[1..] == xs[1..] + ys;
      TrimAllAppend(xs[1..], ys);
      assert TrimAll(zs) == [JavaString.Trim(xs[0])] + (TrimAll(xs[1..]) + TrimAll(ys));
    }
  }

  /** The progress after reading one more character, `s[i]`. */
  function Next(d: Dialect, s: string, i: nat, f: Progress): (g: Progress)
    requires i < |s| && f.start <= i
    ensures g.start <= i + 1
  {
    if IsCut(d, f.st, s[i]) then Progress(Step(d, f.st, s[i]), i + 1, f.raw + [s[f.start..i]])
    else Progress(Step(d, f.st, s[i]), f.start, f.raw)
  }

  /** The progress after the first `n` characters. */
  function SplitFold(d: Dialect, s: string, n: nat): (f: Progress)
    requires n <= |s|
    ensures f.start <= n
  {
    if n == 0 then Progress(Start, 0, []) else Next(d, s, n - 1, SplitFold(d, s, n - 1))
  }

  /**
   * What a splitter returns: the trimmed pieces before each cut, and the
   * trimmed rest when it is not empty.
   */
  function SplitTop(d: Dialect, s: string): seq<string>
  {
    TrimAll(RawPieces(d, s))
  }

  /** The pieces before trimming: the text between cuts, and the rest when it is not empty. */
  function RawPieces(d: Dialect, s: string): seq<string>
  {
    var f := SplitFold(d, s, |s|);
    f.raw + (if f.start < |s| then [s[f.start..]] else [])
  }

  /** The splitting loop the four splitters share. */
  method Split(d: Dialect, content: string) returns (parts: seq<string>)
    ensures parts == SplitTop(d, content)
  {
    var st := Start;
    var start := 0;
    parts := [];
    ghost var f := SplitFold(d, content, 0);
    var i := 0;
    while i < |content|
      invariant 0 <= i <= |content|
      invariant f == SplitFold(d, content, i)
      invariant f.st == st && f.start == start
      invariant parts == TrimAll(f.raw)
    {
      var c := content[i];
      if IsCut(d, st, c) {
        TrimAllSnoc(f.raw, content[start..i]);
        parts := parts + [JavaString.Trim(content[start..i])];
        start := i + 1;
      }
      st := Step(d, st, c);
      f := Next(d, content, i, f);
      i := i + 1;
    }
    if start < |content| {
      assert RawPieces(d, content) == f.raw + [content[start..]];
      TrimAllSnoc(f.raw, content[start..]);
      parts := parts + [JavaString.Trim(content[start..])];
    } else {
      assert RawPieces(d, content) == f.raw;
    }
  }

  lemma {:induction false} TrimAllSnoc(xs: seq<string>, x: string)
    ensures TrimAll(xs + [x]) == TrimAll(xs) + [JavaString.Trim(x)]
  {
    TrimAllAppend(xs, [x]);
    assert [x][1..] == [];
  }

  /** The fold's state is the scan of the prefix read so far. */
  lemma {:induction false} FoldState(d: Dialect, s: string, n: nat)
    requires n <= |s|
    ensures SplitFold(d, s, n).st == Scan(d, Start, s[..n])
  {
    if n > 0 {
      FoldState(d, s, n - 1);
      assert s[..n] == s[..n - 1] + [s[n - 1]];
      ScanAppend(d, Start, s[..n - 1], [s[n - 1]]);
    }
  }

  /** The fold over a prefix does not look past it. */
  lemma {:induction false} FoldPrefix(d: Dialect, s: string, t: string, n: nat)
    requires n <= |s| && n <= |t| && s[..n] == t[..n]
    ensures SplitFold(d, s, n) == SplitFold(d, t, n)
  {
    if n > 0 {
      assert s[..n - 1] == s[..n][..n - 1] && t[..n - 1] == t[..n][..n - 1];
      FoldPrefix(d, s, t, n - 1);
      var f := SplitFold(d, s, n - 1);
      assert s[n - 1] == s[..n][n - 1] && t[n - 1] == t[..n][n - 1];
      assert s[f.start..n - 1] == s[..n][f.start..n - 1];
      assert t[f.start..n - 1] == t[..n][f.start..n - 1];
      assert SplitFold(d, s, n) == Next(d, s, n - 1, f);
      assert SplitFold(d, t, n) == Next(d, t, n - 1, f);
    }
  }

  /** Every piece a splitter returns is trimmed. */
  lemma {:induction false} SplitTrimmed(d: Dialect, s: string)
    ensures forall p :: p in SplitTop(d, s) ==> p == JavaString.Trim(p)
  {
    var raw := RawPieces(d, s);
    TrimAllAt(raw);
    forall p | p in SplitTop(d, s)
      ensures p == JavaString.Trim(p)
    {
      var i :| 0 <= i < |raw| && SplitTop(d, s)[i] == p;
      JavaString.TrimIdempotent(raw[i]);
    }
  }

  /** No piece the fold cuts is longer than the text. */
  lemma {:induction false} FoldShort(d: Dialect, s: string, n: nat)
    requires n <= |s|
    ensures forall p :: p in SplitFold(d, s, n).raw ==> |p| <= |s|
  {
    if n > 0 {
      FoldShort(d, s, n - 1);
    }
  }

  /** No piece a splitter returns is longer than the text it split. */
  lemma {:induction false} SplitShort(d: Dialect, s: string)
    ensures forall p :: p in SplitTop(d, s) ==> |p| <= |s|
  {
    var raw := RawPieces(d, s);
    FoldShort(d, s, |s|);
    TrimAllAt(raw);
    forall p | p in SplitTop(d, s)
      ensures |p| <= |s|
    {
      var i :| 0 <= i < |raw| && SplitTop(d, s)[i] == p;
      JavaString.TrimLength(raw[i]);
    }
  }

  // ------------------------------------------------ text with no cut in it

  /** No character of `s`, read from state `st`, is a cut. */
  predicate NoCutFrom(d: Dialect, st: ScanState, s: string)
  {
    forall i {:trigger IsCut(d, Scan(d, st, s[..i]), s[i])} :: 0 <= i < |s| ==> !IsCut(d, Scan(d, st, s[..i]), s[i])
  }

  /** Text that splits into nothing and leaves the splitter where it started. */
  predicate Clean(d: Dialect, s: string)
  {
    Scan(d, Start, s) == Start && NoCutFrom(d, Start, s)
  }

  /** Without cuts, the fold has only scanned. */
  lemma {:induction false} FoldNoCut(d: Dialect, s: string, n: nat)
    requires n <= |s| && NoCutFrom(d, Start, s[..n])
    ensures SplitFold(d, s, n) == Progress(Scan(d, Start, s[..n]), 0, [])
  {
    if n > 0 {
      var p := s[..n];
      var q := s[..n - 1];
      assert NoCutFrom(d, Start, q) by {
        forall i | 0 <= i < |q|
          ensures !IsCut(d, Scan(d, Start, q[..i]), q[i])
        {
          assert q[..i] == p[..i] && q[i] == p[i];
        }
      }
      FoldNoCut(d, s, n - 1);
      FoldState(d, s, n);
      assert p[..n - 1] == s[..n - 1] && p[n - 1] == s[n - 1];
    }
  }

  /** A splitter returns text with no cut as one trimmed piece, or nothing when it is empty. */
  lemma {:induction false} SplitSingle(d: Dialect, s: string)
    requires NoCutFrom(d, Start, s)
    ensures SplitTop(d, s) == if s == [] then [] else [JavaString.Trim(s)]
  {
    assert s[..|s|] == s;
    FoldNoCut(d, s, |s|);
    assert s[0..] == s;
    assert RawPieces(d, s) == if s == [] then [] else [s];
  }

  lemma {:induction false} NoCutAppend(d: Dialect, st: ScanState, a: string, b: string)
    requires NoCutFrom(d, st, a) && NoCutFrom(d, Scan(d, st, a), b)
    ensures NoCutFrom(d, st, a + b)
  {
    var s := a + b;
    forall i | 0 <= i < |s|
      ensures !IsCut(d, Scan(d, st, s[..i]), s[i])
    {
      if i < |a| {
        assert s[..i] == a[..i] && s[i] == a[i];
      } else {
        var j := i - |a|;
        assert s[..i] == a + b[..j] && s[i] == b[j];
        ScanAppend(d, st, a, b[..j]);
      }
    }
  }

  lemma {:induction false} CleanAppend(d: Dialect, a: string, b: string)
    requires Clean(d, a) && Clean(d, b)
    ensures Clean(d, a + b)
  {
    ScanAppend(d, Start, a, b);
    NoCutAppend(d, Start, a, b);
  }

  /** Characters that mean nothing to any splitter. */
  predicate Plain(c: char)
  {
    c !in {',', '"', '\\', '[', ']', '{', '}'}
  }

  lemma {:induction false} PlainScan(d: Dialect, st: ScanState, s: string)
    requires forall i :: 0 <= i < |s| ==> Plain(s[i])
    requires !st.escaped && !st.afterBackslash
    ensures Scan(d, st, s) == st && NoCutFrom(d, st, s)
    decreases |s|
  {
    if s != [] {
      assert Step(d, st, s[0]) == st;
      PlainScan(d, st, s[1..]);
      assert NoCutFrom(d, st, s) by {
        forall i | 0 <= i < |s|
          ensures !IsCut(d, Scan(d, st, s[..i]), s[i])
        {
          if i > 0 {
            assert s[..i] == [s[0]] + s[1..][..i - 1];
            ScanAppend(d, st, [s[0]], s[1..][..i - 1]);
            assert s[i] == s[1..][i - 1];
          }
        }
      }
    }
  }

  /** Text of plain characters is clean. */
  lemma {:induction false} CleanPlain(d: Dialect, s: string)
    requires forall i :: 0 <= i < |s| ==> Plain(s[i])
    ensures Clean(d, s)
  {
    PlainScan(d, Start, s);
  }

  /** Inside quotes, characters other than a quote or a backslash change nothing. */
  lemma {:induction false} QuotedScan(d: Dialect, s: string)
    requires '"' !in s && '\\' !in s
    ensures Scan(d, Start.(inQuotes := true), s) == Start.(inQuotes := true)
    ensures NoCutFrom(d, Start.(inQuotes := true), s)
    decreases |s|
  {
    var q := Start.(inQuotes := true);
    if s != [] {
      assert Step(d, q, s[0]) == q;
      QuotedScan(d, s[1..]);
      forall i | 0 <= i < |s|
        ensures !IsCut(d, Scan(d, q, s[..i]), s[i])
      {
        if i > 0 {
          assert s[..i] == [s[0]] + s[1..][..i - 1];
          ScanAppend(d, q, [s[0]], s[1..][..i - 1]);
          assert s[i] == s[1..][i - 1];
        }
      }
    }
  }

  /** A quoted string free of quotes and backslashes is clean, commas and brackets inside it included. */
  lemma {:induction false} CleanQuoted(d: Dialect, x: string)
    requires '"' !in x && '\\' !in x
    ensures Clean(d, "\"" + x + "\"")
  {
    var q := Start.(inQuotes := true);
    QuotedScan(d, x);
    assert Scan(d, Start, "\"") == q;
    assert NoCutFrom(d, Start, "\"");
    NoCutAppend(d, Start, "\"", x);
    ScanAppend(d, Start, "\"", x);
    assert Scan(d, q, "\"") == Start;
    assert NoCutFrom(d, q, "\"");
    NoCutAppend(d, Start, "\"" + x, "\"");
    ScanAppend(d, Start, "\"" + x, "\"");
  }

  // ------------------------------------------------------ splitting a join

  lemma {:induction false} CommaAtStart(d: Dialect)
    ensures IsCut(d, Start, ',') && Step(d, Start, ',') == Start
  {
  }

  /** The comma after a clean first piece is a cut. */
  lemma {:induction false} CutAfterClean(d: Dialect, a: string, b: string)
    requires Clean(d, a)
    ensures SplitFold(d, a + [','] + b, |a| + 1) == Progress(Start, |a| + 1, [a])
  {
    var s := a + [','] + b;
    assert s[..|a|] == a;
    FoldNoCut(d, s, |a|);
    CutAfter(d, s, |a|);
  }

  lemma {:induction false} CutAfter(d: Dialect, s: string, n: nat)
    requires n < |s| && s[n] == ',' && SplitFold(d, s, n) == Progress(Start, 0, [])
    ensures SplitFold(d, s, n + 1) == Progress(Start, n + 1, [s[..n]])
  {
    NextCut(d, s, n);
    assert SplitFold(d, s, n + 1) == Next(d, s, n, SplitFold(d, s, n));
  }

  lemma {:induction false} NextCut(d: Dialect, s: string, n: nat)
    requires n < |s| && s[n] == ','
    ensures Next(d, s, n, Progress(Start, 0, [])) == Progress(Start, n + 1, [s[..n]])
  {
    CommaAtStart(d);
    assert s[0..n] == s[..n];
  }

  /** After a comma at top level, the splitter carries on as if the text began there. */
  lemma {:induction false} ShiftAfterCut(d: Dialect, a: string, b: string, m: nat)
    requires Clean(d, a) && m <= |b|
    ensures var fb := SplitFold(d, b, m);
      SplitFold(d, a + [','] + b, |a| + 1 + m)
      == Progress(fb.st, fb.start + |a| + 1, [a] + fb.raw)
  {
    var s := a + [','] + b;
    CutAfterClean(d, a, b);
    assert s[|a| + 1..] == b;
    assert [a] + [] == [a];
    ShiftFrom(d, s, |a| + 1, b, [a], m);
  }

  /** `fs`, the progress over a text, matches `fb`, the progress over its part from offset `o` on, after the pieces `pre`. */
  predicate ShiftedBy(fs: Progress, fb: Progress, o: nat, pre: seq<string>)
  {
    fs.st == fb.st && fs.start == fb.start + o && fs.raw == pre + fb.raw
  }

  /**
   * Once the splitter over `s` reaches offset `o` settled, with the pieces
   * `pre` behind it, it reads the rest `b` as if `b` stood alone.
   */
  lemma {:induction false} ShiftFrom(d: Dialect, s: string, o: nat, b: string, pre: seq<string>, m: nat)
    requires o + |b| == |s| && s[o..] == b && m <= |b|
    requires ShiftedBy(SplitFold(d, s, o), SplitFold(d, b, 0), o, pre)
    ensures ShiftedBy(SplitFold(d, s, o + m), SplitFold(d, b, m), o, pre)
  {
    if m > 0 {
      ShiftFrom(d, s, o, b, pre, m - 1);
      NextShift(d, s, o, b, m - 1, SplitFold(d, s, o + (m - 1)), SplitFold(d, b, m - 1), pre);
    }
  }

  lemma {:induction false} NextShift(d: Dialect, s: string, o: nat, b: string, i: nat, fs: Progress, fb: Progress, pre: seq<string>)
    requires o + |b| == |s| && s[o..] == b && i < |b| && fb.start <= i
    requires ShiftedBy(fs, fb, o, pre)
    ensures fs.start <= o + i && ShiftedBy(Next(d, s, o + i, fs), Next(d, b, i, fb), o, pre)
  {
    assert s[o + i] == b[i];
    assert s[fs.start..o + i] == b[fb.start..i];
    assert pre + fb.raw + [b[fb.start..i]] == pre + (fb.raw + [b[fb.start..i]]);
  }

  /** Concatenation regrouped, kept apart so that callers need not unfold their own functions to see it. */
  lemma Regroup<T>(x: seq<T>, y: seq<T>, z: seq<T>)
    ensures (x + y) + z == x + (y + z)
  {
  }

  /** A clean first piece and a comma: the piece comes off the front. */
  lemma {:induction false} SplitCons(d: Dialect, a: string, b: string)
    requires Clean(d, a)
    ensures SplitTop(d, a + [','] + b) == [JavaString.Trim(a)] + SplitTop(d, b)
  {
    var s := a + [','] + b;
    ShiftAfterCut(d, a, b, |b|);
    var fb := SplitFold(d, b, |b|);
    var fs := SplitFold(d, s, |s|);
    assert fs == Progress(fb.st, fb.start + |a| + 1, [a] + fb.raw);
    var tail := if fb.start < |b| then [b[fb.start..]] else [];
    if fb.start < |b| {
      assert s[fs.start..] == b[fb.start..];
    }
    assert RawPieces(d, b) == fb.raw + tail;
    assert RawPieces(d, s) == ([a] + fb.raw) + tail;
    Regroup([a], fb.raw, tail);
    TrimAllAppend([a], RawPieces(d, b));
  }

  /** Clean pieces joined with commas split back into those pieces, trimmed. */
  lemma {:induction false} SplitJoined(d: Dialect, parts: seq<string>)
    requires forall i :: 0 <= i < |parts| ==> Clean(d, parts[i])
    requires parts != [] ==> parts[|parts| - 1] != []
    ensures SplitTop(d, JavaString.Join(parts, ',')) == TrimAll(parts)
  {
    if |parts| == 1 {
      assert JavaString.Join(parts, ',') == parts[0];
      SplitSingle(d, parts[0]);
    } else if |parts| > 1 {
      var rest := JavaString.Join(parts[1..], ',');
      SplitJoined(d, parts[1..]);
      SplitCons(d, parts[0], rest);
      assert JavaString.Join(parts, ',') == parts[0] + [','] + rest;
    } else {
      SplitSingle(d, "");
    }
  }

  // ================================== rows of a two-dimensional array

  /**
   * The loop state of `TypeParser.splitNestedArrays`: the bracket depth
   * (braces do not count here), quotes and escapes as in `Nested`, where
   * the current row starts, and the rows found so far.
   */
  datatype RowProgress = RowProgress(depth: int, inQuotes: bool, escaped: bool, start: nat, rows: seq<string>)

  const RowStart: RowProgress := RowProgress(0, false, false, 0, [])

  /** Reading `s[i]`: a `[` at depth 0 starts a row, the `]` that brings the depth back to 0 ends it. */
  function RowNext(s: string, i: nat, f: RowProgress): (g: RowProgress)
    requires i < |s| && f.start <= i
    ensures g.start <= i + 1
  {
    var c := s[i];
    if f.escaped then f.(escaped := false)
    else if c == '\\' then f.(escaped := true)
    else if c == '"' then f.(inQuotes := !f.inQuotes)
    else if f.inQuotes then f
    else if c == '[' then f.(depth := f.depth + 1, start := if f.depth == 0 then i else f.start)
    else if c == ']' then
      if f.depth == 1 then f.(depth := 0, rows := f.rows + [s[f.start..i + 1]])
      else f.(depth := f.depth - 1)
    else f
  }

  function RowsFold(s: string, n: nat): (f: RowProgress)
    requires n <= |s|
    ensures f.start <= n
  {
    if n == 0 then RowStart else RowNext(s, n - 1, RowsFold(s, n - 1))
  }

  /** The rows `splitNestedArrays` returns: each bracketed segment at depth 0, untrimmed, in order. */
  function SplitRows(s: string): seq<string>
  {
    RowsFold(s, |s|).rows
  }

  /** `splitNestedArrays`. */
  method SplitNestedArrays(content: string) returns (arrays: seq<string>)
    ensures arrays == SplitRows(content)
  {
    arrays := [];
    var depth := 0;
    var start := 0;
    var inQuotes := false;
    var escaped := false;
    var i := 0;
    while i < |content|
      invariant 0 <= i <= |content|
      invariant RowsFold(content, i) == RowProgress(depth, inQuotes, escaped, start, arrays)
    {
      assert RowsFold(content, i + 1) == RowNext(content, i, RowsFold(content, i));
      var c := content[i];
      if escaped {
        escaped := false;
      } else if c == '\\' {
        escaped := true;
      } else if c == '"' {
        inQuotes := !inQuotes;
      } else if !inQuotes {
        if c == '[' {
          if depth == 0 {
            start := i;
          }
          depth := depth + 1;
        } else if c == ']' {
          depth := depth - 1;
          if depth == 0 {
            arrays := arrays + [content[start..i + 1]];
          }
        }
      }
      i := i + 1;
    }
  }

  /** Every row begins with `[` and ends with `]`. */
  lemma {:induction false} RowsShape(s: string)
    ensures forall r :: r in SplitRows(s) ==> |r| >= 2 && r[0] == '[' && r[|r| - 1] == ']'
  {
    RowsFoldShape(s, |s|);
  }

  lemma {:induction false} RowsFoldShape(s: string, n: nat)
    requires n <= |s|
    ensures var f := RowsFold(s, n);
      (f.depth >= 1 ==> f.start < n && s[f.start] == '[')
      && forall r :: r in f.rows ==> |r| >= 2 && r[0] == '[' && r[|r| - 1] == ']'
  {
    if n > 0 {
      RowsFoldShape(s, n - 1);
      var f := RowsFold(s, n - 1);
      assert RowsFold(s, n) == RowNext(s, n - 1, f);
    }
  }

  /** The fold over a prefix does not look past it. */
  lemma {:induction false} RowsPrefix(s: string, t: string, n: nat)
    requires n <= |s| && n <= |t| && s[..n] == t[..n]
    ensures RowsFold(s, n) == RowsFold(t, n)
  {
    if n > 0 {
      assert s[..n - 1] == s[..n][..n - 1] && t[..n - 1] == t[..n][..n - 1];
      RowsPrefix(s, t, n - 1);
      var f := RowsFold(s, n - 1);
      assert s[n - 1] == s[..n][n - 1] && t[n - 1] == t[..n][n - 1];
      assert s[f.start..n] == s[..n][f.start..n];
      assert t[f.start..n] == t[..n][f.start..n];
      assert RowsFold(s, n) == RowNext(s, n - 1, f);
      assert RowsFold(t, n) == RowNext(t, n - 1, f);
    }
  }

  /** Outside every row, quotes and escapes: a new row can start right here. */
  predicate Settled(f: RowProgress)
  {
    f.depth == 0 && !f.inQuotes && !f.escaped
  }

  /** `fs`, the progress over `x + y`, matches `fy`, the progress over `y` alone, after the rows `pre` of `x`. */
  predicate Shifted(fs: RowProgress, fy: RowProgress, k: nat, pre: seq<string>)
  {
    fs.depth == fy.depth && fs.inQuotes == fy.inQuotes && fs.escaped == fy.escaped
    && fs.rows == pre + fy.rows
    && (fy.depth >= 1 ==> fs.start == fy.start + k)
  }

  lemma {:induction false} RowNextShift(x: string, y: string, i: nat, fs: RowProgress, fy: RowProgress, pre: seq<string>)
    requires i < |y| && fy.start <= i && fs.start <= |x| + i
    requires Shifted(fs, fy, |x|, pre)
    ensures Shifted(RowNext(x + y, |x| + i, fs), RowNext(y, i, fy), |x|, pre)
  {
    var s := x + y;
    assert s[|x| + i] == y[i];
    if fy.depth == 1 {
      assert s[fs.start..|x| + i + 1] == y[fy.start..i + 1];
    }
  }

  lemma {:induction false} RowsShift(x: string, y: string, m: nat)
    requires Settled(RowsFold(x, |x|)) && m <= |y|
    ensures Shifted(RowsFold(x + y, |x| + m), RowsFold(y, m), |x|, RowsFold(x, |x|).rows)
  {
    if m == 0 {
      assert (x + y)[..|x|] == x[..|x|];
      RowsPrefix(x + y, x, |x|);
    } else {
      RowsShift(x, y, m - 1);
      RowNextShift(x, y, m - 1, RowsFold(x + y, |x| + m - 1), RowsFold(y, m - 1), RowsFold(x, |x|).rows);
      assert RowsFold(x + y, |x| + m) == RowNext(x + y, |x| + m - 1, RowsFold(x + y, |x| + m - 1));
      assert RowsFold(y, m) == RowNext(y, m - 1, RowsFold(y, m - 1));
    }
  }

  /** After text that ends settled, the rows of what follows are found as if it stood alone. */
  lemma {:induction false} RowsAppend(x: string, y: string)
    requires Settled(RowsFold(x, |x|))
    ensures SplitRows(x + y) == SplitRows(x) + SplitRows(y)
  {
    var s := x + y;
    assert |s| == |x| + |y|;
    RowsShift(x, y, |y|);
    assert Shifted(RowsFold(s, |s|), RowsFold(y, |y|), |x|, RowsFold(x, |x|).rows);
  }

  /** A row body: nothing in it that brackets, quotes or escapes. */
  predicate RowBody(body: string)
  {
    '[' !in body && ']' !in body && '"' !in body && '\\' !in body
  }

  lemma {:induction false} InsideRow(r: string, n: nat)
    requires |r| >= 2 && r[0] == '[' && RowBody(r[1..|r| - 1])
    requires 1 <= n <= |r| - 1
    ensures RowsFold(r, n) == RowProgress(1, false, false, 0, [])
  {
    if n > 1 {
      InsideRow(r, n - 1);
      assert r[n - 1] == r[1..|r| - 1][n - 2];
      assert RowsFold(r, n) == RowNext(r, n - 1, RowsFold(r, n - 1));
    } else {
      assert RowsFold(r, 1) == RowNext(r, 0, RowStart);
    }
  }

  /** One bracketed row is one row, and leaves the splitter settled. */
  lemma {:induction false} SingleRow(body: string)
    requires RowBody(body)
    ensures var r := "[" + body + "]";
      RowsFold(r, |r|) == RowProgress(0, false, false, 0, [r])
  {
    var r := "[" + body + "]";
    assert r[1..|r| - 1] == body;
    InsideRow(r, |r| - 1);
    assert RowsFold(r, |r|) == RowNext(r, |r| - 1, RowsFold(r, |r| - 1));
    assert r[0..|r|] == r;
  }

  /** The separating comma is settled and holds no row. */
  lemma {:induction false} CommaRow()
    ensures RowsFold(",", 1) == RowStart
  {
    assert RowsFold(",", 1) == RowNext(",", 0, RowStart);
  }

  /** `splitNestedArrays` undoes joining rows with commas. */
  lemma {:induction false} RowsJoin(bodies: seq<string>)
    requires forall i :: 0 <= i < |bodies| ==> RowBody(bodies[i])
    ensures SplitRows(JavaString.Join(Bracket(bodies), ',')) == Bracket(bodies)
  {
    var rows := Bracket(bodies);
    if |rows| == 1 {
      SingleRow(bodies[0]);
    } else if |rows| > 1 {
      var rest := JavaString.Join(rows[1..], ',');
      assert rows[1..] == Bracket(bodies[1..]);
      RowsJoin(bodies[1..]);
      SingleRow(bodies[0]);
      CommaRow();
      RowsAppend(",", rest);
      RowsAppend(rows[0], [','] + rest);
      assert rows[0] + [','] + rest == rows[0] + ([','] + rest);
    }
  }

  /** Each body between brackets. */
  function Bracket(bodies: seq<string>): (rows: seq<string>)
    ensures |rows| == |bodies|
    ensures forall i :: 0 <= i < |bodies| ==> rows[i] == "[" + bodies[i] + "]"
  {
    if bodies == [] then [] else ["[" + bodies[0] + "]"] + Bracket(bodies[1..])
  }

  // ================================== objects of a JSON array of objects

  /** What `splitJsonObjects` skips after an object: commas and `Character.isWhitespace`. */
  predicate IsSeparator(c: char)
  {
    c == ',' || JavaString.IsJavaWhitespace(c)
  }

  /** The first position at or after `j` that does not hold a separator. */
  function SkipSeparators(s: string, j: nat): (k: nat)
    requires j <= |s|
    ensures j <= k <= |s|
    ensures k == |s| || !IsSeparator(s[k])
    decreases |s| - j
  {
    if j < |s| && IsSeparator(s[j]) then SkipSeparators(s, j + 1) else j
  }

  /**
   * `splitJsonObjects` from position `i` on: braces move the depth (quotes
   * are not looked at), and the `}` that brings it back to 0 closes the
   * object that began at `start`; the separators after it are skipped. The
   * objects are returned untrimmed, after those in `found`.
   */
  function Objects(s: string, i: nat, depth: int, start: nat, found: seq<string>): seq<string>
    requires start <= i <= |s|
    decreases |s| - i
  {
    if i == |s| then found
    else if s[i] == '{' then Objects(s, i + 1, depth + 1, start, found)
    else if s[i] == '}' then
      if depth == 1 then
        var k := SkipSeparators(s, i + 1);
        Objects(s, k, 0, k, found + [s[start..i + 1]])
      else Objects(s, i + 1, depth - 1, start, found)
    else Objects(s, i + 1, depth, start, found)
  }

  /** The objects `splitJsonObjects` returns, each trimmed. */
  function SplitObjects(s: string): seq<string>
  {
    TrimAll(Objects(s, 0, 0, 0, []))
  }

  /** `splitJsonObjects`. */
  method SplitJsonObjects(content: string) returns (objects: seq<string>)
    ensures objects == SplitObjects(content)
  {
    objects := [];
    ghost var raw: seq<string> := [];
    var depth := 0;
    var start := 0;
    var i := 0;
    while i < |content|
      invariant start <= i <= |content|
      invariant objects == TrimAll(raw)
      invariant Objects(content, i, depth, start, raw) == Objects(content, 0, 0, 0, [])
      decreases |content| - i
    {
      var c := content[i];
      if c == '{' {
        ObjectsNext(content, i, depth, start, raw);
        depth := depth + 1;
      } else if c == '}' {
        depth := depth - 1;
        if depth == 0 {
          ObjectsClose(content, i, start, raw);
          TrimAllSnoc(raw, content[start..i + 1]);
          objects := objects + [JavaString.Trim(content[start..i + 1])];
          raw := raw + [content[start..i + 1]];
          i := SkipAfter(content, i);
          start := i + 1;
        } else {
          ObjectsNext(content, i, depth + 1, start, raw);
        }
      } else {
        ObjectsNext(content, i, depth, start, raw);
      }
      i := i + 1;
    }
  }

  /** The inner loop of `splitJsonObjects`: moves `i` onto the last separator after it. */
  method SkipAfter(content: string, i: nat) returns (j: nat)
    requires i < |content|
    ensures i <= j < |content| && j + 1 == SkipSeparators(content, i + 1)
  {
    j := i;
    while j + 1 < |content| && IsSeparator(content[j + 1])
      invariant i <= j < |content|
      invariant SkipSeparators(content, j + 1) == SkipSeparators(content, i + 1)
      decreases |content| - j
    {
      j := j + 1;
    }
  }

  /** Any character but the `}` that closes an object moves the scan on by one, counting braces. */
  lemma {:induction false} ObjectsNext(s: string, i: nat, depth: int, start: nat, found: seq<string>)
    requires start <= i < |s| && !(s[i] == '}' && depth == 1)
    ensures Objects(s, i, depth, start, found)
         == Objects(s, i + 1, if s[i] == '{' then depth + 1 else if s[i] == '}' then depth - 1 else depth, start, found)
  {
  }

  /** The `}` that closes an object adds it to those found and skips the separators after it. */
  lemma {:induction false} ObjectsClose(s: string, i: nat, start: nat, found: seq<string>)
    requires start <= i < |s| && s[i] == '}'
    ensures var k := SkipSeparators(s, i + 1);
      k <= |s| && Objects(s, i, 1, start, found) == Objects(s, k, 0, k, found + [s[start..i + 1]])
  {
  }

  /** The objects found before are kept in front. */
  lemma {:induction false} ObjectsFound(s: string, i: nat, depth: int, start: nat, found: seq<string>)
    requires start <= i <= |s|
    ensures Objects(s, i, depth, start, found) == found + Objects(s, i, depth, start, [])
    decreases |s| - i
  {
    if i < |s| {
      if s[i] == '{' {
        ObjectsFound(s, i + 1, depth + 1, start, found);
        ObjectsFound(s, i + 1, depth + 1, start, []);
      } else if s[i] == '}' && depth == 1 {
        var k := SkipSeparators(s, i + 1);
        var o := s[start..i + 1];
        ObjectsFound(s, k, 0, k, found + [o]);
        ObjectsFound(s, k, 0, k, [o]);
        assert (found + [o]) + Objects(s, k, 0, k, []) == found + ([o] + Objects(s, k, 0, k, []));
        assert Objects(s, i, depth, start, found) == Objects(s, k, 0, k, found + [o]);
        assert [] + [o] == [o];
        assert Objects(s, i, depth, start, []) == Objects(s, k, 0, k, [o]);
      } else if s[i] == '}' {
        ObjectsFound(s, i + 1, depth - 1, start, found);
        ObjectsFound(s, i + 1, depth - 1, start, []);
      } else {
        ObjectsFound(s, i + 1, depth, start, found);
        ObjectsFound(s, i + 1, depth, start, []);
      }
    } else {
      assert found + [] == found;
    }
  }

  lemma {:induction false} SkipShift(p: string, y: string, j: nat)
    requires j <= |y|
    ensures SkipSeparators(p + y, |p| + j) == |p| + SkipSeparators(y, j)
    decreases |y| - j
  {
    if j < |y| {
      assert (p + y)[|p| + j] == y[j];
      SkipShift(p, y, j + 1);
    }
  }

  /** Text in front does not change how the rest splits. */
  lemma {:induction false} ObjectsShift(p: string, y: string, i: nat, depth: int, start: nat, found: seq<string>)
    requires start <= i <= |y|
    ensures Objects(p + y, |p| + i, depth, |p| + start, found) == Objects(y, i, depth, start, found)
    decreases |y| - i
  {
    var s := p + y;
    if i < |y| {
      assert s[|p| + i] == y[i];
      if y[i] == '{' {
        ObjectsShift(p, y, i + 1, depth + 1, start, found);
      } else if y[i] == '}' && depth == 1 {
        var k := SkipSeparators(y, i + 1);
        SkipShift(p, y, i + 1);
        assert s[|p| + start..|p| + i + 1] == y[start..i + 1];
        ObjectsShift(p, y, k, 0, k, found + [y[start..i + 1]]);
      } else if y[i] == '}' {
        ObjectsShift(p, y, i + 1, depth - 1, start, found);
      } else {
        ObjectsShift(p, y, i + 1, depth, start, found);
      }
    }
  }

  /** A JSON object with no nested object: braces around a brace-free body. */
  predicate Flat(o: string)
  {
    |o| >= 2 && o[0] == '{' && o[|o| - 1] == '}' && '{' !in o[1..|o| - 1] && '}' !in o[1..|o| - 1]
  }

  lemma {:induction false} InsideObject(s: string, n: nat, j: nat, found: seq<string>)
    requires n <= |s| && Flat(s[..n]) && 1 <= j <= n - 1
    ensures Objects(s, j, 1, 0, found) == Objects(s, n - 1, 1, 0, found)
    decreases n - j
  {
    if j < n - 1 {
      assert s[j] == s[..n][1..n - 1][j - 1];
      InsideObject(s, n, j + 1, found);
    }
  }

  /** A flat object at the front is split off whole, and the separators after it skipped. */
  lemma {:induction false} FirstObject(s: string, n: nat, found: seq<string>)
    requires n <= |s| && Flat(s[..n])
    ensures Objects(s, 0, 0, 0, found)
         == Objects(s, SkipSeparators(s, n), 0, SkipSeparators(s, n), found + [s[..n]])
  {
    var o := s[..n];
    assert s[0] == o[0] && s[n - 1] == o[n - 1];
    InsideObject(s, n, 1, found);
    assert s[0..n] == o;
  }

  /** Strings joined with a separator string between them. */
  function Interleave(parts: seq<string>, sep: string): string
  {
    if parts == [] then "" else if |parts| == 1 then parts[0] else parts[0] + sep + Interleave(parts[1..], sep)
  }

  /**
   * `splitJsonObjects` undoes joining flat objects with any run of commas
   * and whitespace between them.
   */
  lemma {:induction false} ObjectsJoin(objs: seq<string>, sep: string)
    requires forall i :: 0 <= i < |objs| ==> Flat(objs[i])
    requires forall i :: 0 <= i < |sep| ==> IsSeparator(sep[i])
    ensures Objects(Interleave(objs, sep), 0, 0, 0, []) == objs
  {
    if |objs| == 1 {
      var o := objs[0];
      assert o[..|o|] == o;
      FirstObject(o, |o|, []);
    } else if |objs| > 1 {
      var rest := Interleave(objs[1..], sep);
      ObjectsJoin(objs[1..], sep);
      InterleaveHead(objs[1..], sep);
      ObjectsAfterFlat(objs[0], sep, rest, objs[1..]);
      assert objs == [objs[0]] + objs[1..];
    }
  }

  /** Joined strings start where the first of them starts. */
  lemma {:induction false} InterleaveHead(parts: seq<string>, sep: string)
    requires parts != [] && parts[0] != []
    ensures Interleave(parts, sep) != [] && Interleave(parts, sep)[0] == parts[0][0]
  {
    if |parts| > 1 {
      assert Interleave(parts, sep) == parts[0] + (sep + Interleave(parts[1..], sep));
    }
  }

  /** A flat object and separators in front of text that starts a new object add that object in front. */
  lemma {:induction false} ObjectsAfterFlat(o: string, sep: string, rest: string, more: seq<string>)
    requires Flat(o) && rest != [] && rest[0] == '{'
    requires forall i :: 0 <= i < |sep| ==> IsSeparator(sep[i])
    requires Objects(rest, 0, 0, 0, []) == more
    ensures Objects(o + sep + rest, 0, 0, 0, []) == [o] + more
  {
    var s := o + sep + rest;
    assert s[..|o|] == o;
    FirstObject(s, |o|, []);
    assert [] + [s[..|o|]] == [o];
    assert s == (o + sep) + rest;
    assert s[|o|..|o| + |sep|] == sep;
    assert s[|o| + |sep|] == rest[0];
    SkipTo(s, |o|, sep);
    ObjectsShift(o + sep, rest, 0, 0, 0, [o]);
    ObjectsFound(rest, 0, 0, 0, [o]);
    assert |o + sep| == |o| + |sep|;
  }

  lemma {:induction false} SkipTo(s: string, n: nat, sep: string)
    requires n + |sep| < |s| && s[n..n + |sep|] == sep && !IsSeparator(s[n + |sep|])
    requires forall i :: 0 <= i < |sep| ==> IsSeparator(sep[i])
    ensures SkipSeparators(s, n) == n + |sep|
    decreases |sep|
  {
    if sep != [] {
      assert s[n] == sep[0];
      assert s[n + 1..n + 1 + |sep[1..]|] == sep[1..];
      SkipTo(s, n + 1, sep[1..]);
    }
  }

  /** The separator the test files put between objects, a comma and a space. */
  lemma {:induction false} CommaSpaceSplits(objs: seq<string>)
    requires forall i :: 0 <= i < |objs| ==> Flat(objs[i])
    ensures SplitObjects(Interleave(objs, ", ")) == objs
  {
    var sep := ", ";
    assert IsSeparator(sep[0]) && IsSeparator(sep[1]);
    SplitObjectsJoin(objs, sep);
  }

  /** Every object `splitJsonObjects` returns is a flat object, whole, when the input is flat objects joined by separators. */
  lemma {:induction false} SplitObjectsJoin(objs: seq<string>, sep: string)
    requires forall i :: 0 <= i < |objs| ==> Flat(objs[i])
    requires forall i :: 0 <= i < |sep| ==> IsSeparator(sep[i])
    ensures SplitObjects(Interleave(objs, sep)) == objs
  {
    ObjectsJoin(objs, sep);
    forall i | 0 <= i < |objs|
      ensures JavaString.Trim(objs[i]) == objs[i]
    {
      JavaString.TrimOfTrimmed(objs[i]);
    }
    TrimAllKeeps(objs);
  }

  /** Strings that are already trimmed come through `TrimAll` unchanged. */
  lemma {:induction false} TrimAllKeeps(xs: seq<string>)
    requires forall i :: 0 <= i < |xs| ==> JavaString.Trim(xs[i]) == xs[i]
    ensures TrimAll(xs) == xs
  {
    if xs != [] {
      assert JavaString.Trim(xs[0]) == xs[0];
      TrimAllKeeps(xs[1..]);
    }
  }
}
