/**
 * The few java.lang.String, Integer and Character operations the harness
 * relies on, written out with Java's exact edge cases.
 */
module JavaString {
  import opened Wrappers

  // ---------------------------------------------------------------- trim

  /** `String.trim` removes every character whose code is at most U+0020. */
  predicate IsTrimmable(c: char) { c <= ' ' }

  /** How many characters `trim` drops from the front. */
  function LeadCount(s: string): (k: nat)
    ensures k <= |s|
    ensures forall i :: 0 <= i < k ==> IsTrimmable(s[i])
    ensures k == |s| || !IsTrimmable(s[k])
  {
    if s != [] && IsTrimmable(s[0]) then 1 + LeadCount(s[1..]) else 0
  }

  /** How many characters `trim` drops from the back. */
  function TailCount(s: string): (k: nat)
    ensures k <= |s|
    ensures forall i :: |s| - k <= i < |s| ==> IsTrimmable(s[i])
    ensures k == |s| || !IsTrimmable(s[|s| - k - 1])
  {
    if s != [] && IsTrimmable(s[|s| - 1]) then 1 + TailCount(s[..|s| - 1]) else 0
  }

  function TrimStart(s: string): (r: string)
    ensures r == [] || !IsTrimmable(r[0])
  {
    s[LeadCount(s)..]
  }

  function TrimEnd(s: string): (r: string)
    ensures r == [] || !IsTrimmable(r[|r| - 1])
  {
    s[..|s| - TailCount(s)]
  }

  /** `s.trim()`. */
  function Trim(s: string): (r: string)
  {
    TrimEnd(TrimStart(s))
  }

  /** What `trim` keeps is a contiguous slice of its input. */
  lemma {:induction false} TrimSlice(s: string)
    ensures exists i, j :: 0 <= i <= j <= |s| && Trim(s) == s[i..j]
  {
    var t := TrimStart(s);
    var i := |s| - |t|;
    var r := TrimEnd(t);
    assert t == s[i..] && r == t[..|r|];
    assert Trim(s) == s[i..i + |r|];
  }

  /** `trim` never lengthens a string. */
  lemma {:induction false} TrimLength(s: string)
    ensures |Trim(s)| <= |s|
  {
    TrimSlice(s);
  }

  /** What `trim` keeps has no trimmable character at either end. */
  lemma {:induction false} TrimEnds(s: string)
    ensures Trim(s) == [] || (!IsTrimmable(Trim(s)[0]) && !IsTrimmable(Trim(s)[|Trim(s)| - 1]))
  {
    var t := TrimStart(s);
    var r := TrimEnd(t);
    if r != [] {
      assert r[0] == t[0] && !IsTrimmable(t[0]);
    }
  }

  /** A string with no trimmable character at either end is its own trim. */
  lemma {:induction false} TrimOfTrimmed(s: string)
    requires s == [] || (!IsTrimmable(s[0]) && !IsTrimmable(s[|s| - 1]))
    ensures Trim(s) == s
  {
  }

  /** Leading spaces do not change the trim. */
  lemma {:induction false} TrimLead(lead: string, s: string)
    requires forall i :: 0 <= i < |lead| ==> IsTrimmable(lead[i])
    ensures Trim(lead + s) == Trim(s)
  {
    assert TrimStart(lead + s) == TrimStart(s) by {
      TrimStartLead(lead, s);
    }
  }

  lemma {:induction false} TrimStartLead(lead: string, s: string)
    requires forall i :: 0 <= i < |lead| ==> IsTrimmable(lead[i])
    ensures TrimStart(lead + s) == TrimStart(s)
  {
    if lead != [] {
      assert (lead + s)[1..] == lead[1..] + s;
      TrimStartLead(lead[1..], s);
    } else {
      assert lead + s == s;
    }
  }

  lemma {:induction false} TrimIdempotent(s: string)
    ensures Trim(Trim(s)) == Trim(s)
  {
    TrimEnds(s);
    TrimOfTrimmed(Trim(s));
  }

  /** `s.trim().isEmpty()`: every character is trimmable. */
  lemma {:induction false} TrimEmptyIff(s: string)
    ensures Trim(s) == [] <==> forall i :: 0 <= i < |s| ==> IsTrimmable(s[i])
  {
    var t := TrimStart(s);
    if t != [] {
      assert !IsTrimmable(s[|s| - |t|]);
      assert TrimEnd(t) != [];
    }
  }

  // ------------------------------------------------------- prefixes, search

  predicate StartsWith(s: string, p: string) { |p| <= |s| && s[..|p|] == p }

  predicate EndsWith(s: string, p: string) { |p| <= |s| && s[|s| - |p|..] == p }

  /** `s.contains(p)`. */
  predicate Contains(s: string, p: string) { exists i :: 0 <= i <= |s| - |p| && OccursAt(s, p, i) }

  predicate OccursAt(s: string, p: string, i: nat) { i + |p| <= |s| && s[i..i + |p|] == p }

  /** `s.indexOf(c)`, as None for -1. */
  function IndexOf(s: string, c: char): (r: Option<nat>)
    ensures r.None? <==> c !in s
    ensures r.Some? ==> r.value < |s| && s[r.value] == c && c !in s[..r.value]
  {
    if s == [] then None
    else if s[0] == c then Some(0)
    else match IndexOf(s[1..], c)
      case None => None
      case Some(i) => Some(i + 1)
  }

  /** `s.substring(begin, end)`, which throws unless 0 <= begin <= end <= length. */
  function Substring(s: string, begin: int, end: int): (r: Result<string>)
    ensures r.Ok? <==> 0 <= begin <= end <= |s|
    ensures r.Ok? ==> r.value == s[begin..end]
  {
    if 0 <= begin <= end <= |s| then Ok(s[begin..end])
    else Throw(IndexOutOfBounds,
               "begin " + IntToString(begin) + ", end " + IntToString(end) + ", length " + IntToString(|s|))
  }

  // -------------------------------------------------------------- replace

  /**
   * `s.replace(pat, rep)` for a non-empty literal `pat`: every occurrence,
   * found left to right without overlapping, is replaced.
   */
  function ReplaceAll(s: string, pat: string, rep: string): (r: string)
    requires |pat| > 0
    decreases |s|
  {
    if |s| < |pat| then s
    else if s[..|pat|] == pat then rep + ReplaceAll(s[|pat|..], pat, rep)
    else [s[0]] + ReplaceAll(s[1..], pat, rep)
  }

  /** Replacing a pattern that does not occur changes nothing. */
  lemma {:induction false} ReplaceAbsent(s: string, pat: string, rep: string)
    requires |pat| > 0 && !Contains(s, pat)
    ensures ReplaceAll(s, pat, rep) == s
    decreases |s|
  {
    if |s| >= |pat| {
      assert s[0..|pat|] == s[..|pat|];
      assert !OccursAt(s, pat, 0);
      if !Contains(s[1..], pat) {
        ReplaceAbsent(s[1..], pat, rep);
      } else {
        var i :| 0 <= i <= |s[1..]| - |pat| && OccursAt(s[1..], pat, i);
        assert s[i + 1..i + 1 + |pat|] == s[1..][i..i + |pat|];
        assert OccursAt(s, pat, i + 1);
      }
    }
  }

  /** Replacing a single character by a string works character by character. */
  lemma {:induction false} ReplaceCharCons(c: char, rest: string, pat: char, rep: string)
    ensures ReplaceAll([c] + rest, [pat], rep)
         == (if c == pat then rep else [c]) + ReplaceAll(rest, [pat], rep)
  {
    var s := [c] + rest;
    assert s[..1] == [c];
    assert s[1..] == rest;
  }

  lemma {:induction false} ReplaceCharAppend(s: string, t: string, pat: char, rep: string)
    ensures ReplaceAll(s + t, [pat], rep) == ReplaceAll(s, [pat], rep) + ReplaceAll(t, [pat], rep)
    decreases |s|
  {
    if s == [] {
      assert s + t == t;
    } else {
      ReplaceCharCons(s[0], s[1..] + t, pat, rep);
      assert s + t == [s[0]] + (s[1..] + t);
      ReplaceCharAppend(s[1..], t, pat, rep);
      ReplaceCharCons(s[0], s[1..], pat, rep);
      assert s == [s[0]] + s[1..];
    }
  }

  /** `s.replace("x", "")` with a single character: the string without that character. */
  function RemoveChar(s: string, c: char): (r: string)
    ensures c !in r
    ensures |r| <= |s|
  {
    if s == [] then [] else (if s[0] == c then [] else [s[0]]) + RemoveChar(s[1..], c)
  }

  /** Every other character survives the removal. */
  lemma {:induction false} RemoveCharKeeps(s: string, c: char, x: char)
    requires x != c
    ensures x in RemoveChar(s, c) <==> x in s
    decreases |s|
  {
    if s != [] {
      RemoveCharKeeps(s[1..], c, x);
      assert s == [s[0]] + s[1..];
    }
  }

  lemma {:induction false} RemoveCharIsReplace(s: string, c: char)
    ensures ReplaceAll(s, [c], "") == RemoveChar(s, c)
    decreases |s|
  {
    if s != [] {
      ReplaceCharCons(s[0], s[1..], c, "");
      assert s == [s[0]] + s[1..];
      RemoveCharIsReplace(s[1..], c);
    }
  }

  lemma {:induction false} RemoveCharAppend(s: string, t: string, c: char)
    ensures RemoveChar(s + t, c) == RemoveChar(s, c) + RemoveChar(t, c)
    decreases |s|
  {
    if s == [] {
      assert s + t == t;
    } else {
      var head := if s[0] == c then [] else [s[0]];
      assert (s + t)[0] == s[0] && (s + t)[1..] == s[1..] + t;
      assert RemoveChar(s + t, c) == head + RemoveChar(s[1..] + t, c);
      RemoveCharAppend(s[1..], t, c);
      assert RemoveChar(s, c) == head + RemoveChar(s[1..], c);
      assert head + (RemoveChar(s[1..], c) + RemoveChar(t, c)) == (head + RemoveChar(s[1..], c)) + RemoveChar(t, c);
    }
  }

  /** Removing a character that does not occur changes nothing. */
  lemma {:induction false} RemoveCharAbsent(s: string, c: char)
    requires c !in s
    ensures RemoveChar(s, c) == s
    decreases |s|
  {
    if s != [] {
      RemoveCharAbsent(s[1..], c);
    }
  }

  // ---------------------------------------------------------------- split

  /** The pieces between separators; there is always one more piece than separators. */
  function Pieces(s: string, sep: char): (r: seq<string>)
    ensures |r| > 0
    ensures forall i :: 0 <= i < |r| ==> sep !in r[i]
  {
    if s == [] then [""]
    else
      var rest := Pieces(s[1..], sep);
      if s[0] == sep then [""] + rest else [[s[0]] + rest[0]] + rest[1..]
  }

  /** Joining with the separator, the inverse of `Pieces`. */
  function Join(parts: seq<string>, sep: char): string
  {
    if parts == [] then "" else if |parts| == 1 then parts[0] else parts[0] + [sep] + Join(parts[1..], sep)
  }

  /** A character that is not the separator and occurs in no part does not occur in the join. */
  lemma {:induction false} JoinExcludes(parts: seq<string>, sep: char, c: char)
    requires c != sep && forall i :: 0 <= i < |parts| ==> c !in parts[i]
    ensures c !in Join(parts, sep)
  {
    if |parts| > 1 {
      assert forall i :: 0 <= i < |parts| - 1 ==> c !in parts[1..][i] by {
        forall i | 0 <= i < |parts| - 1
          ensures c !in parts[1..][i]
        {
          assert parts[1..][i] == parts[i + 1];
        }
      }
      JoinExcludes(parts[1..], sep, c);
      assert c !in parts[0];
    }
  }

  /** The join starts where its first part starts. */
  lemma {:induction false} JoinFirst(parts: seq<string>, sep: char)
    requires parts != [] && parts[0] != []
    ensures Join(parts, sep) != [] && Join(parts, sep)[0] == parts[0][0]
  {
  }

  /** The join ends where its last part ends. */
  lemma {:induction false} JoinLast(parts: seq<string>, sep: char)
    requires parts != [] && parts[|parts| - 1] != []
    ensures Join(parts, sep) != []
    ensures Join(parts, sep)[|Join(parts, sep)| - 1] == parts[|parts| - 1][|parts[|parts| - 1]| - 1]
  {
    if |parts| > 1 {
      JoinLast(parts[1..], sep);
      assert Join(parts, sep) == parts[0] + [sep] + Join(parts[1..], sep);
    }
  }

  /** Joining one more part appends the separator and the part. */
  lemma {:induction false} JoinSnoc(parts: seq<string>, x: string, sep: char)
    ensures Join(parts + [x], sep) == if parts == [] then x else Join(parts, sep) + [sep] + x
  {
    if |parts| > 1 {
      assert (parts + [x])[1..] == parts[1..] + [x];
      JoinSnoc(parts[1..], x, sep);
    } else if |parts| == 1 {
      assert (parts + [x])[1..] == [x];
    }
  }

  lemma {:induction false} JoinPieces(s: string, sep: char)
    ensures Join(Pieces(s, sep), sep) == s
  {
    if s != [] {
      var rest := Pieces(s[1..], sep);
      JoinPieces(s[1..], sep);
      if s[0] != sep {
        var r := Pieces(s, sep);
        assert r[1..] == rest[1..];
      }
    }
  }

  lemma {:induction false} PiecesNoSep(s: string, sep: char)
    requires sep !in s
    ensures Pieces(s, sep) == [s]
  {
    if s != [] {
      PiecesNoSep(s[1..], sep);
      assert [s[0]] + s[1..] == s;
    }
  }

  /** A piece free of the separator, then the separator: the piece comes off the front. */
  lemma {:induction false} PiecesCons(p: string, sep: char, rest: string)
    requires sep !in p
    ensures Pieces(p + [sep] + rest, sep) == [p] + Pieces(rest, sep)
  {
    var s := p + [sep] + rest;
    if p != [] {
      assert s[1..] == p[1..] + [sep] + rest;
      PiecesCons(p[1..], sep, rest);
      assert [p[0]] + p[1..] == p;
    } else {
      assert s[1..] == rest;
    }
  }

  /** `Pieces` undoes `Join` when no part holds the separator. */
  lemma {:induction false} PiecesJoin(parts: seq<string>, sep: char)
    requires |parts| > 0 && forall i :: 0 <= i < |parts| ==> sep !in parts[i]
    ensures Pieces(Join(parts, sep), sep) == parts
  {
    if |parts| == 1 {
      PiecesNoSep(parts[0], sep);
    } else {
      PiecesJoin(parts[1..], sep);
      PiecesCons(parts[0], sep, Join(parts[1..], sep));
    }
  }

  /** Drops the empty strings at the end, as `split` with limit 0 does. */
  function DropTrailingEmpty(parts: seq<string>): (r: seq<string>)
    ensures |r| <= |parts| && r == parts[..|r|]
    ensures r == [] || r[|r| - 1] != ""
    ensures forall i :: |r| <= i < |parts| ==> parts[i] == ""
  {
    if parts != [] && parts[|parts| - 1] == "" then DropTrailingEmpty(parts[..|parts| - 1]) else parts
  }

  /**
   * `s.split(String.valueOf(sep))`: no separator gives `[s]` (so `""` gives
   * `[""]`); otherwise every piece, minus the trailing empty ones.
   */
  function Split(s: string, sep: char): (r: seq<string>)
  {
    if sep !in s then [s] else DropTrailingEmpty(Pieces(s, sep))
  }

  /** The pieces of `split` are the pieces of the string in order, at most one more than the separators. */
  lemma {:induction false} SplitPieces(s: string, sep: char)
    ensures Split(s, sep) == Pieces(s, sep)[..|Split(s, sep)|]
    ensures sep !in s ==> Split(s, sep) == [s]
    ensures forall i :: |Split(s, sep)| <= i < |Pieces(s, sep)| ==> Pieces(s, sep)[i] == ""
  {
    if sep !in s {
      PiecesNoSep(s, sep);
    }
  }

  /** `split` undoes `Join` when no part holds the separator and the last part is not empty. */
  lemma {:induction false} SplitJoin(parts: seq<string>, sep: char)
    requires |parts| > 0 && forall i :: 0 <= i < |parts| ==> sep !in parts[i]
    requires parts[|parts| - 1] != ""
    ensures Split(Join(parts, sep), sep) == parts
  {
    PiecesJoin(parts, sep);
    if |parts| > 1 {
      var s := Join(parts, sep);
      assert s[|parts[0]|] == sep;
    }
  }

  /** `s.split(":", 2)`: the text before the first separator and the rest, or `[s]`. */
  function SplitFirst(s: string, sep: char): (r: seq<string>)
    ensures |r| == 2 <==> sep in s
    ensures |r| == 1 ==> r[0] == s
    ensures |r| == 2 ==> r[0] + [sep] + r[1] == s && sep !in r[0]
  {
    match IndexOf(s, sep)
    case None => [s]
    case Some(i) =>
      assert s == s[..i] + [sep] + s[i + 1..];
      [s[..i], s[i + 1..]]
  }

  // --------------------------------------------------------------- integers

  const INT_MIN: int := -0x8000_0000
  const INT_MAX: int := 0x7FFF_FFFF
  const LONG_MIN: int := -0x8000_0000_0000_0000
  const LONG_MAX: int := 0x7FFF_FFFF_FFFF_FFFF

  predicate IsDigit(c: char) { '0' <= c <= '9' }

  predicate AllDigits(s: string) { forall i :: 0 <= i < |s| ==> IsDigit(s[i]) }

  /** The value of a string of decimal digits. */
  function DigitsValue(s: string): nat
    requires AllDigits(s)
  {
    if s == [] then 0 else DigitsValue(s[..|s| - 1]) * 10 + (s[|s| - 1] as int - '0' as int)
  }

  /** The decimal value of an optionally signed run of digits, or None. */
  function SignedValue(s: string): (r: Option<int>)
    ensures r.Some? ==> s != [] && AllDigits(if s[0] == '-' || s[0] == '+' then s[1..] else s)
  {
    if s == [] then None
    else if s[0] == '-' || s[0] == '+' then
      if |s| > 1 && AllDigits(s[1..]) then
        var v: int := DigitsValue(s[1..]);
        Some(if s[0] == '-' then -v else v)
      else None
    else if AllDigits(s) then Some(DigitsValue(s))
    else None
  }

  function NumberFormatError<T>(s: string): Result<T>
  {
    Throw(NumberFormat, "For input string: \"" + s + "\"")
  }

  /** `Integer.parseInt(s)`: a signed decimal in the 32-bit range, otherwise NumberFormatException. */
  function ParseInt(s: string): (r: Result<int>)
    ensures r.Ok? ==> INT_MIN <= r.value <= INT_MAX
    ensures r.Ok? ==> s != [] && (IsDigit(s[0]) || s[0] == '-' || s[0] == '+')
    ensures r.Err? ==> r.error.kind == NumberFormat
  {
    match SignedValue(s)
    case Some(v) => if INT_MIN <= v <= INT_MAX then Ok(v) else NumberFormatError(s)
    case None => NumberFormatError(s)
  }

  /** `Long.parseLong(s)`: the same grammar over the 64-bit range. */
  function ParseLong(s: string): (r: Result<int>)
    ensures r.Ok? ==> LONG_MIN <= r.value <= LONG_MAX
    ensures r.Err? ==> r.error.kind == NumberFormat
  {
    match SignedValue(s)
    case Some(v) => if LONG_MIN <= v <= LONG_MAX then Ok(v) else NumberFormatError(s)
    case None => NumberFormatError(s)
  }

  /** A 32-bit parse that succeeds is also a 64-bit parse with the same value. */
  lemma {:induction false} ParseIntIsLong(s: string)
    requires ParseInt(s).Ok?
    ensures ParseLong(s) == ParseInt(s)
  {
  }

  function NatToString(n: nat): (r: string)
    ensures |r| > 0 && AllDigits(r)
  {
    (if n < 10 then "" else NatToString(n / 10)) + [('0' as int + n % 10) as char]
  }

  /** `Integer.toString(n)` / `Long.toString(n)`. */
  function IntToString(n: int): string
  {
    if n < 0 then "-" + NatToString(-n) else NatToString(n)
  }

  lemma {:induction false} NatToStringValue(n: nat)
    ensures DigitsValue(NatToString(n)) == n
  {
    var s := NatToString(n);
    var prefix := if n < 10 then "" else NatToString(n / 10);
    assert s == prefix + [('0' as int + n % 10) as char];
    assert s[..|s| - 1] == prefix;
    assert s[|s| - 1] as int - '0' as int == n % 10;
    if n >= 10 {
      NatToStringValue(n / 10);
    }
    assert DigitsValue(prefix) == n / 10;
    assert n / 10 * 10 + n % 10 == n;
  }

  /** `Integer.toString` writes exactly the digits and sign that the parsers read back. */
  lemma {:induction false} SignedValueOfIntToString(n: int)
    ensures SignedValue(IntToString(n)) == Some(n)
  {
    if n < 0 {
      var d := NatToString(-n);
      var s := "-" + d;
      assert SignedValue(s) == Some(n) by {
        NatToStringValue(-n);
        assert s[0] == '-' && s[1..] == d;
      }
      assert IntToString(n) == s;
    } else {
      var d := NatToString(n);
      assert SignedValue(d) == Some(n) by {
        NatToStringValue(n);
        assert IsDigit(d[0]);
      }
      assert IntToString(n) == d;
    }
  }

  /** `Integer.parseInt(Integer.toString(n)) == n` for every 32-bit `n`. */
  lemma {:induction false} ParseIntToString(n: int)
    requires INT_MIN <= n <= INT_MAX
    ensures ParseInt(IntToString(n)) == Ok(n)
  {
    SignedValueOfIntToString(n);
  }

  /** `Long.parseLong(Long.toString(n)) == n` for every 64-bit `n`. */
  lemma {:induction false} ParseLongToString(n: int)
    requires LONG_MIN <= n <= LONG_MAX
    ensures ParseLong(IntToString(n)) == Ok(n)
  {
    SignedValueOfIntToString(n);
  }

  // ---------------------------------------------------------------- doubles

  /** How many decimal digits `s` starts with. */
  function DigitRun(s: string): (k: nat)
    ensures k <= |s| && AllDigits(s[..k])
    ensures k < |s| ==> !IsDigit(s[k])
  {
    if s == [] || !IsDigit(s[0]) then 0
    else
      var k := 1 + DigitRun(s[1..]);
      assert s[..k] == [s[0]] + s[1..][..k - 1];
      k
  }

  /** Where an optional exponent starting at `b` ends: None when `e` or `E` is not followed by digits. */
  function ExponentEnd(u: string, b: nat): (r: Option<nat>)
    requires b <= |u|
    ensures r.Some? ==> b <= r.value <= |u|
  {
    if b < |u| && (u[b] == 'e' || u[b] == 'E') then
      var d := if b + 1 < |u| && (u[b + 1] == '+' || u[b + 1] == '-') then b + 2 else b + 1;
      var k := DigitRun(u[d..]);
      if k == 0 then None else Some(d + k)
    else Some(b)
  }

  /**
   * An unsigned decimal literal as `Double.parseDouble` reads it: digits,
   * an optional point and fraction digits, at least one digit in all, an
   * optional exponent, and an optional one-letter type suffix.
   */
  predicate DecimalLiteral(u: string)
  {
    var a := DigitRun(u);
    var b := if a < |u| && u[a] == '.' then a + 1 + DigitRun(u[a + 1..]) else a;
    (a > 0 || b > a + 1) &&
    var e := ExponentEnd(u, b);
    e.Some? && (e.value == |u| || (e.value == |u| - 1 && u[e.value] in "fFdD"))
  }

  /** The text `Double.parseDouble` accepts after trimming: an optional sign, then `NaN`, `Infinity` or a decimal literal. */
  predicate DoubleLiteral(t: string)
  {
    var u := if t != [] && (t[0] == '+' || t[0] == '-') then t[1..] else t;
    u == "NaN" || u == "Infinity" || DecimalLiteral(u)
  }

  /**
   * `Double.parseDouble(s)`, keeping the literal as text: the trimmed text
   * when it is a literal; NumberFormatException otherwise, with the message
   * `empty String` for blank text.
   */
  function ParseDouble(s: string): (r: Result<string>)
    ensures r.Ok? <==> DoubleLiteral(Trim(s))
    ensures r.Ok? ==> r.value == Trim(s)
    ensures r.Err? ==> r.error.kind == NumberFormat
  {
    var t := Trim(s);
    if t == [] then Throw(NumberFormat, "empty String")
    else if DoubleLiteral(t) then Ok(t)
    else NumberFormatError(t)
  }

  lemma {:induction false} DigitRunAll(s: string)
    requires AllDigits(s)
    ensures DigitRun(s) == |s|
  {
  }

  /** Every decimal integer, as `Integer.toString` writes it, is also a double literal. */
  lemma {:induction false} ParseDoubleOfInt(n: int)
    ensures ParseDouble(IntToString(n)) == Ok(IntToString(n))
  {
    var s := IntToString(n);
    var u := if n < 0 then NatToString(-n) else NatToString(n);
    assert s == if n < 0 then "-" + u else u;
    DigitRunAll(u);
    assert DecimalLiteral(u);
    assert s[0] == '-' || s[0] == u[0];
    assert DoubleLiteral(s);
    TrimOfTrimmed(s);
  }

  // ------------------------------------------------------------ characters

  /** `Character.isWhitespace(c)`: space separators other than the no-break ones, and the ASCII controls 9-13, 28-31. */
  predicate IsJavaWhitespace(c: char)
  {
    c == ' ' || ('\t' <= c <= '\r') || ('\U{1C}' <= c <= '\U{1F}')
    || c == '\U{1680}' || ('\U{2000}' <= c <= '\U{2006}') || ('\U{2008}' <= c <= '\U{200A}')
    || c == '\U{2028}' || c == '\U{2029}' || c == '\U{205F}' || c == '\U{3000}'
  }

  /** The regex class `\s`: `[ \t\n\x0B\f\r]`. */
  predicate IsRegexSpace(c: char)
  {
    c == ' ' || c == '\t' || c == '\n' || c == '\U{B}' || c == '\U{C}' || c == '\r'
  }

  /**
   * The ASCII word class `\b` uses: letters, digits and underscore. Java's
   * `\b` also treats a non-spacing mark after a letter or digit as a word
   * character; that rule is not part of this predicate.
   */
  predicate IsWordChar(c: char)
  {
    ('a' <= c <= 'z') || ('A' <= c <= 'Z') || ('0' <= c <= '9') || c == '_'
  }

  function ToLowerAscii(c: char): char
  {
    if 'A' <= c <= 'Z' then (c as int + 32) as char else c
  }

  /** `Boolean.parseBoolean(s.toLowerCase())`: true exactly for `true` in any case. */
  predicate ParsesAsTrue(s: string)
  {
    |s| == 4 && ToLowerAscii(s[0]) == 't' && ToLowerAscii(s[1]) == 'r'
    && ToLowerAscii(s[2]) == 'u' && ToLowerAscii(s[3]) == 'e'
  }

  /** String concatenation renders Java `null` as the four letters `null`. */
  function OrNull(s: Option<string>): string
  {
    if s.Some? then s.value else "null"
  }
}
