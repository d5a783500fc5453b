/**
 * `JsonProcessor` of the `shared` package: the reader of test files. It
 * reads a restricted subset of JSON (RFC 8259): an array of objects whose
 * values are null, booleans, numbers, strings, arrays and objects. Values
 * are classified by their text (no grammar is checked), the splitters are
 * the `JsonNested` comma splitter of `Scanner`, and strings are unescaped
 * as section 7 of RFC 8259 describes.
 *
 * The reader is specified by recursive functions (`ParseJsonValue`,
 * `ParseJsonArray`, `ParseJsonObjectRaw`); the loops of the source that
 * build strings and lists are methods proved equal to those functions.
 * The central theorem is a round trip: every value built from null,
 * booleans, longs, strings, lists and objects with plain keys is read back
 * from the text `objectToJsonString` writes for it.
 */
module JsonProcessor {
  import opened Wrappers
  import JavaString
  import opened JavaValue
  import Scanner

  /** A `Map<String, V>`, as its entries in iteration order. */
  type Entries<V> = seq<(string, V)>

  // ============================================================== maps

  /** `map.get(key)`. */
  function Lookup<V>(entries: Entries<V>, key: string): (r: Option<V>)
    ensures r.None? <==> forall i :: 0 <= i < |entries| ==> entries[i].0 != key
  {
    if entries == [] then None
    else if entries[0].0 == key then Some(entries[0].1)
    else Lookup(entries[1..], key)
  }

  /** No key occurs twice. */
  predicate DistinctKeys<V>(entries: Entries<V>)
  {
    forall i, j :: 0 <= i < j < |entries| ==> entries[i].0 != entries[j].0
  }

  /**
   * `map.put(key, value)`: a key already present keeps its place and takes
   * the new value; a new key goes last.
   */
  function Put<V>(entries: Entries<V>, key: string, value: V): (r: Entries<V>)
    ensures Lookup(r, key) == Some(value)
    ensures forall k :: k != key ==> Lookup(r, k) == Lookup(entries, k)
    ensures Lookup(entries, key).None? ==> r == entries + [(key, value)]
  {
    if entries == [] then [(key, value)]
    else if entries[0].0 == key then [(key, value)] + entries[1..]
    else [entries[0]] + Put(entries[1..], key, value)
  }

  /** `put` keeps the keys distinct. */
  lemma {:induction false} PutDistinct<V>(entries: Entries<V>, key: string, value: V)
    requires DistinctKeys(entries)
    ensures DistinctKeys(Put(entries, key, value))
  {
    if entries != [] && entries[0].0 != key {
      var rest := Put(entries[1..], key, value);
      PutDistinct(entries[1..], key, value);
      assert Lookup(entries[1..], entries[0].0).None?;
      assert Put(entries, key, value) == [entries[0]] + rest;
    }
  }

  // ========================================================== escaping

  const BACKSPACE: char := 8 as char
  const FORM_FEED: char := 12 as char

  /** The replacements `escapeJsonString` makes, in the order it makes them. */
  const ESCAPES: seq<(char, string)> :=
    [('\\', "\\\\"), ('"', "\\\""), (BACKSPACE, "\\b"), (FORM_FEED, "\\f"),
     ('\n', "\\n"), ('\r', "\\r"), ('\t', "\\t")]

  /** `s.replace(c1, r1).replace(c2, r2)...`: each replacement over the whole text, in turn. */
  function ReplaceEach(s: string, rules: seq<(char, string)>): string
    decreases |rules|
  {
    if rules == [] then s
    else ReplaceEach(JavaString.ReplaceAll(s, [rules[0].0], rules[0].1), rules[1..])
  }

  /** `escapeJsonString(s)` (never called with null). */
  function Escape(s: string): string
  {
    ReplaceEach(s, ESCAPES)
  }

  /** How one character is written inside a JSON string: the reference `Escape` is checked against. */
  function EscapeChar(c: char): string
  {
    if c == '\\' then "\\\\"
    else if c == '"' then "\\\""
    else if c == BACKSPACE then "\\b"
    else if c == FORM_FEED then "\\f"
    else if c == '\n' then "\\n"
    else if c == '\r' then "\\r"
    else if c == '\t' then "\\t"
    else [c]
  }

  /** Every character escaped on its own. */
  function EscapeEach(s: string): string
  {
    if s == [] then [] else EscapeChar(s[0]) + EscapeEach(s[1..])
  }

  lemma {:induction false} ReplaceCharAbsent(s: string, p: char, rep: string)
    requires p !in s
    ensures JavaString.ReplaceAll(s, [p], rep) == s
  {
    if s != [] {
      JavaString.ReplaceCharCons(s[0], s[1..], p, rep);
      ReplaceCharAbsent(s[1..], p, rep);
      assert [s[0]] + s[1..] == s;
    }
  }

  lemma {:induction false} ReplaceEachAbsent(s: string, rules: seq<(char, string)>)
    requires forall k :: 0 <= k < |rules| ==> rules[k].0 !in s
    ensures ReplaceEach(s, rules) == s
    decreases |rules|
  {
    if rules != [] {
      ReplaceCharAbsent(s, rules[0].0, rules[0].1);
      ReplaceEachAbsent(s, rules[1..]);
    }
  }

  lemma {:induction false} ReplaceEachAppend(a: string, b: string, rules: seq<(char, string)>)
    ensures ReplaceEach(a + b, rules) == ReplaceEach(a, rules) + ReplaceEach(b, rules)
    decreases |rules|
  {
    if rules != [] {
      var (p, rep) := rules[0];
      JavaString.ReplaceCharAppend(a, b, p, rep);
      ReplaceEachAppend(JavaString.ReplaceAll(a, [p], rep), JavaString.ReplaceAll(b, [p], rep), rules[1..]);
    }
  }

  /**
   * A character that the `k`-th rule is the first to match becomes that
   * rule's replacement, and the later rules leave the replacement alone.
   */
  lemma {:induction false} ReplaceEachHit(c: char, rules: seq<(char, string)>, k: nat)
    requires k < |rules| && rules[k].0 == c
    requires forall j :: 0 <= j < k ==> rules[j].0 != c
    requires forall j :: k < j < |rules| ==> rules[j].0 !in rules[k].1
    ensures ReplaceEach([c], rules) == rules[k].1
    decreases k
  {
    JavaString.ReplaceCharCons(c, [], rules[0].0, rules[0].1);
    assert [c] + [] == [c];
    assert forall j :: 0 <= j < |rules[1..]| ==> rules[1..][j] == rules[j + 1];
    if k == 0 {
      assert JavaString.ReplaceAll([], [c], rules[0].1) == [];
      assert JavaString.ReplaceAll([c], [c], rules[0].1) == rules[0].1;
      ReplaceEachAbsent(rules[0].1, rules[1..]);
      assert ReplaceEach([c], rules) == ReplaceEach(JavaString.ReplaceAll([c], [c], rules[0].1), rules[1..]);
    } else {
      assert JavaString.ReplaceAll([c], [rules[0].0], rules[0].1) == [c];
      ReplaceEachHit(c, rules[1..], k - 1);
    }
  }

  /** The chain of replacements escapes a single character as `EscapeChar` does. */
  lemma {:induction false} EscapeOne(c: char)
    ensures Escape([c]) == EscapeChar(c)
  {
    if c == '\\' {
      ReplaceEachHit(c, ESCAPES, 0);
    } else if c == '"' {
      ReplaceEachHit(c, ESCAPES, 1);
    } else if c == BACKSPACE {
      ReplaceEachHit(c, ESCAPES, 2);
    } else if c == FORM_FEED {
      ReplaceEachHit(c, ESCAPES, 3);
    } else if c == '\n' {
      ReplaceEachHit(c, ESCAPES, 4);
    } else if c == '\r' {
      ReplaceEachHit(c, ESCAPES, 5);
    } else if c == '\t' {
      ReplaceEachHit(c, ESCAPES, 6);
    } else {
      ReplaceEachAbsent([c], ESCAPES);
    }
  }

  /**
   * `escapeJsonString` escapes character by character: a replacement never
   * produces text that a later replacement rewrites.
   */
  lemma {:induction false} EscapeByChar(s: string)
    ensures Escape(s) == EscapeEach(s)
  {
    if s != [] {
      ReplaceEachAppend([s[0]], s[1..], ESCAPES);
      assert [s[0]] + s[1..] == s;
      EscapeOne(s[0]);
      EscapeByChar(s[1..]);
      calc {
        Escape(s);
        ReplaceEach([s[0]] + s[1..], ESCAPES);
        ReplaceEach([s[0]], ESCAPES) + ReplaceEach(s[1..], ESCAPES);
        EscapeChar(s[0]) + EscapeEach(s[1..]);
      }
    } else {
      ReplaceEachAbsent(s, ESCAPES);
    }
  }

  // ======================================================== unescaping

  /** The character `\x` stands for, for the one-letter escapes of section 7 of RFC 8259. */
  function SimpleEscape(x: char): (r: Option<char>)
    ensures r.Some? <==> x in "\"\\/bfnrt"
  {
    if x == '"' then Some('"')
    else if x == '\\' then Some('\\')
    else if x == '/' then Some('/')
    else if x == 'b' then Some(BACKSPACE)
    else if x == 'f' then Some(FORM_FEED)
    else if x == 'n' then Some('\n')
    else if x == 'r' then Some('\r')
    else if x == 't' then Some('\t')
    else None
  }

  predicate IsHexDigit(c: char)
  {
    '0' <= c <= '9' || 'a' <= c <= 'f' || 'A' <= c <= 'F'
  }

  function HexDigit(c: char): (v: nat)
    requires IsHexDigit(c)
    ensures v < 16
  {
    if '0' <= c <= '9' then c as int - '0' as int
    else if 'a' <= c <= 'f' then c as int - 'a' as int + 10
    else c as int - 'A' as int + 10
  }

  predicate AllHex(h: string)
  {
    forall i :: 0 <= i < |h| ==> IsHexDigit(h[i])
  }

  /** The value of a run of hexadecimal digits. */
  function HexDigitsValue(h: string): (v: nat)
    requires AllHex(h)
  {
    if h == [] then 0 else HexDigitsValue(h[..|h| - 1]) * 16 + HexDigit(h[|h| - 1])
  }

  /** `Integer.parseInt(h, 16)`: an optional sign and at least one hexadecimal digit. */
  function HexValue(h: string): (r: Option<int>)
  {
    if h != [] && (h[0] == '-' || h[0] == '+') then
      if |h| > 1 && AllHex(h[1..]) then
        var v: int := HexDigitsValue(h[1..]);
        Some(if h[0] == '-' then -v else v)
      else None
    else if h != [] && AllHex(h) then Some(HexDigitsValue(h))
    else None
  }

  /**
   * The character a `\uXXXX` escape stands for: the value of the four
   * characters, cast to a 16-bit `char`. None when they are not a number,
   * or when the code unit is a UTF-16 surrogate, which has no Dafny `char`.
   */
  function UnicodeEscape(h: string): Option<char>
  {
    match HexValue(h)
    case None => None
    case Some(v) =>
      var code := v % 0x1_0000;
      if 0xD800 <= code < 0xE000 then None else Some(code as char)
  }

  /**
   * What `unescapeJsonString` appends for the text at `i`, and how many
   * characters it consumes: a backslash and a known letter, or `\u` and
   * four characters that form a code unit, give one character; any other
   * character, a backslash included, is copied.
   */
  function Token(u: string, i: nat): (t: (char, nat))
    requires i < |u|
    ensures 1 <= t.1 <= |u| - i
  {
    if u[i] == '\\' && i + 1 < |u| && SimpleEscape(u[i + 1]).Some? then
      (SimpleEscape(u[i + 1]).value, 2)
    else if u[i] == '\\' && i + 5 < |u| && u[i + 1] == 'u' && UnicodeEscape(u[i + 2..i + 6]).Some? then
      (UnicodeEscape(u[i + 2..i + 6]).value, 6)
    else (u[i], 1)
  }

  /** The decoded text from position `i` on. */
  function DecodedFrom(u: string, i: nat): string
    decreases |u| - i
  {
    if i >= |u| then [] else var t := Token(u, i); [t.0] + DecodedFrom(u, i + t.1)
  }

  /** `u` with its escapes decoded, read left to right. */
  function Decoded(u: string): string
  {
    DecodedFrom(u, 0)
  }

  /** One token more: what the decoding loop keeps invariant. */
  lemma {:induction false} Advance(u: string, i: nat, out: string)
    requires i < |u|
    ensures (out + [Token(u, i).0]) + DecodedFrom(u, i + Token(u, i).1) == out + DecodedFrom(u, i)
  {
    var t := Token(u, i);
    assert DecodedFrom(u, i) == [t.0] + DecodedFrom(u, i + t.1);
  }

  /** Text in front does not change how the rest decodes. */
  lemma {:induction false} DecodedShift(p: string, q: string, j: nat)
    requires j <= |q|
    ensures DecodedFrom(p + q, |p| + j) == DecodedFrom(q, j)
    decreases |q| - j
  {
    if j < |q| {
      var t := Token(q, j);
      var n := j + t.1;
      TokenShift(p, q, j);
      DecodedShift(p, q, n);
      DecodedStep(p + q, |p| + j, t, |p| + n);
      DecodedStep(q, j, t, n);
    }
  }

  /** One step of the decoded text: the token `t` at `i`, then the rest from `n`. */
  lemma {:induction false} DecodedStep(u: string, i: nat, t: (char, nat), n: nat)
    requires i < |u| && t == Token(u, i) && n == i + t.1
    ensures DecodedFrom(u, i) == [t.0] + DecodedFrom(u, n)
  {
  }

  /** Text in front does not change the token read at a position. */
  lemma {:induction false} TokenShift(p: string, q: string, j: nat)
    requires j < |q|
    ensures Token(p + q, |p| + j) == Token(q, j)
  {
    var s := p + q;
    var i := |p| + j;
    assert s[i] == q[j];
    if j + 1 < |q| {
      assert s[i + 1] == q[j + 1];
    }
    if j + 5 < |q| {
      assert s[i + 2..i + 6] == q[j + 2..j + 6];
    }
  }

  /** Text that starts and ends with a double quote (a lone quote does both). */
  predicate QuotedText(s: string)
  {
    JavaString.StartsWith(s, "\"") && JavaString.EndsWith(s, "\"")
  }

  /**
   * `unescapeJsonString(value)` (never called with null): one pair of
   * surrounding quotes is removed, then the escapes are decoded. A lone
   * `"` makes `substring(1, 0)` throw.
   */
  function Unescape(value: string): (r: Result<string>)
    ensures r.Err? <==> value == "\""
    ensures r.Err? ==> r.error.kind == IndexOutOfBounds
  {
    if value == [] then Ok(value)
    else if QuotedText(value) then
      match JavaString.Substring(value, 1, |value| - 1)
      case Err(e) => Err(e)
      case Ok(u) => Ok(Decoded(u))
    else Ok(Decoded(value))
  }

  /** `unescapeJsonString`: the quote check, then the decoding pass. */
  method UnescapeJsonString(value: string) returns (r: Result<string>)
    ensures r == Unescape(value)
  {
    if value == [] {
      return Ok(value);
    }
    var u := value;
    if QuotedText(value) {
      var inner := JavaString.Substring(value, 1, |value| - 1);
      if inner.Err? {
        return Err(inner.error);
      }
      u := inner.value;
    }
    var out := DecodeEscapes(u);
    return Ok(out);
  }

  /** The loop of `unescapeJsonString`: one pass over the text, appending to a buffer. */
  method DecodeEscapes(u: string) returns (out: string)
    ensures out == Decoded(u)
  {
    out := "";
    var i := 0;
    while i < |u|
      invariant 0 <= i <= |u|
      invariant out + DecodedFrom(u, i) == Decoded(u)
      decreases |u| - i
    {
      Advance(u, i, out);
      ghost var t := Token(u, i);
      var c := u[i];
      if c == '\\' && i + 1 < |u| && SimpleEscape(u[i + 1]).Some? {
        assert t == (SimpleEscape(u[i + 1]).value, 2);
        out := out + [SimpleEscape(u[i + 1]).value];
        i := i + 2;
      } else if c == '\\' && i + 5 < |u| && u[i + 1] == 'u' && UnicodeEscape(u[i + 2..i + 6]).Some? {
        assert t == (UnicodeEscape(u[i + 2..i + 6]).value, 6);
        out := out + [UnicodeEscape(u[i + 2..i + 6]).value];
        i := i + 6;
      } else {
        assert t == (c, 1);
        out := out + [c];
        i := i + 1;
      }
    }
  }

  /** Decoding undoes escaping, character by character. */
  lemma {:induction false} DecodeEscaped(s: string)
    ensures Decoded(EscapeEach(s)) == s
  {
    if s != [] {
      var c := s[0];
      var e := EscapeChar(c);
      var rest := EscapeEach(s[1..]);
      assert EscapeEach(s) == e + rest;
      assert Token(e + rest, 0) == (c, |e|);
      DecodedShift(e, rest, 0);
      DecodeEscaped(s[1..]);
      assert [c] + s[1..] == s;
    }
  }

  /**
   * `unescapeJsonString("\"" + escapeJsonString(s) + "\"") == s` for every
   * string: the writer's escaping is undone by the reader.
   */
  lemma {:induction false} EscapeRoundTrip(s: string)
    ensures Unescape("\"" + Escape(s) + "\"") == Ok(s)
  {
    var t := "\"" + Escape(s) + "\"";
    EscapeByChar(s);
    DecodeEscaped(s);
    assert t[..1] == "\"" && t[|t| - 1..] == "\"";
    assert t[1..|t| - 1] == Escape(s);
  }

  /** A backslash before a character that is not an escape letter is kept, with that character. */
  lemma {:induction false} UnknownEscapeKept(x: char, rest: string)
    requires SimpleEscape(x).None? && x != 'u'
    ensures Decoded(['\\', x] + rest) == ['\\', x] + Decoded(rest)
  {
    var u := ['\\', x] + rest;
    assert Token(u, 0) == ('\\', 1);
    assert Token(u, 1) == (x, 1);
    DecodedShift(['\\', x], rest, 0);
    assert DecodedFrom(u, 1) == [x] + DecodedFrom(u, 2);
    assert DecodedFrom(u, 0) == ['\\'] + DecodedFrom(u, 1);
  }

  /** `\u` followed by anything but four characters that form a code unit is kept verbatim. */
  lemma {:induction false} BadUnicodeKept(rest: string)
    requires |rest| < 4 || UnicodeEscape(rest[..4]).None?
    ensures Decoded("\\u" + rest) == "\\u" + Decoded(rest)
  {
    var u := "\\u" + rest;
    if |rest| >= 4 {
      assert u[2..6] == rest[..4];
    }
    assert Token(u, 0) == ('\\', 1);
    assert Token(u, 1) == ('u', 1);
    DecodedShift("\\u", rest, 0);
    assert DecodedFrom(u, 1) == "u" + DecodedFrom(u, 2);
    assert DecodedFrom(u, 0) == "\\" + DecodedFrom(u, 1);
  }

  // =========================================================== reading

  /** `s.startsWith(open) && s.endsWith(close)`. */
  predicate Wrapped(s: string, open: char, close: char)
  {
    JavaString.StartsWith(s, [open]) && JavaString.EndsWith(s, [close])
  }

  lemma {:induction false} WrappedEnds(s: string, open: char, close: char)
    requires Wrapped(s, open, close) && open != close
    ensures |s| >= 2 && s[0] == open && s[|s| - 1] == close
  {
    assert s[..1][0] == s[0];
    assert s[|s| - 1..][0] == s[|s| - 1];
  }

  /** `s.substring(1, s.length() - 1).trim()`: what lies between the outer brackets. */
  function Inside(s: string): (r: string)
    requires |s| >= 2
    ensures |r| <= |s| - 2
  {
    JavaString.TrimLength(s[1..|s| - 1]);
    JavaString.Trim(s[1..|s| - 1])
  }

  /** Every piece of `s` split at top-level commas is shorter than `bound`. */
  lemma {:induction false} PiecesShorter(s: string, bound: nat)
    requires |s| < bound
    ensures forall i :: 0 <= i < |Scanner.SplitTop(Scanner.JsonNested, s)| ==>
              |Scanner.SplitTop(Scanner.JsonNested, s)[i]| < bound
  {
    Scanner.SplitShort(Scanner.JsonNested, s);
  }

  /**
   * `parseJsonValue`: the trimmed text is classified in this order: `null`,
   * `[...]` (a List), `{...}` (a Map), `true`, `false`, a number (a Double
   * when it contains a point, otherwise a Long), and anything else is a
   * String, unquoted and unescaped.
   */
  function ParseJsonValue(valueStr: string): (r: Result<Value>)
    ensures r == Ok(Null) <==> JavaString.Trim(valueStr) == "null"
    decreases |valueStr|, 2, 0
  {
    var v := JavaString.Trim(valueStr);
    JavaString.TrimLength(valueStr);
    if v == "null" then Ok(Null)
    else if Wrapped(v, '[', ']') then ParseJsonArray(v)
    else if Wrapped(v, '{', '}') then
      match ParseJsonObjectRaw(v)
      case Ok(entries) => Ok(Map(entries))
      case Err(e) => Err(e)
    else if v == "true" then Ok(Bool(true))
    else if v == "false" then Ok(Bool(false))
    else if '.' in v && JavaString.ParseDouble(v).Ok? then Ok(Double(JavaString.ParseDouble(v).value))
    else if '.' !in v && JavaString.ParseLong(v).Ok? then Ok(Long(JavaString.ParseLong(v).value))
    else
      match Unescape(v)
      case Ok(text) => Ok(Str(text))
      case Err(e) => Err(e)
  }

  /** `parseJsonArray`: the elements between the brackets, split at top-level commas, each read as a value. */
  function ParseJsonArray(arrayStr: string): (r: Result<Value>)
    requires Wrapped(arrayStr, '[', ']')
    ensures r.Ok? ==> r.value.List?
    decreases |arrayStr|, 1, 0
  {
    WrappedEnds(arrayStr, '[', ']');
    var content := Inside(arrayStr);
    if content == [] then Ok(List([]))
    else
      PiecesShorter(content, |arrayStr|);
      match ParseValues(Scanner.SplitTop(Scanner.JsonNested, content), |arrayStr|)
      case Ok(items) => Ok(List(items))
      case Err(e) => Err(e)
  }

  /** Each element read in turn; the first that throws stops the loop. */
  function ParseValues(elements: seq<string>, bound: nat): (r: Result<seq<Value>>)
    requires forall i :: 0 <= i < |elements| ==> |elements[i]| < bound
    ensures r.Ok? ==> |r.value| == |elements|
    decreases bound, 0, |elements|
  {
    if elements == [] then Ok([])
    else
      match ParseJsonValue(elements[0])
      case Err(e) => Err(e)
      case Ok(v) =>
        match ParseValues(elements[1..], bound)
        case Err(e) => Err(e)
        case Ok(vs) => Ok([v] + vs)
  }

  /**
   * `parseJsonObjectRaw`: the pairs between the braces, split at top-level
   * commas; each pair splits at its first colon, the key loses one pair of
   * quotes, the value is read, and the pair is put in the map.
   */
  function ParseJsonObjectRaw(jsonObject: string): (r: Result<Entries<Value>>)
    ensures !Wrapped(JavaString.Trim(jsonObject), '{', '}') ==> r == Throw(Runtime, "Invalid JSON object format")
    ensures r.Ok? ==> DistinctKeys(r.value)
    decreases |jsonObject|, 1, 0
  {
    var o := JavaString.Trim(jsonObject);
    JavaString.TrimLength(jsonObject);
    if !Wrapped(o, '{', '}') then Throw(Runtime, "Invalid JSON object format")
    else
      WrappedEnds(o, '{', '}');
      var body := Inside(o);
      if body == [] then Ok([])
      else
        PiecesShorter(body, |jsonObject|);
        ParsePairs(Scanner.SplitTop(Scanner.JsonNested, body), [], |jsonObject|)
  }

  /** A key with one pair of surrounding quotes removed (a lone `"` makes `substring(1, 0)` throw). */
  function Key(key: string): (r: Result<string>)
    ensures r.Err? <==> key == "\""
  {
    if QuotedText(key) then JavaString.Substring(key, 1, |key| - 1) else Ok(key)
  }

  /** The pairs put into the map in turn; the first that throws stops the loop. */
  function ParsePairs(pairs: seq<string>, entries: Entries<Value>, bound: nat): (r: Result<Entries<Value>>)
    requires forall i :: 0 <= i < |pairs| ==> |pairs[i]| < bound
    requires DistinctKeys(entries)
    ensures r.Ok? ==> DistinctKeys(r.value)
    decreases bound, 0, |pairs|
  {
    if pairs == [] then Ok(entries)
    else
      var pair := pairs[0];
      var kv := JavaString.SplitFirst(pair, ':');
      if |kv| != 2 then Throw(Runtime, "Invalid key-value pair format: " + pair)
      else
        match Key(JavaString.Trim(kv[0]))
        case Err(e) => Err(e)
        case Ok(key) =>
          JavaString.TrimLength(kv[1]);
          match ParseJsonValue(JavaString.Trim(kv[1]))
          case Err(e) => Err(e)
          case Ok(v) =>
            PutDistinct(entries, key, v);
            ParsePairs(pairs[1..], Put(entries, key, v), bound)
  }

  // ======================================================= test files

  /** Each object read in turn; the first that throws stops the loop. */
  function ParseObjects(objects: seq<string>): (r: Result<seq<Entries<Value>>>)
    ensures r.Ok? ==> |r.value| == |objects|
  {
    if objects == [] then Ok([])
    else
      match ParseJsonObjectRaw(objects[0])
      case Err(e) => Err(e)
      case Ok(m) =>
        match ParseObjects(objects[1..])
        case Err(e) => Err(e)
        case Ok(ms) => Ok([m] + ms)
  }

  /**
   * `parseTestCasesRaw`: the trimmed text must be bracketed; a blank
   * inside is no test cases, and otherwise each object is read into a map.
   */
  function TestCasesRaw(jsonContent: string): (r: Result<seq<Entries<Value>>>)
    ensures !Wrapped(JavaString.Trim(jsonContent), '[', ']') ==>
              r == Throw(Runtime, "Invalid JSON format - must be an array")
  {
    var t := JavaString.Trim(jsonContent);
    if !Wrapped(t, '[', ']') then Throw(Runtime, "Invalid JSON format - must be an array")
    else
      WrappedEnds(t, '[', ']');
      var content := Inside(t);
      if content == [] then Ok([]) else ParseObjects(Scanner.SplitObjects(content))
  }

  /** `parseTestCasesRaw`, with the loop that reads one object after another. */
  method ParseTestCasesRaw(jsonContent: string) returns (r: Result<seq<Entries<Value>>>)
    ensures r == TestCasesRaw(jsonContent)
  {
    var t := JavaString.Trim(jsonContent);
    if !Wrapped(t, '[', ']') {
      return Throw(Runtime, "Invalid JSON format - must be an array");
    }
    WrappedEnds(t, '[', ']');
    var content := Inside(t);
    if content == [] {
      return Ok([]);
    }
    var objects := Scanner.SplitJsonObjects(content);
    r := ReadObjects(objects);
  }

  /** The loop of `parseTestCasesRaw` that reads one object after another. */
  method ReadObjects(objects: seq<string>) returns (r: Result<seq<Entries<Value>>>)
    ensures r == ParseObjects(objects)
  {
    var cases: seq<Entries<Value>> := [];
    var i := 0;
    assert objects[0..] == objects;
    if ParseObjects(objects).Ok? {
      assert [] + ParseObjects(objects).value == ParseObjects(objects).value;
    }
    while i < |objects|
      invariant 0 <= i <= |objects|
      invariant ParseObjects(objects) == ParseObjectsAfter(cases, objects[i..])
    {
      assert objects[i..][1..] == objects[i + 1..];
      ObjectsStep(cases, objects[i..]);
      var m := ParseJsonObjectRaw(objects[i]);
      if m.Err? {
        return Err(m.error);
      }
      cases := cases + [m.value];
      i := i + 1;
    }
    assert objects[i..] == [];
    assert cases + [] == cases;
    return Ok(cases);
  }

  /** The objects still to read, after the maps already read. */
  function ParseObjectsAfter(done: seq<Entries<Value>>, rest: seq<string>): Result<seq<Entries<Value>>>
  {
    match ParseObjects(rest)
    case Err(e) => Err(e)
    case Ok(ms) => Ok(done + ms)
  }

  lemma {:induction false} ObjectsStep(done: seq<Entries<Value>>, rest: seq<string>)
    requires rest != []
    ensures var m := ParseJsonObjectRaw(rest[0]);
      ParseObjectsAfter(done, rest)
      == if m.Err? then Err(m.error) else ParseObjectsAfter(done + [m.value], rest[1..])
  {
    var m := ParseJsonObjectRaw(rest[0]);
    if m.Ok? {
      match ParseObjects(rest[1..]) {
        case Ok(ms) =>
          Scanner.Regroup(done, [m.value], ms);
        case Err(e) =>
      }
    }
  }

  // ========================================================== writing

  /** The text `objectToJsonString` writes for a value. */
  function JsonText(v: Value): string
    decreases v, 1
  {
    match v
    case Null => "null"
    case Str(s) => "\"" + Escape(s) + "\""
    case Bool(b) => BoolText(b)
    case Int(i) => JavaString.IntToString(i)
    case Long(l) => JavaString.IntToString(l)
    case Double(text) => text
    case List(items) => "[" + CommaSpace(JsonTexts(items)) + "]"
    case Map(entries) => "{" + CommaSpace(EntryTexts(entries)) + "}"
    case _ => "\"" + Escape(Show(v)) + "\""
  }

  function JsonTexts(items: seq<Value>): (r: seq<string>)
    ensures |r| == |items|
    decreases items, 0
  {
    if items == [] then [] else [JsonText(items[0])] + JsonTexts(items[1..])
  }

  /** A map entry as `"key": value`; the key is written as it is, unescaped. */
  function EntryText(key: string, value: Value): string
    decreases value, 2
  {
    "\"" + key + "\": " + JsonText(value)
  }

  function EntryTexts(entries: Entries<Value>): (r: seq<string>)
    ensures |r| == |entries|
    decreases entries, 0
  {
    if entries == [] then []
    else
      assert entries[0].1 < entries[0];
      [EntryText(entries[0].0, entries[0].1)] + EntryTexts(entries[1..])
  }

  lemma {:induction false} JsonTextsAt(items: seq<Value>, i: nat)
    requires i < |items|
    ensures JsonTexts(items)[i] == JsonText(items[i])
  {
    if i > 0 {
      JsonTextsAt(items[1..], i - 1);
    }
  }

  lemma {:induction false} EntryTextsAt(entries: Entries<Value>, i: nat)
    requires i < |entries|
    ensures EntryTexts(entries)[i] == EntryText(entries[i].0, entries[i].1)
  {
    if i > 0 {
      EntryTextsAt(entries[1..], i - 1);
    }
  }

  /** One more part, after a `", "` unless it is the first. */
  lemma {:induction false} CommaSpaceSnoc(parts: seq<string>, x: string)
    ensures CommaSpace(parts + [x]) == if parts == [] then x else CommaSpace(parts) + ", " + x
  {
    if |parts| == 1 {
      assert parts + [x] == [parts[0], x];
      assert [parts[0], x][1..] == [x];
    } else if |parts| > 1 {
      assert (parts + [x])[1..] == parts[1..] + [x];
      CommaSpaceSnoc(parts[1..], x);
    }
  }

  /** Appending a part to a buffer holding `open` and the parts so far, after `", "` unless it is the first. */
  lemma {:induction false} BufferStep(open: string, parts: seq<string>, x: string)
    ensures (if parts == [] then open + CommaSpace(parts) else open + CommaSpace(parts) + ", ") + x
         == open + CommaSpace(parts + [x])
  {
    CommaSpaceSnoc(parts, x);
  }

  /** `objectToJsonString`: the lists and maps are written by loops appending to a buffer. */
  method ObjectToJsonString(v: Value) returns (text: string)
    ensures text == JsonText(v)
    decreases v, 1
  {
    match v {
      case List(items) =>
        text := ListToJsonString(items);
      case Map(entries) =>
        text := MapToJsonString(entries);
      case _ =>
        text := JsonText(v);
    }
  }

  /** The list branch of `objectToJsonString`. */
  method ListToJsonString(items: seq<Value>) returns (text: string)
    ensures text == "[" + CommaSpace(JsonTexts(items)) + "]"
    decreases items, 0
  {
    text := "[";
    var i := 0;
    while i < |items|
      invariant 0 <= i <= |items|
      invariant text == "[" + CommaSpace(JsonTexts(items)[..i])
    {
      ghost var done := JsonTexts(items)[..i];
      if i > 0 {
        text := text + ", ";
      }
      var item := ObjectToJsonString(items[i]);
      BufferStep("[", done, item);
      JsonTextsAt(items, i);
      assert JsonTexts(items)[..i + 1] == done + [item];
      text := text + item;
      i := i + 1;
    }
    assert JsonTexts(items)[..i] == JsonTexts(items);
    text := text + "]";
  }

  /** The map branch of `objectToJsonString`. */
  method MapToJsonString(entries: Entries<Value>) returns (text: string)
    ensures text == "{" + CommaSpace(EntryTexts(entries)) + "}"
    decreases entries, 0
  {
    text := "{";
    var i := 0;
    while i < |entries|
      invariant 0 <= i <= |entries|
      invariant text == "{" + CommaSpace(EntryTexts(entries)[..i])
    {
      ghost var done := EntryTexts(entries)[..i];
      if i > 0 {
        text := text + ", ";
      }
      var (key, value) := entries[i];
      assert value < entries[i];
      var valueText := ObjectToJsonString(value);
      var entry := "\"" + key + "\": " + valueText;
      BufferStep("{", done, entry);
      EntryTextsAt(entries, i);
      assert EntryTexts(entries)[..i + 1] == done + [entry];
      text := text + entry;
      i := i + 1;
    }
    assert EntryTexts(entries)[..i] == EntryTexts(entries);
    text := text + "}";
  }

  // ============================================ test cases as strings

  /** What a legacy test case holds for a value: a String as it is, anything else as its JSON text. */
  function LegacyText(v: Value): string
  {
    if v.Str? then v.s else JsonText(v)
  }

  /** A raw test case converted entry by entry, each put into a new map. */
  function LegacyCase(raw: Entries<Value>): (r: Entries<string>)
  {
    if raw == [] then []
    else Put(LegacyCase(raw[..|raw| - 1]), raw[|raw| - 1].0, LegacyText(raw[|raw| - 1].1))
  }

  /** `parseTestCases`: the raw test cases, each converted to a map of strings. */
  function TestCases(jsonContent: string): (r: Result<seq<Entries<string>>>)
    ensures TestCasesRaw(jsonContent).Err? ==> r == Err(TestCasesRaw(jsonContent).error)
    ensures r.Ok? ==> |r.value| == |TestCasesRaw(jsonContent).value|
  {
    match TestCasesRaw(jsonContent)
    case Err(e) => Err(e)
    case Ok(raws) => Ok(LegacyCases(raws))
  }

  function LegacyCases(raws: seq<Entries<Value>>): (r: seq<Entries<string>>)
    ensures |r| == |raws|
  {
    seq(|raws|, i requires 0 <= i < |raws| => LegacyCase(raws[i]))
  }

  /** `parseTestCases`, with its two loops: over the test cases, and over the entries of each. */
  method ParseTestCases(jsonContent: string) returns (r: Result<seq<Entries<string>>>)
    ensures r == TestCases(jsonContent)
  {
    var raw := ParseTestCasesRaw(jsonContent);
    if raw.Err? {
      return Err(raw.error);
    }
    var cases := ConvertCases(raw.value);
    return Ok(cases);
  }

  /** The outer loop of `parseTestCases`: one map of strings per raw test case. */
  method ConvertCases(raws: seq<Entries<Value>>) returns (cases: seq<Entries<string>>)
    ensures cases == LegacyCases(raws)
  {
    cases := [];
    for i := 0 to |raws|
      invariant |cases| == i
      invariant forall k :: 0 <= k < i ==> cases[k] == LegacyCase(raws[k])
    {
      var legacy := ConvertCase(raws[i]);
      cases := cases + [legacy];
    }
  }

  /** The inner loop of `parseTestCases`: each entry put into a new map of strings. */
  method ConvertCase(rawCase: Entries<Value>) returns (legacy: Entries<string>)
    ensures legacy == LegacyCase(rawCase)
  {
    legacy := [];
    for j := 0 to |rawCase|
      invariant legacy == LegacyCase(rawCase[..j])
    {
      var (key, value) := rawCase[j];
      var text;
      if value.Str? {
        text := value.s;
      } else {
        text := ObjectToJsonString(value);
      }
      assert rawCase[..j + 1][..j] == rawCase[..j];
      legacy := Put(legacy, key, text);
    }
    assert rawCase[..|rawCase|] == rawCase;
  }

  /**
   * A legacy test case maps each key of a raw case with distinct keys to
   * the value's text: the String itself, or the JSON text of anything else.
   */
  lemma {:induction false} LegacyLookup(raw: Entries<Value>, key: string)
    requires DistinctKeys(raw)
    ensures Lookup(LegacyCase(raw), key) == match Lookup(raw, key) case None => None case Some(v) => Some(LegacyText(v))
  {
    if raw != [] {
      var init := raw[..|raw| - 1];
      var last := raw[|raw| - 1];
      assert raw == init + [last];
      assert DistinctKeys(init);
      LegacyLookup(init, key);
      LookupSnoc(init, last, key);
    }
  }

  /** Looking up a key after one more entry. */
  lemma {:induction false} LookupSnoc<V>(entries: Entries<V>, last: (string, V), key: string)
    ensures Lookup(entries + [last], key)
            == if Lookup(entries, key).Some? then Lookup(entries, key)
               else if last.0 == key then Some(last.1) else None
  {
    if entries != [] {
      assert (entries + [last])[1..] == entries[1..] + [last];
      LookupSnoc(entries[1..], last, key);
    }
  }

  /** The keys of each raw test case are distinct. */
  lemma {:induction false} ObjectsDistinct(objects: seq<string>)
    ensures ParseObjects(objects).Ok? ==>
              forall i :: 0 <= i < |objects| ==> DistinctKeys(ParseObjects(objects).value[i])
  {
    if objects != [] {
      ObjectsDistinct(objects[1..]);
    }
  }

  /**
   * In every test case `parseTestCases` returns, a key is present exactly
   * when the raw case has it, and holds the String value itself or the JSON
   * text of any other value.
   */
  lemma {:induction false} TestCasesLookup(jsonContent: string, i: nat, key: string)
    requires TestCasesRaw(jsonContent).Ok? && i < |TestCasesRaw(jsonContent).value|
    ensures var raw := TestCasesRaw(jsonContent).value[i];
      TestCases(jsonContent).Ok? &&
      Lookup(TestCases(jsonContent).value[i], key)
      == match Lookup(raw, key) case None => None case Some(v) => Some(LegacyText(v))
  {
    var t := JavaString.Trim(jsonContent);
    WrappedEnds(t, '[', ']');
    var content := Inside(t);
    if content != [] {
      ObjectsDistinct(Scanner.SplitObjects(content));
    }
    LegacyLookup(TestCasesRaw(jsonContent).value[i], key);
  }
}
