/**
 * What `JsonProcessor.objectToJsonString` writes, `JsonProcessor.parseJsonValue`
 * reads back. The writer and the reader do not share a grammar: the reader
 * classifies trimmed text and splits it at top-level commas, so the proof
 * goes through the splitter: the text of every value leaves the splitter
 * in the state it found it, with no cut inside, and a list or object body
 * is the texts of its parts joined by `", "`.
 */
module JsonRoundTrip {
  import opened Wrappers
  import JavaString
  import opened JavaValue
  import Scanner
  import opened JsonProcessor

  // ============================================================ the data

  /** A key written between quotes as it is, with nothing the reader would take apart. */
  predicate PlainKey(key: string)
  {
    '"' !in key && '\\' !in key && ':' !in key
  }

  /** A double's text that a reader takes back as itself: a literal with a point and no splitter or blank character. */
  predicate NumberText(t: string)
  {
    '.' in t && JavaString.DoubleLiteral(t)
    && forall i :: 0 <= i < |t| ==> Scanner.Plain(t[i]) && !JavaString.IsTrimmable(t[i])
  }

  /**
   * The values whose text is read back as themselves: null, booleans,
   * 64-bit longs, strings, doubles kept as such a literal, lists of such
   * values, and objects with distinct plain keys and such values.
   */
  predicate JsonData(v: Value)
    decreases v, 1
  {
    match v
    case Null => true
    case Bool(_) => true
    case Long(l) => JavaString.LONG_MIN <= l <= JavaString.LONG_MAX
    case Double(text) => NumberText(text)
    case Str(_) => true
    case List(items) => forall i :: 0 <= i < |items| ==> JsonData(items[i])
    case Map(entries) => DistinctKeys(entries) && EntriesData(entries)
    case _ => false
  }

  predicate EntriesData(entries: Entries<Value>)
    decreases entries, 0
  {
    entries != [] ==>
      assert entries[0].1 < entries[0];
      PlainKey(entries[0].0) && JsonData(entries[0].1) && EntriesData(entries[1..])
  }

  // ============================================================ the shape

  /** Text with no blank at either end, which `trim` leaves alone. */
  predicate Shaped(t: string)
  {
    t != [] && !JavaString.IsTrimmable(t[0]) && !JavaString.IsTrimmable(t[|t| - 1])
  }

  /** The decimal text of an integer: a minus sign first, or digits only. */
  lemma {:induction false} IntTextChars(n: int)
    ensures var t := JavaString.IntToString(n);
      t != [] && forall i :: 0 <= i < |t| ==> JavaString.IsDigit(t[i]) || (i == 0 && t[i] == '-')
  {
    var d := JavaString.NatToString(if n < 0 then -n else n);
    if n < 0 {
      assert JavaString.IntToString(n) == "-" + d;
    }
  }

  lemma {:induction false} TextShape(v: Value)
    requires JsonData(v)
    ensures Shaped(JsonText(v))
  {
    match v {
      case Long(l) => IntTextChars(l);
      case Double(t) =>
      case _ =>
    }
  }

  // ================================================ text the splitter passes over

  /** From `st`, the splitter reads `t` without a cut and ends in `end`. */
  predicate Goes(st: Scanner.ScanState, t: string, end: Scanner.ScanState)
  {
    Scanner.Scan(Scanner.JsonNested, st, t) == end && Scanner.NoCutFrom(Scanner.JsonNested, st, t)
  }

  /** Outside quotes, with no escape pending, the bracket and brace counts not negative. */
  predicate Outside(st: Scanner.ScanState)
  {
    !st.inQuotes && !st.escaped && !st.afterBackslash && st.brackets >= 0 && st.braces >= 0
  }

  /** Inside at least one bracket or brace, where a comma is not a cut. */
  predicate Nested(st: Scanner.ScanState)
  {
    Outside(st) && (st.brackets > 0 || st.braces > 0)
  }

  lemma {:induction false} GoesAppend(st: Scanner.ScanState, a: string, mid: Scanner.ScanState, b: string, end: Scanner.ScanState)
    requires Goes(st, a, mid) && Goes(mid, b, end)
    ensures Goes(st, a + b, end)
  {
    Scanner.ScanAppend(Scanner.JsonNested, st, a, b);
    Scanner.NoCutAppend(Scanner.JsonNested, st, a, b);
  }

  lemma {:induction false} CharGoes(st: Scanner.ScanState, c: char)
    requires !Scanner.IsCut(Scanner.JsonNested, st, c)
    ensures Goes(st, [c], Scanner.Step(Scanner.JsonNested, st, c))
  {
    assert [c][..0] == [] && [c][1..] == [];
  }

  lemma {:induction false} PlainGoes(st: Scanner.ScanState, t: string)
    requires Outside(st) && forall i :: 0 <= i < |t| ==> Scanner.Plain(t[i])
    ensures Goes(st, t, st)
  {
    Scanner.PlainScan(Scanner.JsonNested, st, t);
  }

  /** Inside quotes, text without quotes and backslashes changes nothing. */
  lemma {:induction false} QuotedGoes(q: Scanner.ScanState, s: string)
    requires q.inQuotes && !q.escaped && '"' !in s && '\\' !in s
    ensures Goes(q, s, q)
    decreases |s|
  {
    if s != [] {
      CharGoes(q, s[0]);
      QuotedGoes(q, s[1..]);
      GoesAppend(q, [s[0]], q, s[1..], q);
      assert [s[0]] + s[1..] == s;
    } else {
      assert Scanner.NoCutFrom(Scanner.JsonNested, q, s);
    }
  }

  /** Inside quotes, an escaped character changes nothing. */
  lemma {:induction false} EscapedCharGoes(q: Scanner.ScanState, c: char)
    requires q.inQuotes && !q.escaped
    ensures Goes(q, EscapeChar(c), q)
  {
    var e := EscapeChar(c);
    if |e| == 2 {
      var q1 := q.(escaped := true);
      assert e[0] == '\\';
      CharGoes(q, '\\');
      CharGoes(q1, e[1]);
      GoesAppend(q, ['\\'], q1, [e[1]], q);
      assert e == ['\\'] + [e[1]];
    } else {
      assert e == [c] && c != '"' && c != '\\';
      QuotedGoes(q, e);
    }
  }

  lemma {:induction false} EscapedGoes(q: Scanner.ScanState, s: string)
    requires q.inQuotes && !q.escaped
    ensures Goes(q, EscapeEach(s), q)
    decreases |s|
  {
    if s != [] {
      EscapedCharGoes(q, s[0]);
      EscapedGoes(q, s[1..]);
      GoesAppend(q, EscapeChar(s[0]), q, EscapeEach(s[1..]), q);
    } else {
      QuotedGoes(q, []);
    }
  }

  /** A quoted text whose inside leaves the quoted state alone leaves the outer state alone. */
  lemma {:induction false} QuotesGo(st: Scanner.ScanState, x: string)
    requires Outside(st) && Goes(st.(inQuotes := true), x, st.(inQuotes := true))
    ensures Goes(st, "\"" + x + "\"", st)
  {
    var q := st.(inQuotes := true);
    CharGoes(st, '"');
    CharGoes(q, '"');
    GoesAppend(st, "\"", q, x, q);
    GoesAppend(st, "\"" + x, q, "\"", st);
  }

  lemma {:induction false} StringGoes(st: Scanner.ScanState, s: string)
    requires Outside(st)
    ensures Goes(st, JsonText(Str(s)), st)
  {
    EscapeByChar(s);
    EscapedGoes(st.(inQuotes := true), s);
    QuotesGo(st, Escape(s));
  }

  /** A bracketed or braced body that brings the inner state back brings the outer one back. */
  lemma {:induction false} EnclosedGoes(st: Scanner.ScanState, open: char, body: string, close: char)
    requires Outside(st)
    requires (open == '[' && close == ']') || (open == '{' && close == '}')
    requires Goes(Scanner.Step(Scanner.JsonNested, st, open), body, Scanner.Step(Scanner.JsonNested, st, open))
    ensures Goes(st, [open] + body + [close], st)
  {
    var inner := Scanner.Step(Scanner.JsonNested, st, open);
    CharGoes(st, open);
    CharGoes(inner, close);
    GoesAppend(st, [open], inner, body, inner);
    GoesAppend(st, [open] + body, inner, [close], st);
  }

  lemma {:induction false} SeparatorGoes(st: Scanner.ScanState)
    requires Nested(st)
    ensures Goes(st, ", ", st)
  {
    CharGoes(st, ',');
    PlainGoes(st, " ");
    GoesAppend(st, ",", st, " ", st);
  }

  /** The text of a value brings every outside state back, with no cut inside. */
  lemma {:induction false} TextGoes(v: Value, st: Scanner.ScanState)
    requires JsonData(v) && Outside(st)
    ensures Goes(st, JsonText(v), st)
    decreases v, 1
  {
    match v {
      case Null => PlainGoes(st, "null");
      case Bool(b) => PlainGoes(st, BoolText(b));
      case Long(l) =>
        IntTextChars(l);
        PlainGoes(st, JavaString.IntToString(l));
      case Double(t) => PlainGoes(st, t);
      case Str(s) => StringGoes(st, s);
      case List(items) =>
        var inner := Scanner.Step(Scanner.JsonNested, st, '[');
        ItemsGo(items, inner);
        EnclosedGoes(st, '[', CommaSpace(JsonTexts(items)), ']');
      case Map(entries) =>
        var inner := Scanner.Step(Scanner.JsonNested, st, '{');
        EntriesGo(entries, inner);
        EnclosedGoes(st, '{', CommaSpace(EntryTexts(entries)), '}');
    }
  }

  lemma {:induction false} ItemsGo(items: seq<Value>, st: Scanner.ScanState)
    requires (forall i :: 0 <= i < |items| ==> JsonData(items[i])) && Nested(st)
    ensures Goes(st, CommaSpace(JsonTexts(items)), st)
    decreases items, 0
  {
    if items == [] {
      PlainGoes(st, "");
    } else {
      var ts := JsonTexts(items);
      TextGoes(items[0], st);
      assert ts[0] == JsonText(items[0]) && ts[1..] == JsonTexts(items[1..]);
      if |items| > 1 {
        ItemsGo(items[1..], st);
        SeparatorGoes(st);
        GoesAppend(st, ts[0], st, ", ", st);
        GoesAppend(st, ts[0] + ", ", st, CommaSpace(ts[1..]), st);
      }
    }
  }

  /** The key of an entry, its quotes, its colon and the space. */
  lemma {:induction false} KeyGoes(key: string, st: Scanner.ScanState)
    requires PlainKey(key) && Outside(st)
    ensures Goes(st, "\"" + key + "\": ", st)
  {
    QuotedGoes(st.(inQuotes := true), key);
    QuotesGo(st, key);
    PlainGoes(st, ": ");
    GoesAppend(st, "\"" + key + "\"", st, ": ", st);
    assert "\"" + key + "\"" + ": " == "\"" + key + "\": ";
  }

  lemma {:induction false} EntriesGo(entries: Entries<Value>, st: Scanner.ScanState)
    requires EntriesData(entries) && Nested(st)
    ensures Goes(st, CommaSpace(EntryTexts(entries)), st)
    decreases entries, 0
  {
    if entries == [] {
      PlainGoes(st, "");
    } else {
      var (key, value) := entries[0];
      assert value < entries[0];
      var ts := EntryTexts(entries);
      KeyGoes(key, st);
      TextGoes(value, st);
      GoesAppend(st, "\"" + key + "\": ", st, JsonText(value), st);
      assert ts[0] == EntryText(key, value) && ts[1..] == EntryTexts(entries[1..]);
      if |entries| > 1 {
        EntriesGo(entries[1..], st);
        SeparatorGoes(st);
        GoesAppend(st, ts[0], st, ", ", st);
        GoesAppend(st, ts[0] + ", ", st, CommaSpace(ts[1..]), st);
      }
    }
  }

  // ====================================================== splitting a body

  /** The parts after the first, each after one space: `CommaSpace` joins these with commas. */
  function Spaced(parts: seq<string>): (r: seq<string>)
    ensures |r| == |parts|
    ensures parts != [] ==> r[0] == parts[0]
    ensures forall i :: 0 < i < |parts| ==> r[i] == " " + parts[i]
  {
    if parts == [] then [] else [parts[0]] + seq(|parts| - 1, i requires 0 <= i < |parts| - 1 => " " + parts[i + 1])
  }

  lemma {:induction false} JoinSpaceFirst(a: string, rest: seq<string>)
    ensures JavaString.Join([" " + a] + rest, ',') == " " + JavaString.Join([a] + rest, ',')
  {
    if rest != [] {
      assert ([" " + a] + rest)[1..] == rest;
      assert ([a] + rest)[1..] == rest;
    }
  }

  lemma {:induction false} CommaSpaceJoin(parts: seq<string>)
    ensures CommaSpace(parts) == JavaString.Join(Spaced(parts), ',')
  {
    if |parts| > 1 {
      var rest := parts[1..];
      var sp := Spaced(parts);
      var tail := Spaced(rest)[1..];
      CommaSpaceJoin(rest);
      assert sp[1..] == [" " + rest[0]] + tail;
      assert Spaced(rest) == [rest[0]] + tail;
      JoinSpaceFirst(rest[0], tail);
      assert JavaString.Join(sp, ',') == parts[0] + [','] + JavaString.Join(sp[1..], ',');
    }
  }

  /** Parts that trim to themselves and bring the splitter back come out of `", "` joined text as they went in. */
  lemma {:induction false} SplitCommaSpace(parts: seq<string>)
    requires forall i :: 0 <= i < |parts| ==> Shaped(parts[i]) && Goes(Scanner.Start, parts[i], Scanner.Start)
    ensures Scanner.SplitTop(Scanner.JsonNested, CommaSpace(parts)) == parts
  {
    var sp := Spaced(parts);
    SpacedParts(parts);
    CommaSpaceJoin(parts);
    Scanner.SplitJoined(Scanner.JsonNested, sp);
  }

  lemma {:induction false} SpacedParts(parts: seq<string>)
    requires forall i :: 0 <= i < |parts| ==> Shaped(parts[i]) && Goes(Scanner.Start, parts[i], Scanner.Start)
    ensures forall i :: 0 <= i < |parts| ==> Scanner.Clean(Scanner.JsonNested, Spaced(parts)[i])
    ensures parts != [] ==> Spaced(parts)[|parts| - 1] != []
    ensures Scanner.TrimAll(Spaced(parts)) == parts
  {
    var sp := Spaced(parts);
    forall i | 0 <= i < |sp|
      ensures Scanner.Clean(Scanner.JsonNested, sp[i]) && JavaString.Trim(sp[i]) == parts[i]
    {
      SpacedPart(parts, i);
    }
    Scanner.TrimAllAt(sp);
  }

  lemma {:induction false} SpacedPart(parts: seq<string>, i: nat)
    requires i < |parts| && Shaped(parts[i]) && Goes(Scanner.Start, parts[i], Scanner.Start)
    ensures Scanner.Clean(Scanner.JsonNested, Spaced(parts)[i]) && JavaString.Trim(Spaced(parts)[i]) == parts[i]
  {
    JavaString.TrimOfTrimmed(parts[i]);
    if i > 0 {
      PlainGoes(Scanner.Start, " ");
      GoesAppend(Scanner.Start, " ", Scanner.Start, parts[i], Scanner.Start);
      JavaString.TrimLead(" ", parts[i]);
    }
  }

  /** A `", "` join of shaped parts is itself shaped. */
  lemma {:induction false} CommaSpaceShape(parts: seq<string>)
    requires parts != [] && forall i :: 0 <= i < |parts| ==> Shaped(parts[i])
    ensures Shaped(CommaSpace(parts))
  {
    var sp := Spaced(parts);
    CommaSpaceJoin(parts);
    JavaString.JoinFirst(sp, ',');
    JavaString.JoinLast(sp, ',');
  }

  // ======================================================== reading back

  /** Bracketed or braced text starts with its bracket or brace. */
  lemma {:induction false} FirstChar(t: string)
    requires t != []
    ensures Wrapped(t, '[', ']') ==> t[0] == '['
    ensures Wrapped(t, '{', '}') ==> t[0] == '{'
  {
    assert t[..1][0] == t[0];
  }

  /** Text starting with a quote is no number. */
  lemma {:induction false} QuoteIsNoNumber(t: string)
    requires Shaped(t) && t[0] == '"'
    ensures JavaString.ParseDouble(t).Err? && JavaString.ParseLong(t).Err?
  {
    JavaString.TrimOfTrimmed(t);
    assert JavaString.DigitRun(t) == 0;
  }

  /**
   * `parseJsonValue(objectToJsonString(v))` gives `v` back, for every
   * value built from null, booleans, longs, strings, doubles with a point,
   * lists and objects with plain keys.
   */
  lemma {:induction false} ReadBack(v: Value)
    requires JsonData(v)
    ensures ParseJsonValue(JsonText(v)) == Ok(v)
    decreases v, 2
  {
    match v {
      case Null =>
      case Bool(b) => ReadBackBool(b);
      case Long(l) => ReadBackLong(l);
      case Double(text) => ReadBackDouble(text);
      case Str(s) => ReadBackString(s);
      case List(items) => ReadBackList(items);
      case Map(entries) => ReadBackMap(entries);
    }
  }

  lemma {:induction false} ReadBackBool(b: bool)
    ensures ParseJsonValue(BoolText(b)) == Ok(Bool(b))
  {
    var t := BoolText(b);
    JavaString.TrimOfTrimmed(t);
    FirstChar(t);
  }

  lemma {:induction false} ReadBackLong(l: int)
    requires JavaString.LONG_MIN <= l <= JavaString.LONG_MAX
    ensures ParseJsonValue(JavaString.IntToString(l)) == Ok(Long(l))
  {
    var t := JavaString.IntToString(l);
    IntTextChars(l);
    assert JavaString.IsDigit(t[|t| - 1]) by {
      if |t| == 1 {
        assert t == JavaString.NatToString(l);
      }
    }
    assert '.' !in t;
    JavaString.ParseLongToString(l);
    LongClassified(t, l);
  }

  /** Text ending in a digit, with no point, that `parseLong` reads is classified as a Long. */
  lemma {:induction false} LongClassified(t: string, l: int)
    requires t != [] && JavaString.IsDigit(t[|t| - 1]) && '.' !in t
    requires JavaString.IsDigit(t[0]) || t[0] == '-'
    requires JavaString.ParseLong(t) == Ok(l)
    ensures ParseJsonValue(t) == Ok(Long(l))
  {
    assert JavaString.Trim(t) == t by {
      JavaString.TrimOfTrimmed(t);
    }
    assert !Wrapped(t, '[', ']') && !Wrapped(t, '{', '}') by {
      FirstChar(t);
    }
    assert t != "null" && t != "true" && t != "false" by {
      assert "null"[3] == 'l' && "true"[3] == 'e' && "false"[4] == 'e';
    }
  }

  /** An `Integer` is written as its digits and read back as a `Long`: the reader has no 32-bit numbers. */
  lemma {:induction false} IntReadAsLong(i: int)
    requires JavaString.INT_MIN <= i <= JavaString.INT_MAX
    ensures ParseJsonValue(JsonText(Int(i))) == Ok(Long(i))
  {
    ReadBackLong(i);
  }

  lemma {:induction false} ReadBackDouble(text: string)
    requires NumberText(text)
    ensures ParseJsonValue(text) == Ok(Double(text))
  {
    JavaString.TrimOfTrimmed(text);
    FirstChar(text);
    PointIsNoKeyword(text);
    assert JavaString.ParseDouble(text) == Ok(text);
  }

  lemma {:induction false} PointIsNoKeyword(t: string)
    requires '.' in t
    ensures t != "null" && t != "true" && t != "false"
  {
  }

  lemma {:induction false} ReadBackString(s: string)
    ensures ParseJsonValue(JsonText(Str(s))) == Ok(Str(s))
  {
    var t := JsonText(Str(s));
    JavaString.TrimOfTrimmed(t);
    FirstChar(t);
    QuoteIsNoNumber(t);
    EscapeRoundTrip(s);
  }

  lemma {:induction false} ReadBackList(items: seq<Value>)
    requires JsonData(List(items))
    ensures ParseJsonValue(JsonText(List(items))) == Ok(List(items))
    decreases items, 1
  {
    var t := JsonText(List(items));
    var ts := JsonTexts(items);
    var body := CommaSpace(ts);
    TextShape(List(items));
    Enclosing('[', body, ']');
    ArrayValue(t);
    if items != [] {
      ItemsSplit(items);
      PiecesShorter(body, |t|);
      ReadBackValues(items, |t|);
    }
  }

  /** Text between an opening and a closing character is wrapped by them, with that text inside. */
  lemma {:induction false} Enclosing(open: char, body: string, close: char)
    requires open != close
    ensures var t := [open] + body + [close];
      Wrapped(t, open, close) && |t| >= 2 && t[1..|t| - 1] == body && Inside(t) == JavaString.Trim(body)
  {
    var t := [open] + body + [close];
    assert t[..1] == [open] && t[|t| - 1..] == [close];
    assert t[1..|t| - 1] == body;
  }

  /** Bracketed text that trims to itself is read as an array. */
  lemma {:induction false} ArrayValue(t: string)
    requires Shaped(t) && Wrapped(t, '[', ']')
    ensures ParseJsonValue(t) == ParseJsonArray(t)
  {
    JavaString.TrimOfTrimmed(t);
    FirstChar(t);
  }

  /** The body of a list's text trims to itself and splits into the texts of the items. */
  lemma {:induction false} ItemsSplit(items: seq<Value>)
    requires items != [] && forall i :: 0 <= i < |items| ==> JsonData(items[i])
    ensures var body := CommaSpace(JsonTexts(items));
      JavaString.Trim(body) == body && Scanner.SplitTop(Scanner.JsonNested, body) == JsonTexts(items)
  {
    var ts := JsonTexts(items);
    forall i | 0 <= i < |ts|
      ensures Shaped(ts[i]) && Goes(Scanner.Start, ts[i], Scanner.Start)
    {
      JsonTextsAt(items, i);
      TextShape(items[i]);
      TextGoes(items[i], Scanner.Start);
    }
    CommaSpaceShape(ts);
    JavaString.TrimOfTrimmed(CommaSpace(ts));
    SplitCommaSpace(ts);
  }

  lemma {:induction false} ReadBackValues(items: seq<Value>, bound: nat)
    requires forall i :: 0 <= i < |items| ==> JsonData(items[i])
    requires forall i :: 0 <= i < |items| ==> |JsonTexts(items)[i]| < bound
    ensures ParseValues(JsonTexts(items), bound) == Ok(items)
    decreases items, 0
  {
    if items != [] {
      var ts := JsonTexts(items);
      assert ts[0] == JsonText(items[0]) && ts[1..] == JsonTexts(items[1..]);
      ReadBack(items[0]);
      ReadBackValues(items[1..], bound);
      assert [items[0]] + items[1..] == items;
    }
  }

  lemma {:induction false} ReadBackMap(entries: Entries<Value>)
    requires JsonData(Map(entries))
    ensures ParseJsonValue(JsonText(Map(entries))) == Ok(Map(entries))
    decreases entries, 1
  {
    var t := JsonText(Map(entries));
    var ts := EntryTexts(entries);
    var body := CommaSpace(ts);
    TextShape(Map(entries));
    Enclosing('{', body, '}');
    ObjectValue(t);
    if entries != [] {
      EntriesSplit(entries);
      PiecesShorter(body, |t|);
      ReadBackPairs(entries, [], |t|);
      assert [] + entries == entries;
    }
  }

  /** Braced text that trims to itself is read as an object. */
  lemma {:induction false} ObjectValue(t: string)
    requires Shaped(t) && Wrapped(t, '{', '}')
    ensures ParseJsonValue(t) == match ParseJsonObjectRaw(t) case Ok(entries) => Ok(Map(entries)) case Err(e) => Err(e)
    ensures ParseJsonObjectRaw(t) == (
      var body := Inside(t);
      if body == [] then Ok([])
      else
        PiecesShorter(body, |t|);
        ParsePairs(Scanner.SplitTop(Scanner.JsonNested, body), [], |t|))
  {
    JavaString.TrimOfTrimmed(t);
    FirstChar(t);
  }

  /** The body of an object's text trims to itself and splits into the texts of the entries. */
  lemma {:induction false} EntriesSplit(entries: Entries<Value>)
    requires entries != [] && EntriesData(entries)
    ensures var body := CommaSpace(EntryTexts(entries));
      JavaString.Trim(body) == body && Scanner.SplitTop(Scanner.JsonNested, body) == EntryTexts(entries)
  {
    var ts := EntryTexts(entries);
    forall i | 0 <= i < |ts|
      ensures Shaped(ts[i]) && Goes(Scanner.Start, ts[i], Scanner.Start)
    {
      EntryShape(entries, i);
    }
    CommaSpaceShape(ts);
    JavaString.TrimOfTrimmed(CommaSpace(ts));
    SplitCommaSpace(ts);
  }

  lemma {:induction false} EntryShape(entries: Entries<Value>, i: nat)
    requires EntriesData(entries) && i < |entries|
    ensures var e := EntryTexts(entries)[i]; Shaped(e) && Goes(Scanner.Start, e, Scanner.Start)
  {
    if i == 0 {
      var (key, value) := entries[0];
      var e := EntryText(key, value);
      TextShape(value);
      KeyGoes(key, Scanner.Start);
      TextGoes(value, Scanner.Start);
      GoesAppend(Scanner.Start, "\"" + key + "\": ", Scanner.Start, JsonText(value), Scanner.Start);
    } else {
      EntryShape(entries[1..], i - 1);
    }
  }

  /** The first separator of `a + [sep] + b` is the one after `a` when `a` has none. */
  lemma {:induction false} IndexOfAt(a: string, sep: char, b: string)
    requires sep !in a
    ensures JavaString.IndexOf(a + [sep] + b, sep) == Some(|a|)
  {
    if a != [] {
      assert (a + [sep] + b)[1..] == a[1..] + [sep] + b;
      IndexOfAt(a[1..], sep, b);
    }
  }

  lemma {:induction false} SplitFirstAt(a: string, sep: char, b: string)
    requires sep !in a
    ensures JavaString.SplitFirst(a + [sep] + b, sep) == [a, b]
  {
    var s := a + [sep] + b;
    IndexOfAt(a, sep, b);
    assert s[..|a|] == a && s[|a| + 1..] == b;
  }

  /** An entry's text splits at the colon after the key, into the quoted key and the value's text. */
  lemma {:induction false} EntryParts(key: string, value: Value)
    requires PlainKey(key) && JsonData(value)
    ensures var kv := JavaString.SplitFirst(EntryText(key, value), ':');
      |kv| == 2 && Key(JavaString.Trim(kv[0])) == Ok(key) && JavaString.Trim(kv[1]) == JsonText(value)
  {
    var quoted := "\"" + key + "\"";
    var rest := " " + JsonText(value);
    assert EntryText(key, value) == quoted + [':'] + rest;
    SplitFirstAt(quoted, ':', rest);
    KeyPart(key);
    ValuePart(value);
  }

  lemma {:induction false} KeyPart(key: string)
    ensures Key(JavaString.Trim("\"" + key + "\"")) == Ok(key)
  {
    var quoted := "\"" + key + "\"";
    JavaString.TrimOfTrimmed(quoted);
    assert quoted[..1] == "\"" && quoted[|quoted| - 1..] == "\"";
    assert quoted[1..|quoted| - 1] == key;
  }

  lemma {:induction false} ValuePart(value: Value)
    requires JsonData(value)
    ensures JavaString.Trim(" " + JsonText(value)) == JsonText(value)
  {
    TextShape(value);
    JavaString.TrimLead(" ", JsonText(value));
    JavaString.TrimOfTrimmed(JsonText(value));
  }

  lemma {:induction false} ReadBackPairs(entries: Entries<Value>, done: Entries<Value>, bound: nat)
    requires EntriesData(entries) && DistinctKeys(done) && DistinctKeys(done + entries)
    requires forall i :: 0 <= i < |entries| ==> |EntryTexts(entries)[i]| < bound
    ensures ParsePairs(EntryTexts(entries), done, bound) == Ok(done + entries)
    decreases entries, 0
  {
    if entries == [] {
      assert done + entries == done;
    } else {
      var (key, value) := entries[0];
      assert value < entries[0];
      ReadBack(value);
      EntryStep(entries, done, bound);
      ReadBackPairs(entries[1..], done + [entries[0]], bound);
    }
  }

  /** The first entry's text, whose value reads back, is put and the loop goes on with the rest. */
  lemma {:induction false} EntryStep(entries: Entries<Value>, done: Entries<Value>, bound: nat)
    requires entries != [] && EntriesData(entries) && DistinctKeys(done) && DistinctKeys(done + entries)
    requires forall i :: 0 <= i < |entries| ==> |EntryTexts(entries)[i]| < bound
    requires ParseJsonValue(JsonText(entries[0].1)) == Ok(entries[0].1)
    ensures DistinctKeys(done + [entries[0]]) && done + [entries[0]] + entries[1..] == done + entries
    ensures EntryTexts(entries)[1..] == EntryTexts(entries[1..])
    ensures ParsePairs(EntryTexts(entries), done, bound)
         == ParsePairs(EntryTexts(entries[1..]), done + [entries[0]], bound)
  {
    var (key, value) := entries[0];
    var ts := EntryTexts(entries);
    assert ts[0] == EntryText(key, value) && ts[1..] == EntryTexts(entries[1..]);
    EntryParts(key, value);
    PairStep(ts, done, bound, key, value);
    PutNew(done, entries);
  }

  /** A pair that splits, whose key and value read, is put and the loop goes on. */
  lemma {:induction false} PairStep(pairs: seq<string>, done: Entries<Value>, bound: nat, key: string, value: Value)
    requires pairs != [] && DistinctKeys(done)
    requires forall i :: 0 <= i < |pairs| ==> |pairs[i]| < bound
    requires var kv := JavaString.SplitFirst(pairs[0], ':');
      |kv| == 2 && Key(JavaString.Trim(kv[0])) == Ok(key) && ParseJsonValue(JavaString.Trim(kv[1])) == Ok(value)
    ensures DistinctKeys(Put(done, key, value))
    ensures ParsePairs(pairs, done, bound) == ParsePairs(pairs[1..], Put(done, key, value), bound)
  {
    PutDistinct(done, key, value);
  }

  /** The next entry of a map with distinct keys is new to the entries before it. */
  lemma {:induction false} PutNew<V>(done: Entries<V>, entries: Entries<V>)
    requires entries != [] && DistinctKeys(done + entries)
    ensures Put(done, entries[0].0, entries[0].1) == done + [entries[0]]
    ensures DistinctKeys(done + [entries[0]])
    ensures done + [entries[0]] + entries[1..] == done + entries
  {
    var all := done + entries;
    assert [entries[0]] + entries[1..] == entries;
    assert done + [entries[0]] + entries[1..] == all;
    KeysPrefix(done + [entries[0]], entries[1..]);
    assert Lookup(done, entries[0].0).None? by {
      forall i | 0 <= i < |done|
        ensures done[i].0 != entries[0].0
      {
        assert done[i] == all[i] && entries[0] == all[|done|];
      }
    }
  }

  /** A prefix of a map with distinct keys has distinct keys. */
  lemma {:induction false} KeysPrefix<V>(xs: Entries<V>, ys: Entries<V>)
    requires DistinctKeys(xs + ys)
    ensures DistinctKeys(xs)
  {
    forall i, j | 0 <= i < j < |xs|
      ensures xs[i].0 != xs[j].0
    {
      assert xs[i] == (xs + ys)[i] && xs[j] == (xs + ys)[j];
    }
  }
}
