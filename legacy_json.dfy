/**
 * The first-generation test-file reader: `JsonProcessor` of the default
 * package, of which `TestRunner.SimpleJsonParser` is a copy line for line.
 * Every value is a string. Objects are cut out by brace depth, pairs are
 * split at commas outside quotes only (brackets are not tracked), keys
 * and values lose one pair of quotes and are not unescaped, and a pair
 * without a colon is dropped rather than reported.
 */
module LegacyJson {
  import opened Wrappers
  import JavaString
  import Scanner
  import opened JavaValue
  import opened JsonProcessor
  import JsonRoundTrip

  // ============================================================ unquote

  /**
   * `unquote`: the trimmed text with one pair of surrounding quotes
   * removed; escapes are left as they are. A lone `"` makes
   * `substring(1, 0)` throw.
   */
  function Unquote(str: string): (r: Result<string>)
    ensures r.Err? <==> JavaString.Trim(str) == "\""
    ensures r.Err? ==> r.error.kind == IndexOutOfBounds
    ensures !QuotedText(JavaString.Trim(str)) ==> r == Ok(JavaString.Trim(str))
  {
    var t := JavaString.Trim(str);
    if QuotedText(t) then JavaString.Substring(t, 1, |t| - 1) else Ok(t)
  }

  /** What `unquote` removes is one quote at each end: quoting its result again gives the trimmed text back. */
  lemma {:induction false} UnquoteRequoted(str: string)
    requires QuotedText(JavaString.Trim(str)) && Unquote(str).Ok?
    ensures "\"" + Unquote(str).value + "\"" == JavaString.Trim(str)
  {
    var t := JavaString.Trim(str);
    assert t == t[..1] + t[1..|t| - 1] + t[|t| - 1..];
  }

  /** Quoting any text, escapes and quotes inside included, and unquoting it gives the text back. */
  lemma {:induction false} UnquoteQuoted(s: string)
    ensures Unquote("\"" + s + "\"") == Ok(s)
  {
    var t := "\"" + s + "\"";
    JavaString.TrimOfTrimmed(t);
    assert t[..1] == "\"" && t[|t| - 1..] == "\"";
    assert t[1..|t| - 1] == s;
  }

  // ============================================================ objects

  /** `parseJsonObject`'s brace removal: the trimmed text loses a leading `{` and a trailing `}`, each only where present. */
  function StripBraces(obj: string): (r: string)
    ensures |r| <= |obj|
  {
    var o := JavaString.Trim(obj);
    JavaString.TrimLength(obj);
    var a := if JavaString.StartsWith(o, "{") then o[1..] else o;
    if JavaString.EndsWith(a, "}") then a[..|a| - 1] else a
  }

  /** Missing braces are no error: a body reads the same with its braces or without them. */
  lemma {:induction false} BracesOptional(body: string)
    requires JavaString.Trim(body) == body
    requires body == [] || (body[0] != '{' && body[|body| - 1] != '}')
    ensures StripBraces("{" + body + "}") == body
    ensures StripBraces(body) == body
  {
    StripObject(body);
    if body != [] {
      assert !JavaString.StartsWith(body, "{") by {
        assert body[..1][0] == body[0];
      }
      assert !JavaString.EndsWith(body, "}") by {
        assert body[|body| - 1..][0] == body[|body| - 1];
      }
    }
  }

  /**
   * One pair put into the map: a pair without a colon is skipped;
   * otherwise the text before the first colon is the key and the rest the
   * value, each unquoted (the key first, so its error comes first).
   */
  function PutPair(pair: string, entries: Entries<string>): (r: Result<Entries<string>>)
    requires DistinctKeys(entries)
    ensures r.Ok? ==> DistinctKeys(r.value)
    ensures ':' !in pair ==> r == Ok(entries)
  {
    var kv := JavaString.SplitFirst(pair, ':');
    if |kv| != 2 then Ok(entries)
    else
      match Unquote(JavaString.Trim(kv[0]))
      case Err(e) => Err(e)
      case Ok(key) =>
        match Unquote(JavaString.Trim(kv[1]))
        case Err(e) => Err(e)
        case Ok(value) =>
          PutDistinct(entries, key, value);
          Ok(Put(entries, key, value))
  }

  /** The pairs put into the map in turn; the first error ends the run. */
  function PutPairs(pairs: seq<string>, entries: Entries<string>): (r: Result<Entries<string>>)
    requires DistinctKeys(entries)
    ensures r.Ok? ==> DistinctKeys(r.value)
  {
    if pairs == [] then Ok(entries)
    else
      match PutPair(pairs[0], entries)
      case Err(e) => Err(e)
      case Ok(next) => PutPairs(pairs[1..], next)
  }

  /** `parseJsonObject`: braces dropped, pairs split at commas outside quotes, and put in turn. */
  function ObjectOf(obj: string): (r: Result<Entries<string>>)
    ensures r.Ok? ==> DistinctKeys(r.value)
  {
    PutPairs(Scanner.SplitTop(Scanner.QuoteOnly, StripBraces(obj)), [])
  }

  /** A pair without a colon changes nothing, wherever it stands. */
  lemma {:induction false} NoColonDropped(before: seq<string>, pair: string, after: seq<string>, entries: Entries<string>)
    requires ':' !in pair && DistinctKeys(entries)
    ensures PutPairs(before + [pair] + after, entries) == PutPairs(before + after, entries)
  {
    if before == [] {
      assert before + [pair] + after == [pair] + after;
      assert ([pair] + after)[1..] == after;
      assert before + after == after;
    } else {
      assert (before + [pair] + after)[0] == before[0] && (before + after)[0] == before[0];
      assert (before + [pair] + after)[1..] == before[1..] + [pair] + after;
      assert (before + after)[1..] == before[1..] + after;
      var next := PutPair(before[0], entries);
      if next.Ok? {
        NoColonDropped(before[1..], pair, after, next.value);
      }
    }
  }

  /** `parseJsonObject`, with the loop that puts the pairs in turn. */
  method ParseJsonObject(obj: string) returns (r: Result<Entries<string>>)
    ensures r == ObjectOf(obj)
  {
    var o := StripBraces(obj);
    var pairs := Scanner.Split(Scanner.QuoteOnly, o);
    var result: Entries<string> := [];
    var i := 0;
    assert pairs[0..] == pairs;
    while i < |pairs|
      invariant 0 <= i <= |pairs|
      invariant DistinctKeys(result)
      invariant PutPairs(pairs, []) == PutPairs(pairs[i..], result)
    {
      PairsStep(pairs, i, result);
      var next := PutOne(pairs[i], result);
      if next.Err? {
        return Err(next.error);
      }
      result := next.value;
      i := i + 1;
    }
    assert pairs[i..] == [];
    return Ok(result);
  }

  /** The body of the pair loop: split at the first colon, unquote the key, then the value, and put them. */
  method PutOne(pair: string, entries: Entries<string>) returns (r: Result<Entries<string>>)
    requires DistinctKeys(entries)
    ensures r == PutPair(pair, entries)
  {
    var keyValue := JavaString.SplitFirst(pair, ':');
    if |keyValue| != 2 {
      return Ok(entries);
    }
    var key := Unquote(JavaString.Trim(keyValue[0]));
    if key.Err? {
      return Err(key.error);
    }
    var value := Unquote(JavaString.Trim(keyValue[1]));
    if value.Err? {
      return Err(value.error);
    }
    PutDistinct(entries, key.value, value.value);
    return Ok(Put(entries, key.value, value.value));
  }

  /** Putting the pairs from `i` on is putting pair `i`, then the rest. */
  lemma {:induction false} PairsStep(pairs: seq<string>, i: nat, entries: Entries<string>)
    requires i < |pairs| && DistinctKeys(entries)
    ensures PutPairs(pairs[i..], entries)
      == match PutPair(pairs[i], entries)
         case Err(e) => Err(e)
         case Ok(next) => PutPairs(pairs[i + 1..], next)
  {
    assert pairs[i..][0] == pairs[i] && pairs[i..][1..] == pairs[i + 1..];
  }

  // ============================================================= splitting

  /** Text with no quote, backslash or comma passes the quote-only splitter without a cut, brackets included. */
  lemma {:induction false} BareClean(s: string)
    requires '"' !in s && '\\' !in s && ',' !in s
    ensures Scanner.Clean(Scanner.QuoteOnly, s)
    decreases |s|
  {
    if s != [] {
      var d := Scanner.QuoteOnly;
      assert Scanner.Step(d, Scanner.Start, s[0]) == Scanner.Start;
      assert [s[0]][..0] == [] && [s[0]][1..] == [];
      assert Scanner.Clean(d, [s[0]]);
      BareClean(s[1..]);
      Scanner.CleanAppend(d, [s[0]], s[1..]);
      assert [s[0]] + s[1..] == s;
    } else {
      assert Scanner.NoCutFrom(Scanner.QuoteOnly, Scanner.Start, s);
    }
  }

  /**
   * `splitJsonPairs` does not track brackets: unquoted text is cut at every
   * comma, so an unquoted array value such as `[1,2]` falls apart.
   */
  lemma {:induction false} BracketsIgnored(parts: seq<string>)
    requires forall i :: 0 <= i < |parts| ==> '"' !in parts[i] && '\\' !in parts[i] && ',' !in parts[i]
    requires parts != [] ==> parts[|parts| - 1] != []
    ensures Scanner.SplitTop(Scanner.QuoteOnly, JavaString.Join(parts, ',')) == Scanner.TrimAll(parts)
  {
    forall i | 0 <= i < |parts|
      ensures Scanner.Clean(Scanner.QuoteOnly, parts[i])
    {
      BareClean(parts[i]);
    }
    Scanner.SplitJoined(Scanner.QuoteOnly, parts);
  }

  // ============================================================ test files

  /** Each object read in turn; the first that throws stops the loop. */
  function ObjectsOf(objects: seq<string>): (r: Result<seq<Entries<string>>>)
    ensures r.Ok? ==> |r.value| == |objects|
  {
    if objects == [] then Ok([])
    else
      match ObjectOf(objects[0])
      case Err(e) => Err(e)
      case Ok(m) =>
        match ObjectsOf(objects[1..])
        case Err(e) => Err(e)
        case Ok(ms) => Ok([m] + ms)
  }

  /**
   * `parseTestCases`: the trimmed text must be bracketed; a blank inside is
   * no test cases, and otherwise each object is read into a map of strings.
   */
  function TestCases(jsonContent: string): (r: Result<seq<Entries<string>>>)
    ensures !Wrapped(JavaString.Trim(jsonContent), '[', ']') ==>
              r == Throw(Runtime, "Invalid JSON format - must be an array")
    ensures Wrapped(JavaString.Trim(jsonContent), '[', ']') && JavaString.Trim(jsonContent) != "[" ==>
              (Inside(JavaString.Trim(jsonContent)) == [] ==> r == Ok([]))
  {
    var t := JavaString.Trim(jsonContent);
    if !Wrapped(t, '[', ']') then Throw(Runtime, "Invalid JSON format - must be an array")
    else
      WrappedEnds(t, '[', ']');
      var content := Inside(t);
      if content == [] then Ok([]) else ObjectsOf(Scanner.SplitObjects(content))
  }

  /** `parseTestCases`, with the loop that reads one object after another. */
  method ParseTestCases(jsonContent: string) returns (r: Result<seq<Entries<string>>>)
    ensures r == TestCases(jsonContent)
  {
    var t := JavaString.Trim(jsonContent);
    if !Wrapped(t, '[', ']') {
      return Throw(Runtime, "Invalid JSON format - must be an array");
    }
    WrappedEnds(t, '[', ']');
    var content := Inside(t);
    if content == [] {
      return Ok([]);
    }
    var objects := Scanner.SplitJsonObjects(content);
    r := ReadObjects(objects);
  }

  /** The loop of `parseTestCases` that reads one object after another. */
  method ReadObjects(objects: seq<string>) returns (r: Result<seq<Entries<string>>>)
    ensures r == ObjectsOf(objects)
  {
    var cases: seq<Entries<string>> := [];
    var i := 0;
    assert objects[0..] == objects;
    if ObjectsOf(objects).Ok? {
      assert [] + ObjectsOf(objects).value == ObjectsOf(objects).value;
    }
    while i < |objects|
      invariant 0 <= i <= |objects|
      invariant ObjectsOf(objects) == ObjectsAfter(cases, objects[i..])
    {
      assert objects[i..][1..] == objects[i + 1..];
      ObjectsStep(cases, objects[i..]);
      var m := ParseJsonObject(objects[i]);
      if m.Err? {
        return Err(m.error);
      }
      cases := cases + [m.value];
      i := i + 1;
    }
    assert objects[i..] == [];
    assert cases + [] == cases;
    return Ok(cases);
  }

  /** The objects still to read, after the maps already read. */
  function ObjectsAfter(done: seq<Entries<string>>, rest: seq<string>): Result<seq<Entries<string>>>
  {
    match ObjectsOf(rest)
    case Err(e) => Err(e)
    case Ok(ms) => Ok(done + ms)
  }

  lemma {:induction false} ObjectsStep(done: seq<Entries<string>>, rest: seq<string>)
    requires rest != []
    ensures var m := ObjectOf(rest[0]);
      ObjectsAfter(done, rest)
      == if m.Err? then Err(m.error) else ObjectsAfter(done + [m.value], rest[1..])
  {
    var m := ObjectOf(rest[0]);
    if m.Ok? {
      match ObjectsOf(rest[1..]) {
        case Ok(ms) =>
          Scanner.Regroup(done, [m.value], ms);
        case Err(e) =>
      }
    }
  }

  // ============================================== reading back a test file

  /** A value written between quotes that the reader takes back as it is. */
  predicate BareValue(v: string)
  {
    '"' !in v && '\\' !in v && '{' !in v && '}' !in v
  }

  /** A test case whose keys and values are bare, the keys distinct and free of colons. */
  predicate LegacyData(entries: Entries<string>)
  {
    DistinctKeys(entries)
    && forall i :: 0 <= i < |entries| ==> BareValue(entries[i].0) && ':' !in entries[i].0 && BareValue(entries[i].1)
  }

  /** A pair as a test file writes it: `"key": "value"`. */
  function PairText(key: string, value: string): string
  {
    "\"" + key + "\": \"" + value + "\""
  }

  function PairTexts(entries: Entries<string>): (r: seq<string>)
    ensures |r| == |entries|
    ensures forall i :: 0 <= i < |entries| ==> r[i] == PairText(entries[i].0, entries[i].1)
  {
    if entries == [] then [] else [PairText(entries[0].0, entries[0].1)] + PairTexts(entries[1..])
  }

  /** A test case as a test file writes it: `{"key": "value", ...}`. */
  function ObjectText(entries: Entries<string>): string
  {
    "{" + CommaSpace(PairTexts(entries)) + "}"
  }

  function ObjectTexts(cases: seq<Entries<string>>): (r: seq<string>)
    ensures |r| == |cases|
    ensures forall i :: 0 <= i < |cases| ==> r[i] == ObjectText(cases[i])
  {
    if cases == [] then [] else [ObjectText(cases[0])] + ObjectTexts(cases[1..])
  }

  /** A test file: the test cases' objects, separated by `", "`, in brackets. */
  function FileText(cases: seq<Entries<string>>): string
  {
    "[" + Scanner.Interleave(ObjectTexts(cases), ", ") + "]"
  }

  /** The pair text passes the quote-only splitter without a cut: its commas are inside quotes. */
  lemma {:induction false} PairClean(key: string, value: string)
    requires BareValue(key) && BareValue(value)
    ensures Scanner.Clean(Scanner.QuoteOnly, PairText(key, value))
  {
    var d := Scanner.QuoteOnly;
    Scanner.CleanQuoted(d, key);
    Scanner.CleanPlain(d, ": ");
    Scanner.CleanQuoted(d, value);
    Scanner.CleanAppend(d, "\"" + key + "\"", ": ");
    Scanner.CleanAppend(d, "\"" + key + "\"" + ": ", "\"" + value + "\"");
    assert "\"" + key + "\"" + ": " + ("\"" + value + "\"") == PairText(key, value);
  }

  /** A pair's text reads back as its key and value. */
  lemma {:induction false} PairParts(key: string, value: string)
    requires ':' !in key
    ensures var kv := JavaString.SplitFirst(PairText(key, value), ':');
      |kv| == 2 && Unquote(JavaString.Trim(kv[0])) == Ok(key) && Unquote(JavaString.Trim(kv[1])) == Ok(value)
  {
    var quoted := "\"" + key + "\"";
    var rest := " " + ("\"" + value + "\"");
    assert PairText(key, value) == quoted + [':'] + rest;
    JsonRoundTrip.SplitFirstAt(quoted, ':', rest);
    QuotedTrimmed(key);
    assert JavaString.Trim(rest) == "\"" + value + "\"" by {
      JavaString.TrimLead(" ", "\"" + value + "\"");
      QuotedTrimmed(value);
    }
    UnquoteQuoted(key);
    UnquoteQuoted(value);
  }

  /** A quoted text is its own trim. */
  lemma {:induction false} QuotedTrimmed(x: string)
    ensures JavaString.Trim("\"" + x + "\"") == "\"" + x + "\""
  {
    JavaString.TrimOfTrimmed("\"" + x + "\"");
  }

  /** The pair texts, split and put in turn, give the entries back after those already there. */
  lemma {:induction false} PutPairTexts(entries: Entries<string>, done: Entries<string>)
    requires LegacyData(entries) && DistinctKeys(done) && DistinctKeys(done + entries)
    ensures PutPairs(PairTexts(entries), done) == Ok(done + entries)
  {
    if entries == [] {
      assert done + entries == done;
    } else {
      PutFirstPair(entries, done);
      PutPairTexts(entries[1..], done + [entries[0]]);
    }
  }

  /** The first pair's text puts the first entry, and the rest go on from there. */
  lemma {:induction false} PutFirstPair(entries: Entries<string>, done: Entries<string>)
    requires entries != [] && LegacyData(entries) && DistinctKeys(done) && DistinctKeys(done + entries)
    ensures LegacyData(entries[1..]) && DistinctKeys(done + [entries[0]])
    ensures done + [entries[0]] + entries[1..] == done + entries
    ensures PutPairs(PairTexts(entries), done) == PutPairs(PairTexts(entries[1..]), done + [entries[0]])
  {
    var (key, value) := entries[0];
    assert PairTexts(entries) == [PairText(key, value)] + PairTexts(entries[1..]);
    assert ':' !in key;
    PutPairStep(key, value, PairTexts(entries[1..]), done);
    JsonRoundTrip.PutNew(done, entries);
    LegacyDataTail(entries);
  }

  lemma {:induction false} LegacyDataTail(entries: Entries<string>)
    requires entries != [] && LegacyData(entries)
    ensures LegacyData(entries[1..])
  {
    assert forall i :: 0 <= i < |entries[1..]| ==> entries[1..][i] == entries[i + 1];
  }

  /** A pair's text puts its key and value. */
  lemma {:induction false} PutPairStep(key: string, value: string, rest: seq<string>, done: Entries<string>)
    requires ':' !in key && DistinctKeys(done)
    ensures DistinctKeys(Put(done, key, value))
    ensures PutPairs([PairText(key, value)] + rest, done) == PutPairs(rest, Put(done, key, value))
  {
    PairParts(key, value);
    PutDistinct(done, key, value);
    assert ([PairText(key, value)] + rest)[1..] == rest;
  }

  /** The body of an object's text splits into its pair texts. */
  lemma {:induction false} SplitPairTexts(entries: Entries<string>)
    requires LegacyData(entries)
    ensures Scanner.SplitTop(Scanner.QuoteOnly, CommaSpace(PairTexts(entries))) == PairTexts(entries)
  {
    var ts := PairTexts(entries);
    var sp := JsonRoundTrip.Spaced(ts);
    if ts == [] {
      Scanner.SplitSingle(Scanner.QuoteOnly, "");
    } else {
      forall i | 0 <= i < |ts|
        ensures Scanner.Clean(Scanner.QuoteOnly, sp[i]) && JavaString.Trim(sp[i]) == ts[i]
      {
        SpacedPair(entries, i);
      }
      JsonRoundTrip.CommaSpaceJoin(ts);
      Scanner.SplitJoined(Scanner.QuoteOnly, sp);
      Scanner.TrimAllAt(sp);
    }
  }

  lemma {:induction false} SpacedPair(entries: Entries<string>, i: nat)
    requires LegacyData(entries) && i < |entries|
    ensures var sp := JsonRoundTrip.Spaced(PairTexts(entries));
      Scanner.Clean(Scanner.QuoteOnly, sp[i]) && JavaString.Trim(sp[i]) == PairTexts(entries)[i]
  {
    var t := PairTexts(entries)[i];
    PairClean(entries[i].0, entries[i].1);
    JavaString.TrimOfTrimmed(t);
    if i > 0 {
      Scanner.CleanPlain(Scanner.QuoteOnly, " ");
      Scanner.CleanAppend(Scanner.QuoteOnly, " ", t);
      JavaString.TrimLead(" ", t);
    }
  }

  /** `parseJsonObject` reads back the object text of a test case. */
  lemma {:induction false} ObjectReadBack(entries: Entries<string>)
    requires LegacyData(entries)
    ensures ObjectOf(ObjectText(entries)) == Ok(entries)
  {
    var ts := PairTexts(entries);
    var body := CommaSpace(ts);
    StripObject(body);
    SplitPairTexts(entries);
    PutPairTexts(entries, []);
    assert [] + entries == entries;
  }

  /** Braces around a body are stripped, whatever the body holds. */
  lemma {:induction false} StripObject(body: string)
    ensures StripBraces("{" + body + "}") == body
  {
    var t := "{" + body + "}";
    JavaString.TrimOfTrimmed(t);
    assert t[..1] == "{" && t[1..] == body + "}";
    assert (body + "}")[|body + "}"| - 1..] == "}";
    assert (body + "}")[..|body|] == body;
  }

  /** An object text is a flat object: braces around a body with no brace. */
  lemma {:induction false} ObjectFlat(entries: Entries<string>)
    requires LegacyData(entries)
    ensures Scanner.Flat(ObjectText(entries))
  {
    var ts := PairTexts(entries);
    var t := ObjectText(entries);
    forall i | 0 <= i < |ts|
      ensures '{' !in ts[i] && '}' !in ts[i]
    {
      assert ts[i] == "\"" + entries[i].0 + "\": \"" + entries[i].1 + "\"";
    }
    CommaSpaceExcludes(ts, '{');
    CommaSpaceExcludes(ts, '}');
    assert t[1..|t| - 1] == CommaSpace(ts);
  }

  lemma {:induction false} CommaSpaceExcludes(parts: seq<string>, c: char)
    requires c != ',' && c != ' ' && forall i :: 0 <= i < |parts| ==> c !in parts[i]
    ensures c !in CommaSpace(parts)
  {
    if |parts| > 1 {
      assert forall i :: 0 <= i < |parts| - 1 ==> parts[1..][i] == parts[i + 1];
      CommaSpaceExcludes(parts[1..], c);
      assert c !in parts[0];
    }
  }

  /** Flat objects joined by separators start with `{` and end with `}`. */
  lemma {:induction false} InterleaveEnds(objs: seq<string>, sep: string)
    requires objs != [] && forall i :: 0 <= i < |objs| ==> Scanner.Flat(objs[i])
    ensures var s := Scanner.Interleave(objs, sep); s != [] && s[0] == '{' && s[|s| - 1] == '}'
  {
    if |objs| > 1 {
      assert forall i :: 0 <= i < |objs| - 1 ==> objs[1..][i] == objs[i + 1];
      InterleaveEnds(objs[1..], sep);
    }
  }

  lemma {:induction false} ObjectsReadBack(cases: seq<Entries<string>>)
    requires forall i :: 0 <= i < |cases| ==> LegacyData(cases[i])
    ensures ObjectsOf(ObjectTexts(cases)) == Ok(cases)
  {
    if cases != [] {
      var tail := cases[1..];
      TailData(cases);
      ObjectsReadBack(tail);
      ObjectReadBack(cases[0]);
      TextsCons(cases);
      ObjectsCons(ObjectText(cases[0]), ObjectTexts(tail), cases[0], tail);
      assert [cases[0]] + tail == cases;
    }
  }

  lemma {:induction false} TailData(cases: seq<Entries<string>>)
    requires cases != [] && forall i :: 0 <= i < |cases| ==> LegacyData(cases[i])
    ensures forall i :: 0 <= i < |cases| - 1 ==> LegacyData(cases[1..][i])
  {
    forall i | 0 <= i < |cases| - 1
      ensures LegacyData(cases[1..][i])
    {
      assert cases[1..][i] == cases[i + 1];
    }
  }

  lemma {:induction false} TextsCons(cases: seq<Entries<string>>)
    requires cases != []
    ensures ObjectTexts(cases) == [ObjectText(cases[0])] + ObjectTexts(cases[1..])
  {
  }

  /** A first object that reads back, followed by objects that do, read back together. */
  lemma {:induction false} ObjectsCons(o: string, os: seq<string>, first: Entries<string>, rest: seq<Entries<string>>)
    requires ObjectOf(o) == Ok(first) && ObjectsOf(os) == Ok(rest)
    ensures ObjectsOf([o] + os) == Ok([first] + rest)
  {
    assert ([o] + os)[1..] == os;
  }

  /**
   * `parseTestCases` reads back a test file written from test cases whose
   * keys and values hold no quote, backslash or brace (and keys no colon),
   * keys distinct within each case.
   */
  lemma {:induction false} FileReadBack(cases: seq<Entries<string>>)
    requires forall i :: 0 <= i < |cases| ==> LegacyData(cases[i])
    ensures TestCases(FileText(cases)) == Ok(cases)
  {
    var objs := ObjectTexts(cases);
    var inner := Scanner.Interleave(objs, ", ");
    FileTextWrapped(cases);
    if cases != [] {
      ObjectsSplit(cases);
      ObjectsReadBack(cases);
    }
    TestCasesInside(FileText(cases), inner);
  }

  /** The objects of the test cases, joined, are their own trim and split back into those objects. */
  lemma {:induction false} ObjectsSplit(cases: seq<Entries<string>>)
    requires cases != [] && forall i :: 0 <= i < |cases| ==> LegacyData(cases[i])
    ensures var inner := Scanner.Interleave(ObjectTexts(cases), ", ");
      inner != [] && JavaString.Trim(inner) == inner && Scanner.SplitObjects(inner) == ObjectTexts(cases)
  {
    var objs := ObjectTexts(cases);
    var inner := Scanner.Interleave(objs, ", ");
    assert inner != [] && inner[0] == '{' && inner[|inner| - 1] == '}' by {
      ObjectsFlat(cases);
      InterleaveEnds(objs, ", ");
    }
    assert JavaString.Trim(inner) == inner by {
      JavaString.TrimOfTrimmed(inner);
    }
    assert Scanner.SplitObjects(inner) == objs by {
      ObjectsFlat(cases);
      Scanner.CommaSpaceSplits(objs);
    }
  }

  /** A trimmed, bracketed text whose inside is its own trim: the objects of that inside are read. */
  lemma {:induction false} TestCasesInside(t: string, inner: string)
    requires JavaString.Trim(t) == t && Wrapped(t, '[', ']') && |t| >= 2 && t[1..|t| - 1] == inner
    requires JavaString.Trim(inner) == inner
    ensures TestCases(t) == if inner == [] then Ok([]) else ObjectsOf(Scanner.SplitObjects(inner))
  {
  }

  /** A test file is its own trim, in brackets around the objects. */
  lemma {:induction false} FileTextWrapped(cases: seq<Entries<string>>)
    ensures var t := FileText(cases);
      JavaString.Trim(t) == t && Wrapped(t, '[', ']') && t[1..|t| - 1] == Scanner.Interleave(ObjectTexts(cases), ", ")
  {
    var t := FileText(cases);
    JavaString.TrimOfTrimmed(t);
    assert t[..1] == "[" && t[|t| - 1..] == "]";
  }

  /** Every object text of the test cases is a flat object. */
  lemma {:induction false} ObjectsFlat(cases: seq<Entries<string>>)
    requires forall i :: 0 <= i < |cases| ==> LegacyData(cases[i])
    ensures forall i :: 0 <= i < |cases| ==> Scanner.Flat(ObjectTexts(cases)[i])
  {
    forall i | 0 <= i < |cases|
      ensures Scanner.Flat(ObjectTexts(cases)[i])
    {
      ObjectFlat(cases[i]);
    }
  }
}
