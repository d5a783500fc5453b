/**
 * `TestResultsManager`: collects one `TestResult` per executed test,
 * keeps the pass and total counters in step with the list, and writes the
 * results file as JSON text. Saving the file and printing the summary are
 * I/O and are not modelled; the text a `PerformanceResult` prints as is a
 * parameter, since it formats floating-point numbers.
 */
module ResultsManager {
  import opened Wrappers
  import JavaString
  import Scanner
  import JsonProcessor
  import opened TestData

  // ============================================================ counting

  /** How many of the results passed. */
  function PassedCount(results: seq<TestResult>): (n: nat)
    ensures n <= |results|
  {
    if results == [] then 0
    else PassedCount(results[..|results| - 1]) + (if results[|results| - 1].passed then 1 else 0)
  }

  /** A result whose measurements enter the performance summary: passed and measured. */
  predicate Measured(r: TestResult)
  {
    r.passed && HasPerformanceData(r)
  }

  /** `validResults`: how many results passed and carry performance data. */
  function ValidCount(results: seq<TestResult>): (n: nat)
    ensures n <= PassedCount(results)
  {
    if results == [] then 0
    else ValidCount(results[..|results| - 1]) + (if Measured(results[|results| - 1]) then 1 else 0)
  }

  /** `totalMemory`: the memory of the measured results, summed. */
  function MemoryTotal(results: seq<TestResult>): int
  {
    if results == [] then 0
    else
      var r := results[|results| - 1];
      MemoryTotal(results[..|results| - 1]) + (if Measured(r) then r.performance.value.memoryUsedBytes else 0)
  }

  /** `maxMemory`: the largest memory of the measured results, and 0 when there is none larger. */
  function MemoryMax(results: seq<TestResult>): (m: int)
    ensures m >= 0
    ensures forall i :: 0 <= i < |results| && Measured(results[i]) ==> results[i].performance.value.memoryUsedBytes <= m
    ensures m == 0 || exists i :: 0 <= i < |results| && Measured(results[i]) && results[i].performance.value.memoryUsedBytes == m
  {
    if results == [] then 0
    else
      var init := results[..|results| - 1];
      var r := results[|results| - 1];
      var m0 := MemoryMax(init);
      assert forall i :: 0 <= i < |init| ==> init[i] == results[i];
      if Measured(r) && r.performance.value.memoryUsedBytes > m0 then r.performance.value.memoryUsedBytes else m0
  }

  /** The integer part of `PerformanceStats`: its times are floating-point and are not modelled. */
  datatype PerformanceStats = PerformanceStats(validResults: nat, totalMemory: int, maxMemory: int)

  // ============================================================ escaping

  /** The replacements `escapeJson` makes, in order; a backslash is not among them. */
  const RESULT_ESCAPES: seq<(char, string)> :=
    [('"', "\\\""), ('\n', "\\n"), ('\r', "\\r"), ('\t', "\\t")]

  /** `escapeJson`: `null` is written as nothing. */
  function EscapeJson(str: Option<string>): string
  {
    match str
    case None => ""
    case Some(s) => JsonProcessor.ReplaceEach(s, RESULT_ESCAPES)
  }

  /** How `escapeJson` writes one character. */
  function ResultEscapeChar(c: char): string
  {
    if c == '"' then "\\\""
    else if c == '\n' then "\\n"
    else if c == '\r' then "\\r"
    else if c == '\t' then "\\t"
    else [c]
  }

  function ResultEscapeEach(s: string): string
  {
    if s == [] then [] else ResultEscapeChar(s[0]) + ResultEscapeEach(s[1..])
  }

  lemma {:induction false} ResultEscapeOne(c: char)
    ensures JsonProcessor.ReplaceEach([c], RESULT_ESCAPES) == ResultEscapeChar(c)
  {
    if c == '"' {
      JsonProcessor.ReplaceEachHit(c, RESULT_ESCAPES, 0);
    } else if c == '\n' {
      JsonProcessor.ReplaceEachHit(c, RESULT_ESCAPES, 1);
    } else if c == '\r' {
      JsonProcessor.ReplaceEachHit(c, RESULT_ESCAPES, 2);
    } else if c == '\t' {
      JsonProcessor.ReplaceEachHit(c, RESULT_ESCAPES, 3);
    } else {
      JsonProcessor.ReplaceEachAbsent([c], RESULT_ESCAPES);
    }
  }

  /** The chain of replacements in `escapeJson` escapes character by character. */
  lemma {:induction false} EscapeJsonByChar(s: string)
    ensures EscapeJson(Some(s)) == ResultEscapeEach(s)
  {
    if s != [] {
      JsonProcessor.ReplaceEachAppend([s[0]], s[1..], RESULT_ESCAPES);
      assert [s[0]] + s[1..] == s;
      ResultEscapeOne(s[0]);
      EscapeJsonByChar(s[1..]);
    } else {
      JsonProcessor.ReplaceEachAbsent(s, RESULT_ESCAPES);
    }
  }

  /** Escaped text holds no raw line break, carriage return or tab, and every quote in it follows a backslash. */
  lemma {:induction false} EscapedIsOneLine(s: string)
    ensures var e := ResultEscapeEach(s);
      '\n' !in e && '\r' !in e && '\t' !in e
      && forall i :: 0 <= i < |e| && e[i] == '"' ==> i > 0 && e[i - 1] == '\\'
  {
    if s != [] {
      EscapedIsOneLine(s[1..]);
      var head := ResultEscapeChar(s[0]);
      var tail := ResultEscapeEach(s[1..]);
      var e := head + tail;
      assert e == ResultEscapeEach(s);
      forall i | 0 <= i < |e| && e[i] == '"'
        ensures i > 0 && e[i - 1] == '\\'
      {
        if i >= |head| {
          assert e[i] == tail[i - |head|];
          if i - |head| == 0 {
            assert false;
          }
          assert e[i - 1] == tail[i - |head| - 1];
        }
      }
    }
  }

  /**
   * `escapeJson` does not escape a backslash, so a backslash followed by `n`
   * is written exactly as a line break is, and a JSON reader reads both
   * back as a line break.
   */
  lemma {:induction false} BackslashNotEscaped()
    ensures EscapeJson(Some("\\n")) == EscapeJson(Some("\n")) == "\\n"
    ensures JsonProcessor.Unescape("\"" + EscapeJson(Some("\\n")) + "\"") == Ok("\n")
  {
    EscapeJsonByChar("\\n");
    EscapeJsonByChar("\n");
    assert ResultEscapeEach("\\n") == "\\" + ResultEscapeEach("n");
    var t := "\"\\n\"";
    assert "\"" + "\\n" + "\"" == t;
    assert t[..1] == "\"" && t[|t| - 1..] == "\"" && t[1..|t| - 1] == "\\n";
    assert JsonProcessor.Token("\\n", 0) == ('\n', 2);
    assert JsonProcessor.DecodedFrom("\\n", 2) == [];
    assert JsonProcessor.Decoded("\\n") == "\n";
    assert JsonProcessor.QuotedText(t);
  }

  /** What a JSON reader makes of escaped text with no backslash in it: the text itself. */
  lemma {:induction false} EscapeJsonRoundTrip(s: string)
    requires '\\' !in s
    ensures JsonProcessor.Decoded(ResultEscapeEach(s)) == s
  {
    if s != [] {
      var c := s[0];
      var e := ResultEscapeChar(c);
      var rest := ResultEscapeEach(s[1..]);
      assert JsonProcessor.Token(e + rest, 0) == (c, |e|);
      JsonProcessor.DecodedShift(e, rest, 0);
      EscapeJsonRoundTrip(s[1..]);
      assert [c] + s[1..] == s;
    }
  }

  // ======================================================== the JSON text

  /** One line of a result object: `    "key": "value"`. */
  function Field(key: string, value: string): string
  {
    "    \"" + key + "\": \"" + value + "\""
  }

  function StatusText(passed: bool): string
  {
    if passed then "✅ PASS" else "❌ FAIL"
  }

  /** The six fields every result object holds, each line but the last followed by `",\n"`. */
  function Core(r: TestResult): string
  {
    Field("name", EscapeJson(r.testName)) + ",\n"
    + Field("description", EscapeJson(r.description)) + ",\n"
    + Field("input", EscapeJson(r.input)) + ",\n"
    + Field("expected", EscapeJson(r.expected)) + ",\n"
    + Field("got", EscapeJson(r.actual)) + ",\n"
    + Field("status", StatusText(r.passed))
  }

  /** The `performance` line, written only with performance data. */
  function PerfLine(r: TestResult, perfText: PerformanceResult -> string): string
  {
    if HasPerformanceData(r) then ",\n" + Field("performance", EscapeJson(Some(perfText(r.performance.value)))) else ""
  }

  /** The `error` line, written only with an error that is neither null nor empty. */
  function ErrorLine(r: TestResult): string
  {
    if HasError(r) then ",\n" + Field("error", EscapeJson(r.error)) else ""
  }

  /** One result object, appended piece by piece as `generateResultsJson` appends it. */
  function ResultObject(r: TestResult, perfText: PerformanceResult -> string): string
  {
    "  {\n" + Core(r) + PerfLine(r, perfText) + ErrorLine(r) + "\n  }"
  }

  /**
   * The fields a result object holds, in order: the six always written,
   * then `performance` only with performance data and `error` only with
   * an error.
   */
  function FieldLines(r: TestResult, perfText: PerformanceResult -> string): (lines: seq<string>)
    ensures |lines| == 6 + (if HasPerformanceData(r) then 1 else 0) + (if HasError(r) then 1 else 0)
  {
    [Field("name", EscapeJson(r.testName)),
     Field("description", EscapeJson(r.description)),
     Field("input", EscapeJson(r.input)),
     Field("expected", EscapeJson(r.expected)),
     Field("got", EscapeJson(r.actual)),
     Field("status", StatusText(r.passed))]
    + (if HasPerformanceData(r) then [Field("performance", EscapeJson(Some(perfText(r.performance.value))))] else [])
    + (if HasError(r) then [Field("error", EscapeJson(r.error))] else [])
  }

  lemma {:induction false} InterleaveSnoc(parts: seq<string>, x: string, sep: string)
    requires parts != []
    ensures Scanner.Interleave(parts + [x], sep) == Scanner.Interleave(parts, sep) + sep + x
  {
    if |parts| == 1 {
      assert parts + [x] == [parts[0], x];
      assert [parts[0], x][1..] == [x];
    } else {
      assert (parts + [x])[1..] == parts[1..] + [x];
      InterleaveSnoc(parts[1..], x, sep);
    }
  }

  lemma {:induction false} InterleaveSix(a: string, b: string, c: string, d: string, e: string, f: string, sep: string)
    ensures Scanner.Interleave([a, b, c, d, e, f], sep) == a + sep + b + sep + c + sep + d + sep + e + sep + f
  {
    InterleaveSnoc([a], b, sep);
    assert [a] + [b] == [a, b];
    InterleaveSnoc([a, b], c, sep);
    assert [a, b] + [c] == [a, b, c];
    InterleaveSnoc([a, b, c], d, sep);
    assert [a, b, c] + [d] == [a, b, c, d];
    InterleaveSnoc([a, b, c, d], e, sep);
    assert [a, b, c, d] + [e] == [a, b, c, d, e];
    InterleaveSnoc([a, b, c, d, e], f, sep);
    assert [a, b, c, d, e] + [f] == [a, b, c, d, e, f];
  }

  /** An optional last line: joining it on adds the separator and the line, and nothing when it is absent. */
  lemma {:induction false} InterleaveOptional(parts: seq<string>, extra: seq<string>, sep: string)
    requires parts != [] && |extra| <= 1
    ensures Scanner.Interleave(parts + extra, sep) == Scanner.Interleave(parts, sep) + (if extra == [] then [] else sep + extra[0])
  {
    if extra == [] {
      assert parts + extra == parts;
    } else {
      assert extra == [extra[0]];
      InterleaveSnoc(parts, extra[0], sep);
    }
  }

  lemma {:induction false} JoinedLines(six: seq<string>, perf: seq<string>, err: seq<string>,
                    core: string, perfLine: string, errLine: string, sep: string)
    requires |six| == 6 && |perf| <= 1 && |err| <= 1
    requires core == six[0] + sep + six[1] + sep + six[2] + sep + six[3] + sep + six[4] + sep + six[5]
    requires perfLine == if perf == [] then [] else sep + perf[0]
    requires errLine == if err == [] then [] else sep + err[0]
    ensures core + perfLine + errLine == Scanner.Interleave(six + perf + err, sep)
  {
    InterleaveSix(six[0], six[1], six[2], six[3], six[4], six[5], sep);
    assert six == [six[0], six[1], six[2], six[3], six[4], six[5]];
    InterleaveOptional(six, perf, sep);
    InterleaveOptional(six + perf, err, sep);
  }

  /** A result object is its field lines, separated by `",\n"`, in braces. */
  lemma {:induction false} ResultObjectLines(r: TestResult, perfText: PerformanceResult -> string)
    ensures ResultObject(r, perfText) == "  {\n" + Scanner.Interleave(FieldLines(r, perfText), ",\n") + "\n  }"
  {
    var six := [Field("name", EscapeJson(r.testName)),
                Field("description", EscapeJson(r.description)),
                Field("input", EscapeJson(r.input)),
                Field("expected", EscapeJson(r.expected)),
                Field("got", EscapeJson(r.actual)),
                Field("status", StatusText(r.passed))];
    var perf := if HasPerformanceData(r) then [Field("performance", EscapeJson(Some(perfText(r.performance.value))))] else [];
    var err := if HasError(r) then [Field("error", EscapeJson(r.error))] else [];
    JoinedLines(six, perf, err, Core(r), PerfLine(r, perfText), ErrorLine(r), ",\n");
    assert FieldLines(r, perfText) == six + perf + err;
    Braced(Core(r), PerfLine(r, perfText), ErrorLine(r));
  }

  lemma {:induction false} Braced(core: string, perfLine: string, errLine: string)
    ensures "  {\n" + core + perfLine + errLine + "\n  }" == "  {\n" + (core + perfLine + errLine) + "\n  }"
  {
  }

  function ResultObjects(results: seq<TestResult>, perfText: PerformanceResult -> string): (objs: seq<string>)
    ensures |objs| == |results|
    ensures forall i :: 0 <= i < |results| ==> objs[i] == ResultObject(results[i], perfText)
  {
    seq(|results|, i requires 0 <= i < |results| => ResultObject(results[i], perfText))
  }

  /** The text the loop has written after the first `n` objects: each followed by a comma unless it is the last, and a line break. */
  function Body(objs: seq<string>, n: nat): string
    requires n <= |objs|
  {
    if n == 0 then ""
    else Body(objs, n - 1) + objs[n - 1] + (if n - 1 < |objs| - 1 then "," else "") + "\n"
  }

  lemma {:induction false} BodyStep(objs: seq<string>, n: nat, before: string, obj: string, comma: string)
    requires n < |objs| && before == "[\n" + Body(objs, n) && obj == objs[n]
    requires comma == if n < |objs| - 1 then "," else ""
    ensures before + obj + comma + "\n" == "[\n" + Body(objs, n + 1)
  {
  }

  /** `generateResultsJson` over a list of results. */
  function ResultsJson(objs: seq<string>): string
  {
    "[\n" + Body(objs, |objs|) + "]"
  }

  lemma {:induction false} BodyPrefix(objs: seq<string>, n: nat)
    requires 0 < n <= |objs|
    ensures Body(objs, n) == Scanner.Interleave(objs[..n], ",\n") + (if n < |objs| then ",\n" else "\n")
  {
    if n == 1 {
      assert objs[..1] == [objs[0]];
    } else {
      BodyPrefix(objs, n - 1);
      InterleaveSnoc(objs[..n - 1], objs[n - 1], ",\n");
      assert objs[..n] == objs[..n - 1] + [objs[n - 1]];
    }
  }

  /**
   * The results file: one object per result, in order, separated by
   * `",\n"` with no comma after the last, inside `[\n` and `]`.
   */
  lemma {:induction false} ResultsJsonShape(objs: seq<string>)
    ensures ResultsJson(objs)
         == if objs == [] then "[\n]"
            else "[\n" + Scanner.Interleave(objs, ",\n") + "\n]"
  {
    if objs != [] {
      BodyPrefix(objs, |objs|);
      assert objs[..|objs|] == objs;
    }
  }

  // ============================================================ paths

  /** `generateResultsFilePath`: `tests.json` becomes `tests-results.json`; a path without `.json` gets the suffix appended. */
  function ResultsFilePath(testFilePath: string): (r: string)
    ensures JavaString.EndsWith(testFilePath, ".json") ==> r == testFilePath[..|testFilePath| - 5] + "-results.json"
    ensures !JavaString.EndsWith(testFilePath, ".json") ==> r == testFilePath + "-results.json"
  {
    if JavaString.EndsWith(testFilePath, ".json") then testFilePath[..|testFilePath| - 5] + "-results.json"
    else testFilePath + "-results.json"
  }

  /** The results file of `stem.json` is `stem-results.json`, and it is never the test file itself. */
  lemma {:induction false} ResultsPathOfJson(stem: string)
    ensures ResultsFilePath(stem + ".json") == stem + "-results.json"
    ensures ResultsFilePath(stem + ".json") != stem + ".json"
  {
    var p := stem + ".json";
    assert p[|p| - 5..] == ".json";
    assert p[..|p| - 5] == stem;
    var r := stem + "-results.json";
    assert r[|r| - 5..] == ".json";
    assert |r| != |p|;
  }

  // ============================================================ the manager

  class TestResultsManager {
    var results: seq<TestResult>
    var passedCount: int
    var totalCount: int
    var performanceReportingEnabled: bool
    var testFilePath: string

    /** The counters agree with the list: one count per result, one pass per passed result. */
    ghost predicate Valid()
      reads this
    {
      totalCount == |results| && passedCount == PassedCount(results)
    }

    /** A new manager: no results, both counts 0, reporting off, no test file path. */
    constructor ()
      ensures Valid()
      ensures results == [] && passedCount == 0 && totalCount == 0
      ensures !performanceReportingEnabled && testFilePath == ""
    {
      results := [];
      passedCount := 0;
      totalCount := 0;
      performanceReportingEnabled := false;
      testFilePath := "";
    }

    /** `addResult`: one result appended, the total counted, and the pass counted when it passed. */
    method AddResult(testName: Option<string>, passed: bool, input: Option<string>, expected: Option<string>,
                     actual: Option<string>, error: Option<string>, description: Option<string>,
                     performance: Option<PerformanceResult>)
      requires Valid()
      modifies this
      ensures Valid()
      ensures results == old(results) + [TestResult(testName, passed, input, expected, actual, error, description, performance)]
      ensures totalCount == old(totalCount) + 1
      ensures passedCount == old(passedCount) + (if passed then 1 else 0)
      ensures passedCount <= totalCount
      ensures performanceReportingEnabled == old(performanceReportingEnabled) && testFilePath == old(testFilePath)
    {
      var result := TestResult(testName, passed, input, expected, actual, error, description, performance);
      results := results + [result];
      totalCount := totalCount + 1;
      if passed {
        passedCount := passedCount + 1;
      }
      assert results[..|results| - 1] == old(results);
    }

    /** `enablePerformanceReporting`: the flag is set and nothing else changes. */
    method EnablePerformanceReporting()
      modifies this
      ensures performanceReportingEnabled
      ensures results == old(results) && passedCount == old(passedCount) && totalCount == old(totalCount)
      ensures testFilePath == old(testFilePath)
    {
      performanceReportingEnabled := true;
    }

    /** `setTestFilePath`. */
    method SetTestFilePath(path: string)
      modifies this
      ensures testFilePath == path
      ensures results == old(results) && passedCount == old(passedCount) && totalCount == old(totalCount)
      ensures performanceReportingEnabled == old(performanceReportingEnabled)
    {
      testFilePath := path;
    }

    /** `generateResultsJson`, with its loop appending one object per result. */
    method GenerateResultsJson(perfText: PerformanceResult -> string) returns (json: string)
      ensures json == ResultsJson(ResultObjects(results, perfText))
    {
      ghost var objs := ResultObjects(results, perfText);
      json := "[\n";
      for i := 0 to |results|
        invariant json == "[\n" + Body(objs, i)
      {
        var result := results[i];
        var obj := ResultObject(result, perfText);
        assert obj == objs[i];
        var before := json;
        json := json + obj;
        if i < |results| - 1 {
          json := json + ",";
          json := json + "\n";
          BodyStep(objs, i, before, obj, ",");
        } else {
          json := json + "\n";
          BodyStep(objs, i, before, obj, "");
          assert before + obj + "" == before + obj;
        }
      }
      json := json + "]";
    }

    /** The counting part of `calculatePerformanceStats`: one pass over the results. */
    method CalculatePerformanceStats() returns (stats: PerformanceStats)
      ensures stats == PerformanceStats(ValidCount(results), MemoryTotal(results), MemoryMax(results))
    {
      var totalMemory := 0;
      var maxMemory := 0;
      var validResults := 0;
      for i := 0 to |results|
        invariant validResults == ValidCount(results[..i])
        invariant totalMemory == MemoryTotal(results[..i])
        invariant maxMemory == MemoryMax(results[..i])
      {
        assert results[..i + 1][..i] == results[..i];
        var result := results[i];
        if result.passed && HasPerformanceData(result) {
          var memoryBytes := result.performance.value.memoryUsedBytes;
          totalMemory := totalMemory + memoryBytes;
          maxMemory := if maxMemory >= memoryBytes then maxMemory else memoryBytes;
          validResults := validResults + 1;
        }
      }
      assert results[..|results|] == results;
      return PerformanceStats(validResults, totalMemory, maxMemory);
    }
  }
}
