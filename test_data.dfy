/**
 * The records the harness passes between reading, running and reporting:
 * the two generations of `TestCase`, and `TestResult` with its
 * `PerformanceResult`. The typed test case is built from a map of JSON
 * values, the string-only one from a map of strings; both fall back to
 * defaults only for keys that are absent.
 */
module TestData {
  import opened Wrappers
  import JavaString
  import opened JavaValue
  import JsonProcessor
  import TypeParser
  import LegacyJson

  // ================================================= the typed test case

  /**
   * `shared.TestDataModels.TestCase`. Fields Java may hold as `null` are
   * options; `input` is never null.
   */
  datatype TestCase = TestCase(
    name: Option<string>,
    input: string,
    inputTypes: Option<seq<string>>,
    expected: Option<string>,
    description: Option<string>)

  /** Java's class name of a value read from a test file, as a failed cast names it. */
  function ClassName(v: Value): string
  {
    match v
    case Long(_) => "java.lang.Long"
    case Double(_) => "java.lang.Double"
    case Bool(_) => "java.lang.Boolean"
    case Str(_) => "java.lang.String"
    case List(_) => "java.util.ArrayList"
    case Map(_) => "java.util.HashMap"
    case _ => "java.lang.Object"
  }

  /** The message of a failed cast between two classes of `java.base`, as JDK 11 and later word it. */
  function CastMessage(from: string, to: string): string
  {
    "class " + from + " cannot be cast to class " + to
    + " (" + from + " and " + to + " are in module java.base of loader 'bootstrap')"
  }

  /** A map lookup that a `(String)` cast accepts: absent, `null` or a string. */
  predicate CastsToString(found: Option<Value>)
  {
    found.None? || found.value.Null? || found.value.Str?
  }

  /**
   * `(String) data.getOrDefault(key, default)`: the default only when the
   * key is absent, `null` kept, and any value other than a string a
   * `ClassCastException`.
   */
  function StringOrDefault(data: JsonProcessor.Entries<Value>, key: string, default: string): (r: Result<Option<string>>)
    ensures r.Ok? <==> CastsToString(JsonProcessor.Lookup(data, key))
    ensures JsonProcessor.Lookup(data, key).None? ==> r == Ok(Some(default))
    ensures JsonProcessor.Lookup(data, key) == Some(Null) ==> r == Ok(None)
    ensures r.Err? ==> r.error.kind == ClassCast
  {
    var found: Option<Value> := JsonProcessor.Lookup(data, key);
    match found
    case None => Ok(Some(default))
    case Some(Null) => Ok(None)
    case Some(Str(s)) => Ok(Some(s))
    case Some(v) => Throw(ClassCast, CastMessage(ClassName(v), "java.lang.String"))
  }

  /** Each element's `toString`, quoted, joined by `", "`, in brackets: `convertListToJsonArray`. */
  function ListToJsonArray(items: seq<Value>): string
  {
    "[" + CommaSpace(TypeParser.Quoted(ShowAll(items))) + "]"
  }

  /** `convertListToJsonArray`, with its loop appending to a buffer. */
  method ConvertListToJsonArray(list: seq<Value>) returns (text: string)
    ensures text == ListToJsonArray(list)
  {
    var quoted := TypeParser.Quoted(ShowAll(list));
    text := "[";
    for i := 0 to |list|
      invariant text == "[" + CommaSpace(quoted[..i])
    {
      ghost var done := quoted[..i];
      if i > 0 {
        text := text + ", ";
      }
      ShowAllAt(list, i);
      var item := "\"" + Show(list[i]) + "\"";
      JsonProcessor.BufferStep("[", done, item);
      assert quoted[..i + 1] == done + [item];
      text := text + item;
    }
    assert quoted[..|list|] == quoted;
    text := text + "]";
  }

  /** The `input` field: a string kept as it is, a list written as a JSON array of strings, anything else empty. */
  function InputText(data: JsonProcessor.Entries<Value>): (r: string)
    ensures JsonProcessor.Lookup(data, "input").None? ==> r == ""
  {
    var found: Option<Value> := JsonProcessor.Lookup(data, "input");
    match found
    case Some(Str(s)) => s
    case Some(List(items)) => ListToJsonArray(items)
    case _ => ""
  }

  /** The `inputTypes` field: each element's `toString` when it is a list (a `null` element throws), otherwise none. */
  function InputTypes(data: JsonProcessor.Entries<Value>): (r: Result<Option<seq<string>>>)
    ensures r.Err? <==> (JsonProcessor.Lookup(data, "inputTypes").Some?
                         && JsonProcessor.Lookup(data, "inputTypes").value.List?
                         && Null in JsonProcessor.Lookup(data, "inputTypes").value.items)
    ensures r.Ok? && r.value.Some? ==> JsonProcessor.Lookup(data, "inputTypes").Some?
                                       && JsonProcessor.Lookup(data, "inputTypes").value.List?
                                       && |r.value.value| == |JsonProcessor.Lookup(data, "inputTypes").value.items|
  {
    var found: Option<Value> := JsonProcessor.Lookup(data, "inputTypes");
    match found
    case Some(List(items)) =>
      if Null in items then Err(Exc(NullPointer, None)) else Ok(Some(ShowAll(items)))
    case _ => Ok(None)
  }

  /** The `TestCase(Map<String, Object>)` constructor; the fields are read in declaration order. */
  function NewTestCase(data: JsonProcessor.Entries<Value>): (r: Result<TestCase>)
    ensures r.Ok? <==> CastsToString(JsonProcessor.Lookup(data, "name"))
                       && CastsToString(JsonProcessor.Lookup(data, "expected"))
                       && CastsToString(JsonProcessor.Lookup(data, "description"))
                       && InputTypes(data).Ok?
    ensures r.Ok? ==> r.value.input == InputText(data)
  {
    match StringOrDefault(data, "name", "Unknown")
    case Err(e) => Err(e)
    case Ok(name) =>
      var input := InputText(data);
      match StringOrDefault(data, "expected", "")
      case Err(e) => Err(e)
      case Ok(expected) =>
        match StringOrDefault(data, "description", "")
        case Err(e) => Err(e)
        case Ok(description) =>
          match InputTypes(data)
          case Err(e) => Err(e)
          case Ok(inputTypes) => Ok(TestCase(name, input, inputTypes, expected, description))
  }

  /** `hasTypeHints`. */
  predicate HasTypeHints(c: TestCase)
  {
    c.inputTypes.Some? && |c.inputTypes.value| > 0
  }

  /** A test case has type hints exactly when its map holds a non-empty list under `inputTypes`. */
  lemma {:induction false} TypeHintsFromData(data: JsonProcessor.Entries<Value>)
    requires NewTestCase(data).Ok?
    ensures HasTypeHints(NewTestCase(data).value)
            <==> (JsonProcessor.Lookup(data, "inputTypes").Some?
                  && JsonProcessor.Lookup(data, "inputTypes").value.List?
                  && |JsonProcessor.Lookup(data, "inputTypes").value.items| > 0)
  {
  }

  /** A map with none of the keys gives the defaults: `Unknown`, and empty input, expected output and description. */
  lemma {:induction false} DefaultsWhenAbsent()
    ensures NewTestCase([]) == Ok(TestCase(Some("Unknown"), "", None, Some(""), Some("")))
  {
  }

  // ========================================== the string-only test case

  /** `TestDataModels.TestCase` and `TestRunner.TestCase`: four strings, never null. */
  datatype PlainTestCase = PlainTestCase(name: string, input: string, expected: string, description: string)

  /** `data.getOrDefault(key, default)` on a map of strings. */
  function GetOrDefault(data: JsonProcessor.Entries<string>, key: string, default: string): (r: string)
    ensures JsonProcessor.Lookup(data, key).None? ==> r == default
    ensures JsonProcessor.Lookup(data, key).Some? ==> r == JsonProcessor.Lookup(data, key).value
  {
    match JsonProcessor.Lookup(data, key)
    case None => default
    case Some(v) => v
  }

  /** The `TestCase(Map<String, String>)` constructor of both string-only generations. */
  function NewPlainTestCase(data: JsonProcessor.Entries<string>): PlainTestCase
  {
    PlainTestCase(
      GetOrDefault(data, "name", "Unknown"),
      GetOrDefault(data, "input", ""),
      GetOrDefault(data, "expected", ""),
      GetOrDefault(data, "description", ""))
  }

  /**
   * A test file written from string-only test cases reads back into test
   * cases whose fields are the written values, and the defaults exactly
   * where a key was not written.
   */
  lemma {:induction false} PlainCasesFromFile(cases: seq<JsonProcessor.Entries<string>>, i: nat)
    requires forall j :: 0 <= j < |cases| ==> LegacyJson.LegacyData(cases[j])
    requires i < |cases|
    ensures LegacyJson.TestCases(LegacyJson.FileText(cases)).Ok?
    ensures var read := LegacyJson.TestCases(LegacyJson.FileText(cases)).value;
      i < |read|
      && NewPlainTestCase(read[i]).name == GetOrDefault(cases[i], "name", "Unknown")
      && NewPlainTestCase(read[i]).input == GetOrDefault(cases[i], "input", "")
      && NewPlainTestCase(read[i]).expected == GetOrDefault(cases[i], "expected", "")
      && NewPlainTestCase(read[i]).description == GetOrDefault(cases[i], "description", "")
  {
    LegacyJson.FileReadBack(cases);
  }

  // ============================================================ results

  /** `PerformanceResult`: nanoseconds, bytes and the number of measured runs. */
  datatype PerformanceResult = PerformanceResult(executionTimeNanos: int, memoryUsedBytes: int, iterations: int)

  /**
   * `TestResult` of both generations (the two classes are the same); its
   * constructor stores each argument unchanged.
   */
  datatype TestResult = TestResult(
    testName: Option<string>,
    passed: bool,
    input: Option<string>,
    expected: Option<string>,
    actual: Option<string>,
    error: Option<string>,
    description: Option<string>,
    performance: Option<PerformanceResult>)

  /** `hasError`: an error message that is neither null nor empty. */
  predicate HasError(r: TestResult)
  {
    r.error.Some? && r.error.value != ""
  }

  /** `hasPerformanceData`. */
  predicate HasPerformanceData(r: TestResult)
  {
    r.performance.Some?
  }
}
