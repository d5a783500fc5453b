/**
 * The standalone `TestRunner`: its own `TestResults` tally, its own
 * argument parsing (a `String` argument loses every quote), its own
 * `resultToString` (only `", "` becomes `","`), and `runSingleTest`, which
 * passes a test only when the text is exactly the expected one. Its
 * `SimpleJsonParser` is the same code as the first-generation
 * `JsonProcessor` and its `TestCase` the same as the string-only test case,
 * so both are modelled once, in `LegacyJson` and `TestData`.
 */
module TestRunner {
  import opened Wrappers
  import JavaString
  import opened JavaValue
  import TreeCodec
  import OutputFormatter
  import opened TestData
  import Executor
  import LegacyExecutor
  import PerformanceAnalyzer

  // ============================================================ TestResults

  /** `TestRunner.TestResult`: the typed test result without a description. */
  datatype RunnerResult = RunnerResult(
    testName: string,
    passed: bool,
    input: string,
    expected: string,
    actual: string,
    error: Option<string>,
    performance: Option<PerformanceResult>)

  /** The number of passed results. */
  function PassedOf(results: seq<RunnerResult>): (n: nat)
    ensures n <= |results|
  {
    if results == [] then 0
    else PassedOf(results[..|results| - 1]) + (if results[|results| - 1].passed then 1 else 0)
  }

  /** Every test passed exactly when the passed count reaches the number of results. */
  lemma {:induction false} AllPassedIff(results: seq<RunnerResult>)
    ensures PassedOf(results) == |results| <==> forall i :: 0 <= i < |results| ==> results[i].passed
  {
    if results != [] {
      var init := results[..|results| - 1];
      AllPassedIff(init);
      assert forall i :: 0 <= i < |init| ==> init[i] == results[i];
    }
  }

  /** `TestRunner.TestResults`: the results in order, the counters, and the reporting flag. */
  class TestResults {
    var results: seq<RunnerResult>
    var passed: int
    var total: int
    var showPerformance: bool

    /** The counters agree with the list: `passed <= total == |results|`. */
    ghost predicate Valid()
      reads this
    {
      total == |results| && passed == PassedOf(results)
    }

    constructor()
      ensures Valid()
      ensures results == [] && passed == 0 && total == 0 && !showPerformance
    {
      results := [];
      passed := 0;
      total := 0;
      showPerformance := false;
    }

    /** `addResult`: one more result, one more in `total`, and one more in `passed` exactly when it passed. */
    method AddResult(testName: string, passedTest: bool, input: string, expected: string, actual: string,
                     error: Option<string>, performance: Option<PerformanceResult>)
      requires Valid()
      modifies this
      ensures Valid()
      ensures results == old(results) + [RunnerResult(testName, passedTest, input, expected, actual, error, performance)]
      ensures total == old(total) + 1
      ensures passed == old(passed) + (if passedTest then 1 else 0)
      ensures passed <= total
      ensures showPerformance == old(showPerformance)
    {
      var r := RunnerResult(testName, passedTest, input, expected, actual, error, performance);
      assert (results + [r])[..|results|] == results;
      results := results + [r];
      total := total + 1;
      if passedTest {
        passed := passed + 1;
      }
    }

    /** `enablePerformanceReporting`: sets the flag and nothing else. */
    method EnablePerformanceReporting()
      modifies this
      ensures showPerformance
      ensures results == old(results) && passed == old(passed) && total == old(total)
    {
      showPerformance := true;
    }
  }

  // ============================================================ parseMethodArguments

  /** A method's single parameter is `String`. */
  predicate StringParameter(m: Executor.SolutionMethod)
  {
    |m.paramTypes| == 1 && m.paramTypes[0].simpleName != "TreeNode"
    && !LegacyExecutor.IntegerClass(m.paramTypes[0]) && m.paramTypes[0].name == "java.lang.String"
  }

  /**
   * `parseMethodArguments(method, input)`: no arguments for no parameters;
   * for one parameter, a tree from the array text, an integer, or the input
   * with every double quote removed, checked in that order; otherwise
   * unsupported.
   */
  function RunnerArguments(m: Executor.SolutionMethod, input: string): (r: Result<seq<Value>>)
    ensures m.paramTypes == [] ==> r == Ok([])
    ensures r.Ok? ==> |r.value| == |m.paramTypes|
    ensures |m.paramTypes| >= 2 ==> r == Err(LegacyExecutor.Unsupported(m))
    ensures StringParameter(m) ==> r.Ok? && r.value[0].Str? && '"' !in r.value[0].s
  {
    var params := m.paramTypes;
    if |params| == 0 then Ok([])
    else if |params| == 1 && params[0].simpleName == "TreeNode" then
      match TreeCodec.ParseArraySpec(input)
      case Err(e) => Err(e)
      case Ok(a) => Ok([TreeValue(TreeCodec.FromArraySpec(a))])
    else if |params| == 1 && LegacyExecutor.IntegerClass(params[0]) then
      match JavaString.ParseInt(input)
      case Err(e) => Err(e)
      case Ok(n) => Ok([Int(n)])
    else if |params| == 1 && params[0].name == "java.lang.String" then Ok([Str(JavaString.RemoveChar(input, '"'))])
    else Err(LegacyExecutor.Unsupported(m))
  }

  /** For every parameter but a `String`, this runner parses arguments as the legacy executor does. */
  lemma {:induction false} AgreesWithLegacy(m: Executor.SolutionMethod, input: string)
    requires !StringParameter(m)
    ensures RunnerArguments(m, input) == LegacyExecutor.LegacyArguments(m, input)
  {
  }

  /**
   * A quoted string without quotes inside reaches a `String` parameter
   * without its quotes, as in the legacy executor.
   */
  lemma {:induction false} QuotedStringArgument(m: Executor.SolutionMethod, s: string)
    requires StringParameter(m) && '"' !in s
    ensures RunnerArguments(m, "\"" + s + "\"") == Ok([Str(s)])
    ensures LegacyExecutor.LegacyArguments(m, "\"" + s + "\"") == Ok([Str(s)])
  {
    var q := "\"";
    assert JavaString.RemoveChar(q, '"') == [] by {
      assert q[1..] == [];
    }
    JavaString.RemoveCharAppend(q + s, q, '"');
    JavaString.RemoveCharAppend(q, s, '"');
    JavaString.RemoveCharAbsent(s, '"');
    assert JavaString.RemoveChar(q + s + q, '"') == s;
    LegacyExecutor.StringParameterQuoted(s);
  }

  /** The word `null` reaches a `String` parameter as text here, where the legacy executor passes `null`. */
  lemma {:induction false} NullWordIsText(m: Executor.SolutionMethod)
    requires StringParameter(m)
    ensures RunnerArguments(m, "null") == Ok([Str("null")])
    ensures LegacyExecutor.LegacyArguments(m, "null") == Ok([Null])
  {
    JavaString.RemoveCharAbsent("null", '"');
  }

  /** `parseMethodArguments`, calling the array parser. */
  method ParseRunnerArguments(m: Executor.SolutionMethod, input: string) returns (r: Result<seq<Value>>)
    ensures r == RunnerArguments(m, input)
  {
    var params := m.paramTypes;
    if |params| == 0 {
      return Ok([]);
    }
    if |params| == 1 {
      var paramType := params[0];
      if paramType.simpleName == "TreeNode" {
        var parsed := TreeCodec.ParseArray(input);
        if parsed.Err? {
          return Err(parsed.error);
        }
        return Ok([TreeValue(TreeCodec.FromArraySpec(parsed.value[..]))]);
      }
      if LegacyExecutor.IntegerClass(paramType) {
        var n := JavaString.ParseInt(input);
        if n.Err? {
          return Err(n.error);
        }
        return Ok([Int(n.value)]);
      }
      if paramType.name == "java.lang.String" {
        return Ok([Str(JavaString.RemoveChar(input, '"'))]);
      }
    }
    return Err(LegacyExecutor.Unsupported(m));
  }

  // ============================================================ resultToString

  /** The text before normalising: `List.toString`, `Arrays.toString` for `Integer[]` and `int[]`, else `toString`. */
  function RawText(v: Value): string
  {
    match v
    case Array(k, items) =>
      if k == IntegerArr || k == IntArr then "[" + CommaSpace(ShowAll(items)) + "]" else Show(v)
    case _ => Show(v)
  }

  /** `resultToString`: `null`, or the text with every `", "` turned into `","`. */
  function RunnerText(v: Value): (r: string)
    ensures v.Null? ==> r == "null"
  {
    if v.Null? then "null" else JavaString.ReplaceAll(RawText(v), ", ", ",")
  }

  /** A list or `Integer[]`/`int[]` whose elements print without commas is written `[a,b,c]`. */
  lemma {:induction false} CommaFreeList(v: Value)
    requires v.List? || (v.Array? && (v.kind == IntegerArr || v.kind == IntArr))
    requires forall i :: 0 <= i < |v.items| ==> ',' !in Show(v.items[i])
    ensures RunnerText(v) == "[" + JavaString.Join(ShowAll(v.items), ',') + "]"
  {
    var parts := ShowAll(v.items);
    forall i | 0 <= i < |parts|
      ensures ',' !in parts[i]
    {
      ShowAllAt(v.items, i);
    }
    assert RawText(v) == "[" + (CommaSpace(parts) + "]");
    OutputFormatter.CommaPassPrefix("[", CommaSpace(parts) + "]");
    OutputFormatter.CommaSpaceJoin(parts, "]");
  }

  /**
   * On lists and `Integer[]`/`int[]` results whose elements print without
   * commas, this runner writes the same text as the shared formatter.
   */
  lemma {:induction false} AgreesWithFormatter(v: Value)
    requires v.List? || (v.Array? && (v.kind == IntegerArr || v.kind == IntArr))
    requires forall i :: 0 <= i < |v.items| ==> ',' !in Show(v.items[i])
    ensures RunnerText(v) == OutputFormatter.ResultText(v)
  {
    CommaFreeList(v);
    var parts := ShowAll(v.items);
    forall i | 0 <= i < |parts|
      ensures parts[i] == OutputFormatter.Element(v.items[i], false)
    {
      ShowAllAt(v.items, i);
    }
    assert parts == OutputFormatter.Elements(v.items, false);
  }

  /** An `Integer[]` result is written in the form `TreeNode.parseArray` reads back. */
  lemma {:induction false} IntegerArrayRoundTrip(xs: seq<Option<int>>)
    requires TreeCodec.IntSlots(xs)
    ensures TreeCodec.ParseArraySpec(RunnerText(Array(IntegerArr, OutputFormatter.BoxedAll(xs)))) == Ok(xs)
  {
    var items := OutputFormatter.BoxedAll(xs);
    OutputFormatter.IntegerItems(xs);
    forall i | 0 <= i < |items|
      ensures ',' !in Show(items[i])
    {
      assert OutputFormatter.Elements(items, false)[i] == OutputFormatter.Element(items[i], false);
    }
    AgreesWithFormatter(Array(IntegerArr, items));
    OutputFormatter.IntegerArrayRoundTrip(xs);
  }

  // ============================================================ runSingleTest

  /** What `runSingleTest` records; the measurement runs before the final call, with three warm-ups and five runs. */
  function RunnerOutcome(tc: PlainTestCase, m: Executor.SolutionMethod, invoke: seq<Value> -> Result<Value>,
                         profiling: bool, samples: PerformanceAnalyzer.Samples): RunnerResult
  {
    match RunnerArguments(m, tc.input)
    case Err(e) => RunnerResult(tc.name, false, tc.input, tc.expected, "", e.message, None)
    case Ok(args) =>
      var performance :=
        if profiling then Some(PerformanceAnalyzer.Measurement(invoke(args).Err?, 3, 5, samples)) else None;
      match invoke(args)
      case Err(e) => RunnerResult(tc.name, false, tc.input, tc.expected, "", e.message, performance)
      case Ok(v) =>
        var actual := RunnerText(v);
        RunnerResult(tc.name, actual == tc.expected, tc.input, tc.expected, actual, None, performance)
  }

  /**
   * A test passes exactly when its argument parses, the method returns,
   * and the written result is the expected text character for character.
   */
  lemma {:induction false} RunnerPassedIff(tc: PlainTestCase, m: Executor.SolutionMethod, invoke: seq<Value> -> Result<Value>,
                        profiling: bool, samples: PerformanceAnalyzer.Samples)
    ensures RunnerOutcome(tc, m, invoke, profiling, samples).passed
        <==> (RunnerArguments(m, tc.input).Ok? && invoke(RunnerArguments(m, tc.input).value).Ok?
              && RunnerText(invoke(RunnerArguments(m, tc.input).value).value) == tc.expected)
  {
  }

  /**
   * The record keeps the test's name, input and expected text; a test that
   * threw has no output; a profiled test whose method throws still records
   * the measurement, all zeros; only a test whose arguments failed has none.
   */
  lemma {:induction false} RunnerOutcomeFields(tc: PlainTestCase, m: Executor.SolutionMethod, invoke: seq<Value> -> Result<Value>,
                            profiling: bool, samples: PerformanceAnalyzer.Samples)
    ensures var r := RunnerOutcome(tc, m, invoke, profiling, samples);
      r.testName == tc.name && r.input == tc.input && r.expected == tc.expected
      && (r.error.Some? ==> !r.passed && r.actual == "")
      && (r.performance.Some? <==> profiling && RunnerArguments(m, tc.input).Ok?)
      && (profiling && RunnerArguments(m, tc.input).Ok? && invoke(RunnerArguments(m, tc.input).value).Err?
          ==> r.performance == Some(PerformanceResult(0, 0, 0)))
  {
  }

  /** `runSingleTest`: exactly one result is added, and the counters follow it. */
  method RunSingleTest(tc: PlainTestCase, m: Executor.SolutionMethod, invoke: seq<Value> -> Result<Value>,
                       results: TestResults, profiling: bool, samples: PerformanceAnalyzer.Samples)
    requires results.Valid()
    modifies results
    ensures results.Valid()
    ensures results.results == old(results.results) + [RunnerOutcome(tc, m, invoke, profiling, samples)]
    ensures results.showPerformance == old(results.showPerformance)
  {
    var error: Option<string> := None;
    var actualStr := "";
    var passed := false;
    var performance: Option<PerformanceResult> := None;
    var args := ParseRunnerArguments(m, tc.input);
    if args.Err? {
      error := args.error.message;
    } else {
      if profiling {
        var measured := PerformanceAnalyzer.MeasurePerformance(invoke, args.value, 3, 5, samples);
        performance := Some(measured);
      }
      var result := invoke(args.value);
      if result.Err? {
        error := result.error.message;
      } else {
        actualStr := RunnerText(result.value);
        passed := actualStr == tc.expected;
      }
    }
    results.AddResult(tc.name, passed, tc.input, tc.expected, actualStr, error, performance);
  }

  /**
   * `runTests` once the test cases are read: a missing method records
   * nothing, otherwise each test case adds its result, in order.
   */
  method RunTests(cases: seq<PlainTestCase>, methods: seq<Executor.SolutionMethod>, className: string,
                  methodName: string, invoke: seq<Value> -> Result<Value>, profiling: bool,
                  samples: nat -> PerformanceAnalyzer.Samples)
    returns (results: TestResults)
    ensures fresh(results) && results.Valid()
    ensures results.showPerformance == profiling
    ensures Executor.FirstNamed(methods, methodName).None? ==> results.results == []
    ensures Executor.FirstNamed(methods, methodName).Some? ==>
      var m := methods[Executor.FirstNamed(methods, methodName).value];
      |results.results| == |cases|
      && forall i :: 0 <= i < |cases| ==> results.results[i] == RunnerOutcome(cases[i], m, invoke, profiling, samples(i))
  {
    results := new TestResults();
    if profiling {
      results.EnablePerformanceReporting();
    }
    var found := Executor.FindSolutionMethod(methods, className, methodName);
    if found.Err? {
      return;
    }
    RunCases(cases, found.value, invoke, profiling, samples, results);
  }

  /** The loop of `runTests`: each test case in turn adds its result. */
  method RunCases(cases: seq<PlainTestCase>, m: Executor.SolutionMethod, invoke: seq<Value> -> Result<Value>,
                  profiling: bool, samples: nat -> PerformanceAnalyzer.Samples, results: TestResults)
    requires results.Valid() && results.results == []
    modifies results
    ensures results.Valid() && results.showPerformance == old(results.showPerformance)
    ensures |results.results| == |cases|
    ensures forall i :: 0 <= i < |cases| ==> results.results[i] == RunnerOutcome(cases[i], m, invoke, profiling, samples(i))
  {
    ghost var outcomes := seq(|cases|, j requires 0 <= j < |cases| => RunnerOutcome(cases[j], m, invoke, profiling, samples(j)));
    for i := 0 to |cases|
      invariant results.Valid() && results.showPerformance == old(results.showPerformance)
      invariant results.results == outcomes[..i]
    {
      RunSingleTest(cases[i], m, invoke, results, profiling, samples(i));
      assert outcomes[..i + 1] == outcomes[..i] + [outcomes[i]];
    }
    assert outcomes[..|cases|] == outcomes;
  }
}
