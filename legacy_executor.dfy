/**
 * The first-generation `TestExecutor`: single-parameter methods only,
 * with a `TreeNode`, an `int`/`Integer` or a `String` parameter, and test
 * cases whose fields are plain strings. It finds methods, invokes them and
 * records results exactly as the shared executor does.
 */
module LegacyExecutor {
  import opened Wrappers
  import JavaString
  import opened JavaValue
  import TreeCodec
  import OutputFormatter
  import opened TestData
  import ResultsManager
  import TypeParser
  import Executor

  /**
   * `parseStringParameter`: the word `null` is a null argument, a quoted
   * input loses its quotes (a lone `"` makes `substring(1, 0)` throw), and
   * anything else is passed as it is.
   */
  function StringParameter(input: string): (r: Result<seq<Value>>)
    ensures r.Err? <==> input == "\""
    ensures r.Err? ==> r.error.kind == IndexOutOfBounds
    ensures r.Ok? ==> |r.value| == 1
  {
    if input == "null" then Ok([Null])
    else if JavaString.StartsWith(input, "\"") && JavaString.EndsWith(input, "\"") then
      match JavaString.Substring(input, 1, |input| - 1)
      case Err(e) => Err(e)
      case Ok(s) => Ok([Str(s)])
    else Ok([Str(input)])
  }

  /** A quoted input is passed without its quotes, even when it reads `null`. */
  lemma {:induction false} StringParameterQuoted(s: string)
    ensures StringParameter("\"" + s + "\"") == Ok([Str(s)])
  {
    var q := "\"" + s + "\"";
    assert q[..1] == "\"" && q[|q| - 1..] == "\"";
    assert q[1..|q| - 1] == s;
  }

  /** An input that neither reads `null` nor starts with a quote is passed unchanged. */
  lemma {:induction false} StringParameterPlain(s: string)
    requires s != "null" && (s == [] || s[0] != '"')
    ensures StringParameter(s) == Ok([Str(s)])
  {
    if s != [] {
      assert s[..1] == [s[0]];
    }
  }

  /** The classes the legacy parser accepts for an integer: `int` and `Integer`. */
  predicate IntegerClass(cls: TypeParser.JavaClass)
  {
    cls.name == "int" || cls.name == "java.lang.Integer"
  }

  function Unsupported(m: Executor.SolutionMethod): Exc
  {
    Exc(Runtime, Some("Unsupported parameter types for method: " + m.name))
  }

  /**
   * `parseMethodArguments(method, input)`: no arguments for no parameters;
   * for one parameter, a `TreeNode` built from the array text, an integer,
   * or a string, checked in that order; otherwise unsupported. The input is
   * not trimmed.
   */
  function LegacyArguments(m: Executor.SolutionMethod, input: string): (r: Result<seq<Value>>)
    ensures m.paramTypes == [] ==> r == Ok([])
    ensures r.Ok? ==> |r.value| == |m.paramTypes|
    ensures |m.paramTypes| >= 2 ==> r == Err(Unsupported(m))
  {
    var params := m.paramTypes;
    if |params| == 0 then Ok([])
    else if |params| == 1 && params[0].simpleName == "TreeNode" then
      match TreeCodec.ParseArraySpec(input)
      case Err(e) => Err(e)
      case Ok(a) => Ok([TreeValue(TreeCodec.FromArraySpec(a))])
    else if |params| == 1 && IntegerClass(params[0]) then
      match JavaString.ParseInt(input)
      case Err(e) => Err(e)
      case Ok(n) => Ok([Int(n)])
    else if |params| == 1 && params[0].name == "java.lang.String" then StringParameter(input)
    else Err(Unsupported(m))
  }

  /** An `int` parameter reads back any 32-bit integer written in decimal. */
  lemma {:induction false} IntegerArgumentRoundTrip(m: Executor.SolutionMethod, n: int)
    requires |m.paramTypes| == 1 && m.paramTypes[0].simpleName != "TreeNode" && IntegerClass(m.paramTypes[0])
    requires JavaString.INT_MIN <= n <= JavaString.INT_MAX
    ensures LegacyArguments(m, JavaString.IntToString(n)) == Ok([Int(n)])
  {
    JavaString.ParseIntToString(n);
  }

  /** A `TreeNode` parameter reads back the array text `TreeNode.toString` writes for any tree. */
  lemma {:induction false} TreeArgumentRoundTrip(m: Executor.SolutionMethod, t: TreeCodec.Tree)
    requires |m.paramTypes| == 1 && m.paramTypes[0].simpleName == "TreeNode" && TreeCodec.IntValues(t)
    ensures LegacyArguments(m, TreeCodec.TreeString(t)) == Ok([TreeValue(t)])
  {
    TreeCodec.TreeStringRoundTrip(t);
  }

  /**
   * What the legacy `executeTest` records. Its test cases never hold
   * `null`, so the header cannot throw; otherwise it is the shared flow.
   */
  function LegacyOutcome(tc: PlainTestCase, m: Executor.SolutionMethod, invoke: seq<Value> -> Result<Value>,
                         profiling: bool, measured: PerformanceResult): TestResult
  {
    match LegacyArguments(m, tc.input)
    case Err(e) => LegacyRecorded(tc, false, "", e.message, None)
    case Ok(args) =>
      match invoke(args)
      case Err(e) => LegacyRecorded(tc, false, "", e.message, None)
      case Ok(v) =>
        var actual := OutputFormatter.ResultText(v);
        LegacyRecorded(tc, OutputFormatter.ValidateResult(Some(tc.expected), Some(actual)), actual, None,
                       if profiling then Some(measured) else None)
  }

  function LegacyRecorded(tc: PlainTestCase, passed: bool, actual: string, error: Option<string>,
                          performance: Option<PerformanceResult>): TestResult
  {
    TestResult(Some(tc.name), passed, Some(tc.input), Some(tc.expected), Some(actual), error, Some(tc.description), performance)
  }

  /**
   * A legacy test passes exactly when its argument parses, the method
   * returns normally and the rendered result matches once normalised.
   */
  lemma {:induction false} LegacyPassedIff(tc: PlainTestCase, m: Executor.SolutionMethod, invoke: seq<Value> -> Result<Value>,
                        profiling: bool, measured: PerformanceResult)
    ensures LegacyOutcome(tc, m, invoke, profiling, measured).passed
        <==> (LegacyArguments(m, tc.input).Ok? && invoke(LegacyArguments(m, tc.input).value).Ok?
              && OutputFormatter.ValidateResult(Some(tc.expected),
                   Some(OutputFormatter.ResultText(invoke(LegacyArguments(m, tc.input).value).value))))
  {
  }

  /** A method with two or more parameters is never run: every such test records the unsupported-types error. */
  lemma {:induction false} SeveralParametersUnsupported(tc: PlainTestCase, m: Executor.SolutionMethod, invoke: seq<Value> -> Result<Value>,
                                     profiling: bool, measured: PerformanceResult)
    requires |m.paramTypes| >= 2
    ensures LegacyOutcome(tc, m, invoke, profiling, measured)
         == LegacyRecorded(tc, false, "", Some("Unsupported parameter types for method: " + m.name), None)
  {
  }

  /** `parseMethodArguments` of the legacy executor. */
  method ParseLegacyArguments(m: Executor.SolutionMethod, input: string) returns (r: Result<seq<Value>>)
    ensures r == LegacyArguments(m, input)
  {
    var params := m.paramTypes;
    if |params| == 0 {
      return Ok([]);
    }
    if |params| == 1 {
      var paramType := params[0];
      if paramType.simpleName == "TreeNode" {
        var parsed := TreeCodec.ParseArray(input);
        if parsed.Err? {
          return Err(parsed.error);
        }
        return Ok([TreeValue(TreeCodec.FromArraySpec(parsed.value[..]))]);
      }
      if IntegerClass(paramType) {
        var n := JavaString.ParseInt(input);
        if n.Err? {
          return Err(n.error);
        }
        return Ok([Int(n.value)]);
      }
      if paramType.name == "java.lang.String" {
        return StringParameter(input);
      }
    }
    return Err(Unsupported(m));
  }

  /** The legacy `executeTest`: one record added to the manager, and nothing else about it changes. */
  method LegacyExecuteTest(tc: PlainTestCase, m: Executor.SolutionMethod, invoke: seq<Value> -> Result<Value>,
                           manager: ResultsManager.TestResultsManager, profiling: bool, measured: PerformanceResult)
    requires manager.Valid()
    modifies manager
    ensures manager.Valid()
    ensures manager.results == old(manager.results) + [LegacyOutcome(tc, m, invoke, profiling, measured)]
    ensures manager.performanceReportingEnabled == old(manager.performanceReportingEnabled)
    ensures manager.testFilePath == old(manager.testFilePath)
  {
    var error: Option<string> := None;
    var actualStr := "";
    var passed := false;
    var performance: Option<PerformanceResult> := None;
    var args := ParseLegacyArguments(m, tc.input);
    if args.Err? {
      error := args.error.message;
    } else {
      var result := invoke(args.value);
      if result.Err? {
        error := result.error.message;
      } else {
        if profiling {
          performance := Some(measured);
        }
        actualStr := OutputFormatter.ResultToString(result.value);
        passed := OutputFormatter.Normalize(Some(tc.expected)) == OutputFormatter.Normalize(Some(actualStr));
      }
    }
    manager.AddResult(Some(tc.name), passed, Some(tc.input), Some(tc.expected), Some(actualStr), error,
                      Some(tc.description), performance);
  }
}
