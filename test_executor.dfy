/**
 * `shared.TestExecutor`: runs one test case against a solution method.
 * It splits the input into one text per parameter, parses each text with
 * `TypeParser`, invokes the method, renders the result, compares it with
 * the expected output once both are normalised, and records the outcome.
 * Reflection becomes data: a method is its name and its parameter classes,
 * and invoking it is a function parameter `invoke`, whose error carries
 * the message Java's exception would carry. The measured performance is a
 * parameter too, since it comes from clocks and the memory counters.
 */
module Executor {
  import opened Wrappers
  import JavaString
  import Scanner
  import opened JavaValue
  import JsonProcessor
  import JsonRoundTrip
  import TypeParser
  import OutputFormatter
  import opened TestData
  import ResultsManager

  /** A reflected solution method: its name and the classes of its parameters, in order. */
  datatype SolutionMethod = SolutionMethod(name: string, paramTypes: seq<TypeParser.JavaClass>)

  // ====================================================== findSolutionMethod

  /** The position of the first method with this name, if any. */
  function FirstNamed(methods: seq<SolutionMethod>, name: string): (r: Option<nat>)
    ensures r.Some? ==> r.value < |methods| && methods[r.value].name == name
                        && forall j :: 0 <= j < r.value ==> methods[j].name != name
    ensures r.None? ==> forall j :: 0 <= j < |methods| ==> methods[j].name != name
  {
    if methods == [] then None
    else if methods[0].name == name then Some(0)
    else
      match FirstNamed(methods[1..], name)
      case None => None
      case Some(k) => Some(k + 1)
  }

  function NotFound(className: string, methodName: string): Exc
  {
    Exc(NoSuchMethod, Some("Method " + methodName + " not found in " + className))
  }

  /**
   * `findSolutionMethod`: the first declared method with the name, in the
   * order the methods are given, and `NoSuchMethodException` when none has it.
   */
  method FindSolutionMethod(methods: seq<SolutionMethod>, className: string, methodName: string)
    returns (r: Result<SolutionMethod>)
    ensures FirstNamed(methods, methodName).Some? ==> r == Ok(methods[FirstNamed(methods, methodName).value])
    ensures FirstNamed(methods, methodName).None? ==> r == Err(NotFound(className, methodName))
  {
    for i := 0 to |methods|
      invariant forall j :: 0 <= j < i ==> methods[j].name != methodName
    {
      if methods[i].name == methodName {
        return Ok(methods[i]);
      }
    }
    return Err(NotFound(className, methodName));
  }

  // ========================================================= parseJsonArray

  /** `unquoteValue`: one pair of surrounding quotes removed; text shorter than two characters kept. */
  function UnquoteValue(value: string): (r: string)
    ensures |r| <= |value|
    ensures r != value ==> |value| >= 2 && JsonProcessor.QuotedText(value) && "\"" + r + "\"" == value
  {
    if |value| < 2 then value
    else if JsonProcessor.QuotedText(value) then value[1..|value| - 1]
    else value
  }

  /** Quoting and then unquoting gives the text back, even when it is empty. */
  lemma {:induction false} UnquoteValueQuoted(s: string)
    ensures UnquoteValue("\"" + s + "\"") == s
  {
    var q := "\"" + s + "\"";
    assert q[..1] == "\"" && q[|q| - 1..] == "\"";
    assert q[1..|q| - 1] == s;
  }

  /** A lone quote is kept as it is: the length check comes before the quote check. */
  lemma {:induction false} UnquoteLoneQuote()
    ensures UnquoteValue("\"") == "\""
  {
  }

  function UnquoteAll(parts: seq<string>): (r: seq<string>)
    ensures |r| == |parts| && forall i :: 0 <= i < |parts| ==> r[i] == UnquoteValue(parts[i])
  {
    seq(|parts|, i requires 0 <= i < |parts| => UnquoteValue(parts[i]))
  }

  /**
   * `parseJsonArray`: the trimmed text between the outer brackets, split
   * at the commas outside quotes, brackets and braces, each piece trimmed
   * and unquoted.
   */
  function JsonArrayValues(jsonArray: string): seq<string>
    requires |jsonArray| >= 2
  {
    var content := JsonProcessor.Inside(jsonArray);
    if content == [] then [] else UnquoteAll(Scanner.SplitTop(Scanner.Nested, content))
  }

  /** `parseJsonArray`: the shared splitting loop, then each piece unquoted. */
  method ParseJsonArray(jsonArray: string) returns (values: seq<string>)
    requires |jsonArray| >= 2
    ensures values == JsonArrayValues(jsonArray)
  {
    var content := JavaString.Trim(jsonArray[1..|jsonArray| - 1]);
    if content == [] {
      return [];
    }
    var parts := Scanner.Split(Scanner.Nested, content);
    values := [];
    for i := 0 to |parts|
      invariant values == UnquoteAll(parts[..i])
    {
      values := values + [UnquoteValue(parts[i])];
    }
    assert parts[..|parts|] == parts;
  }

  lemma {:induction false} QuotedSpacedPart(xs: seq<string>, i: nat)
    requires TypeParser.Unescaped(xs) && i < |xs|
    ensures Scanner.Clean(Scanner.Nested, JsonRoundTrip.Spaced(TypeParser.Quoted(xs))[i])
    ensures JavaString.Trim(JsonRoundTrip.Spaced(TypeParser.Quoted(xs))[i]) == TypeParser.Quote(xs[i])
  {
    var q := TypeParser.Quote(xs[i]);
    assert q[0] == '"' && q[|q| - 1] == '"';
    Scanner.CleanQuoted(Scanner.Nested, xs[i]);
    JavaString.TrimOfTrimmed(q);
    if i > 0 {
      Scanner.CleanPlain(Scanner.Nested, " ");
      Scanner.CleanAppend(Scanner.Nested, " ", q);
      JavaString.TrimLead(" ", q);
    }
  }

  /** Quoted strings joined by `", "` split back into the quoted strings. */
  lemma {:induction false} QuotedListSplit(xs: seq<string>)
    requires TypeParser.Unescaped(xs)
    ensures Scanner.SplitTop(Scanner.Nested, CommaSpace(TypeParser.Quoted(xs))) == TypeParser.Quoted(xs)
  {
    var qs := TypeParser.Quoted(xs);
    var sp := JsonRoundTrip.Spaced(qs);
    forall i | 0 <= i < |sp|
      ensures Scanner.Clean(Scanner.Nested, sp[i]) && JavaString.Trim(sp[i]) == qs[i]
    {
      QuotedSpacedPart(xs, i);
    }
    JsonRoundTrip.CommaSpaceJoin(qs);
    Scanner.SplitJoined(Scanner.Nested, sp);
    Scanner.TrimAllAt(sp);
  }

  /** The first spaced part opens with a quote and the last closes with one. */
  lemma {:induction false} SpacedQuotesEnds(xs: seq<string>)
    requires xs != []
    ensures var sp := JsonRoundTrip.Spaced(TypeParser.Quoted(xs));
      sp[0] != [] && sp[0][0] == '"' && sp[|sp| - 1] != [] && sp[|sp| - 1][|sp[|sp| - 1]| - 1] == '"'
  {
    var qs := TypeParser.Quoted(xs);
    var sp := JsonRoundTrip.Spaced(qs);
    var first := TypeParser.Quote(xs[0]);
    var last := TypeParser.Quote(xs[|xs| - 1]);
    assert first[0] == '"' && last[|last| - 1] == '"';
    if |xs| > 1 {
      assert sp[|sp| - 1] == " " + last;
    }
  }

  /** Quoted strings joined by `", "` begin and end with a quote, so trimming leaves them alone. */
  lemma {:induction false} QuotedBodyTrimmed(xs: seq<string>)
    requires xs != []
    ensures CommaSpace(TypeParser.Quoted(xs)) != []
    ensures JavaString.Trim(CommaSpace(TypeParser.Quoted(xs))) == CommaSpace(TypeParser.Quoted(xs))
  {
    var qs := TypeParser.Quoted(xs);
    var sp := JsonRoundTrip.Spaced(qs);
    SpacedQuotesEnds(xs);
    JsonRoundTrip.CommaSpaceJoin(qs);
    JavaString.JoinFirst(sp, ',');
    JavaString.JoinLast(sp, ',');
    JavaString.TrimOfTrimmed(CommaSpace(qs));
  }

  /** Unquoting each quoted string gives the strings back. */
  lemma {:induction false} UnquoteAllQuoted(xs: seq<string>)
    ensures UnquoteAll(TypeParser.Quoted(xs)) == xs
  {
    var qs := TypeParser.Quoted(xs);
    forall i | 0 <= i < |xs|
      ensures UnquoteAll(qs)[i] == xs[i]
    {
      UnquoteValueQuoted(xs[i]);
    }
  }

  /** What `parseJsonArray` looks at inside brackets is the trimmed text between them. */
  lemma {:induction false} InsideBrackets(body: string)
    ensures JsonProcessor.Inside("[" + body + "]") == JavaString.Trim(body)
  {
    var s := "[" + body + "]";
    assert s[1..|s| - 1] == body;
  }

  /**
   * A JSON array of strings with no quote or backslash in them, written
   * with `", "` between the elements, reads back as those strings: commas
   * and brackets inside the quotes do not split.
   */
  lemma {:induction false} JsonArrayRoundTrip(xs: seq<string>)
    requires TypeParser.Unescaped(xs)
    ensures JsonArrayValues("[" + CommaSpace(TypeParser.Quoted(xs)) + "]") == xs
  {
    var qs := TypeParser.Quoted(xs);
    var body := CommaSpace(qs);
    InsideBrackets(body);
    if xs != [] {
      QuotedBodyTrimmed(xs);
      var content := JsonProcessor.Inside("[" + body + "]");
      assert content == body;
      QuotedListSplit(xs);
      assert Scanner.SplitTop(Scanner.Nested, content) == qs;
      UnquoteAllQuoted(xs);
    } else {
      assert body == [];
    }
  }

  // ======================================================== parseInputValues

  /** The values of `input` when it is an array: empty when it is not. */
  function ArrayValues(t: string): seq<string>
  {
    if JsonProcessor.Wrapped(t, '[', ']') then
      JsonProcessor.WrappedEnds(t, '[', ']');
      JsonArrayValues(t)
    else []
  }

  /**
   * `parseInputValues`: the trimmed input split as a JSON array when it
   * has exactly as many elements as the method has parameters, and
   * otherwise the trimmed input as the only value.
   */
  function InputValues(input: string, paramCount: nat): (r: seq<string>)
    ensures |r| == paramCount || r == [JavaString.Trim(input)]
    ensures paramCount == 1 ==> |r| == 1
  {
    var t := JavaString.Trim(input);
    var params := ArrayValues(t);
    if JsonProcessor.Wrapped(t, '[', ']') && paramCount > 1 && |params| == paramCount then params
    else if paramCount == 1 && JsonProcessor.Wrapped(t, '[', ']') && |params| == 1 then [params[0]]
    else [t]
  }

  /** `parseInputValues`, with its calls to `parseJsonArray`. */
  method ParseInputValues(input: string, paramCount: nat) returns (values: seq<string>)
    ensures values == InputValues(input, paramCount)
  {
    var t := JavaString.Trim(input);
    if JsonProcessor.Wrapped(t, '[', ']') && paramCount > 1 {
      JsonProcessor.WrappedEnds(t, '[', ']');
      var params := ParseJsonArray(t);
      if |params| == paramCount {
        return params;
      }
    }
    if paramCount == 1 && JsonProcessor.Wrapped(t, '[', ']') {
      JsonProcessor.WrappedEnds(t, '[', ']');
      var params := ParseJsonArray(t);
      if |params| == 1 {
        return [params[0]];
      }
      return [t];
    }
    return [t];
  }

  /**
   * The input a list in the test file becomes (each element's text,
   * quoted and joined by `", "`) splits back into those texts, one per
   * parameter, as long as no text holds a quote or a backslash.
   */
  lemma {:induction false} ListInputValues(items: seq<Value>)
    requires |items| >= 1 && TypeParser.Unescaped(ShowAll(items))
    ensures InputValues(ListToJsonArray(items), |items|) == ShowAll(items)
  {
    QuotedInputValues(ShowAll(items));
  }

  /** Quoted texts joined by `", "` in brackets give those texts, one per parameter. */
  lemma {:induction false} QuotedInputValues(xs: seq<string>)
    requires |xs| >= 1 && TypeParser.Unescaped(xs)
    ensures InputValues("[" + CommaSpace(TypeParser.Quoted(xs)) + "]", |xs|) == xs
  {
    var s := "[" + CommaSpace(TypeParser.Quoted(xs)) + "]";
    assert |s| >= 2 && s[0] == '[' && s[|s| - 1] == ']';
    JsonArrayRoundTrip(xs);
    ArrayInput(s, |xs|);
  }

  /** A bracketed input with as many elements as parameters gives its elements. */
  lemma {:induction false} ArrayInput(s: string, paramCount: nat)
    requires |s| >= 2 && s[0] == '[' && s[|s| - 1] == ']'
    requires paramCount >= 1 && |JsonArrayValues(s)| == paramCount
    ensures InputValues(s, paramCount) == JsonArrayValues(s)
  {
    var p := JsonArrayValues(s);
    assert JavaString.Trim(s) == s by {
      JavaString.TrimOfTrimmed(s);
    }
    assert JsonProcessor.Wrapped(s, '[', ']') by {
      assert s[..1] == "[" && s[|s| - 1..] == "]";
    }
    assert ArrayValues(s) == p;
    if paramCount == 1 {
      assert [p[0]] == p;
    }
  }

  // ===================================================== parseMethodArguments

  /** The type hint of parameter `i`: only when the test case has type hints. */
  function Hint(tc: TestCase, i: nat): Option<string>
  {
    if HasTypeHints(tc) && i < |tc.inputTypes.value| then Some(tc.inputTypes.value[i]) else None
  }

  /** The counts `parseMethodArguments` checks before it parses. */
  predicate CountsAgree(params: seq<TypeParser.JavaClass>, values: seq<string>, tc: TestCase)
  {
    |params| == |values| && (HasTypeHints(tc) ==> |tc.inputTypes.value| == |params|)
  }

  /** `TypeParser.parseParameter` on parameter `i` (only ever asked for an existing parameter). */
  function Param(params: seq<TypeParser.JavaClass>, values: seq<string>, tc: TestCase, i: nat): Result<Value>
  {
    if i < |params| && i < |values| then TypeParser.ParseParameter(params[i], Some(values[i]), Hint(tc, i))
    else Ok(Null)
  }

  function ParamParser(params: seq<TypeParser.JavaClass>, values: seq<string>, tc: TestCase): nat -> Result<Value>
  {
    (i: nat) => Param(params, values, tc, i)
  }

  /** Parameter `i` is parsed with its own value and, when the test case has them, its own type hint. */
  lemma {:induction false} ParamAt(params: seq<TypeParser.JavaClass>, values: seq<string>, tc: TestCase, i: nat)
    requires CountsAgree(params, values, tc) && i < |params|
    ensures ParamParser(params, values, tc)(i)
      == TypeParser.ParseParameter(params[i], Some(values[i]), if HasTypeHints(tc) then Some(tc.inputTypes.value[i]) else None)
  {
    assert Hint(tc, i) == if HasTypeHints(tc) then Some(tc.inputTypes.value[i]) else None;
  }

  /**
   * A loop that parses arguments `0` to `n - 1` in order with `parse`:
   * every argument parsed, or the first failure thrown.
   */
  function ParseAll(parse: nat -> Result<Value>, n: nat): (r: Result<seq<Value>>)
    ensures r.Ok? ==> |r.value| == n
  {
    if n == 0 then Ok([])
    else
      match ParseAll(parse, n - 1)
      case Err(e) => Err(e)
      case Ok(prev) =>
        match parse(n - 1)
        case Err(e) => Err(e)
        case Ok(v) => Ok(prev + [v])
  }

  /**
   * The loop succeeds exactly when every argument parses, and then holds
   * them in order; otherwise it throws the failure of the first argument
   * that does not parse.
   */
  lemma {:induction false} ParseAllOutcome(parse: nat -> Result<Value>, n: nat)
    ensures ParseAll(parse, n).Ok? <==> forall i :: 0 <= i < n ==> parse(i).Ok?
    ensures ParseAll(parse, n).Ok? ==> forall i :: 0 <= i < n ==> ParseAll(parse, n).value[i] == parse(i).value
    ensures ParseAll(parse, n).Err? ==> exists i :: 0 <= i < n && parse(i) == Err(ParseAll(parse, n).error)
                                                  && forall j :: 0 <= j < i ==> parse(j).Ok?
  {
    if n > 0 {
      ParseAllOutcome(parse, n - 1);
      var before := ParseAll(parse, n - 1);
      if before.Ok? && parse(n - 1).Err? {
        assert parse(n - 1) == Err(ParseAll(parse, n).error);
      } else if before.Ok? {
        var r := ParseAll(parse, n);
        assert r.value == before.value + [parse(n - 1).value];
        forall i | 0 <= i < n
          ensures r.value[i] == parse(i).value
        {
          if i < n - 1 {
            assert r.value[i] == before.value[i];
          }
        }
      }
    }
  }

  /** A parse that fails at `i`, and nowhere before, fails the loop with that failure. */
  lemma {:induction false} FirstError(parse: nat -> Result<Value>, n: nat, i: nat)
    requires i < n && parse(i).Err?
    requires forall j :: 0 <= j < i ==> parse(j).Ok?
    ensures ParseAll(parse, n) == Err(parse(i).error)
  {
    ParseAllOutcome(parse, n);
    var r := ParseAll(parse, n);
    var k :| 0 <= k < n && parse(k) == Err(r.error) && forall j :: 0 <= j < k ==> parse(j).Ok?;
    assert k == i;
  }

  /** One more argument parsed is appended to those before it. */
  lemma {:induction false} ParseAllStep(parse: nat -> Result<Value>, i: nat, prev: seq<Value>)
    requires ParseAll(parse, i) == Ok(prev) && parse(i).Ok?
    ensures ParseAll(parse, i + 1) == Ok(prev + [parse(i).value])
  {
  }

  function CountMessage(m: SolutionMethod, got: nat): string
  {
    "Parameter count mismatch for method " + m.name + ": expected " + JavaString.IntToString(|m.paramTypes|)
    + " but got " + JavaString.IntToString(got) + " inputs"
  }

  function HintMessage(m: SolutionMethod, got: nat): string
  {
    "Type hint count mismatch for method " + m.name + ": expected " + JavaString.IntToString(|m.paramTypes|)
    + " but got " + JavaString.IntToString(got) + " type hints"
  }

  /**
   * `parseMethodArguments(method, testCase)`: no arguments for no
   * parameters; otherwise a `RuntimeException` when the number of values
   * or of type hints differs from the number of parameters, and then the
   * parameters parsed one by one.
   */
  function MethodArguments(m: SolutionMethod, tc: TestCase): (r: Result<seq<Value>>)
    ensures m.paramTypes == [] ==> r == Ok([])
    ensures r.Ok? ==> |r.value| == |m.paramTypes|
    ensures r.Err? ==> r.error.kind == Runtime
  {
    var params := m.paramTypes;
    if |params| == 0 then Ok([])
    else
      var values := InputValues(tc.input, |params|);
      if |params| != |values| then Throw(Runtime, CountMessage(m, |values|))
      else if HasTypeHints(tc) && |tc.inputTypes.value| != |params| then Throw(Runtime, HintMessage(m, |tc.inputTypes.value|))
      else
        ParseAllOutcome(ParamParser(params, values, tc), |params|);
        ParseAll(ParamParser(params, values, tc), |params|)
  }

  /**
   * The only count mismatch there can be: a method with several
   * parameters whose input is not an array of that many elements gets the
   * whole input as one value.
   */
  lemma {:induction false} CountMismatchIsOne(m: SolutionMethod, tc: TestCase)
    requires |m.paramTypes| >= 1
    ensures var values := InputValues(tc.input, |m.paramTypes|);
      |values| != |m.paramTypes| ==> |m.paramTypes| >= 2 && MethodArguments(m, tc) == Throw(Runtime, CountMessage(m, 1))
  {
  }

  /** With the counts right, the arguments are the parameters parsed in order; a failure is the first parameter's that fails. */
  lemma {:induction false} ArgumentsParsed(m: SolutionMethod, tc: TestCase)
    requires m.paramTypes != [] && CountsAgree(m.paramTypes, InputValues(tc.input, |m.paramTypes|), tc)
    ensures var values := InputValues(tc.input, |m.paramTypes|);
      MethodArguments(m, tc) == ParseAll(ParamParser(m.paramTypes, values, tc), |m.paramTypes|)
  {
  }

  /** `parseMethodArguments`, with its loop filling the argument array. */
  method ParseMethodArguments(m: SolutionMethod, tc: TestCase) returns (r: Result<seq<Value>>)
    ensures r == MethodArguments(m, tc)
  {
    var params := m.paramTypes;
    if |params| == 0 {
      return Ok([]);
    }
    var values := ParseInputValues(tc.input, |params|);
    if |params| != |values| {
      return Throw(Runtime, CountMessage(m, |values|));
    }
    if HasTypeHints(tc) && |tc.inputTypes.value| != |params| {
      return Throw(Runtime, HintMessage(m, |tc.inputTypes.value|));
    }
    r := ParseArguments(params, values, tc);
  }

  /** The loop of `parseMethodArguments` that fills the argument array, once the counts agree. */
  method ParseArguments(params: seq<TypeParser.JavaClass>, values: seq<string>, tc: TestCase)
    returns (r: Result<seq<Value>>)
    requires CountsAgree(params, values, tc)
    ensures r == ParseAll(ParamParser(params, values, tc), |params|)
  {
    var args := new Value[|params|](_ => Null);
    ghost var parse := ParamParser(params, values, tc);
    for i := 0 to |params|
      invariant ParseAll(parse, i) == Ok(args[..i])
    {
      var parsed := ParseOne(params, values, tc, i);
      if parsed.Err? {
        ParseAllOutcome(parse, i);
        FirstError(parse, |params|, i);
        return Err(parsed.error);
      }
      ParseAllStep(parse, i, args[..i]);
      args[i] := parsed.value;
      assert args[..i + 1] == args[..i] + [parsed.value];
    }
    assert args[..] == args[..|params|];
    return Ok(args[..]);
  }

  /** One pass of that loop: parameter `i` parsed with its value and, when there are type hints, its hint. */
  method ParseOne(params: seq<TypeParser.JavaClass>, values: seq<string>, tc: TestCase, i: nat)
    returns (parsed: Result<Value>)
    requires CountsAgree(params, values, tc) && i < |params|
    ensures parsed == ParamParser(params, values, tc)(i)
  {
    var typeHint := if HasTypeHints(tc) then Some(tc.inputTypes.value[i]) else None;
    parsed := TypeParser.ParseParameter(params[i], Some(values[i]), typeHint);
    ParamAt(params, values, tc, i);
  }

  // ============================================================ executeTest

  /** What `printTestHeader` throws for a test case without a description: `isEmpty` called on `null`. */
  const NullDescription: Exc := NullDereference("String.isEmpty()", "testCase.description")

  /** The result `executeTest` records, from what it holds when it reaches `addResult`. */
  function Recorded(tc: TestCase, passed: bool, actual: string, error: Option<string>,
                    performance: Option<PerformanceResult>): TestResult
  {
    TestResult(tc.name, passed, Some(tc.input), tc.expected, Some(actual), error, tc.description, performance)
  }

  /**
   * What `executeTest` records. Printing the header reads the description
   * first, so a `null` description throws `NullPointerException` before
   * anything else; the arguments are parsed, the method invoked (measured
   * first when profiling), the result rendered and compared. Any exception
   * records its message, no output and no measurements.
   */
  function Outcome(tc: TestCase, m: SolutionMethod, invoke: seq<Value> -> Result<Value>,
                   profiling: bool, measured: PerformanceResult): TestResult
  {
    if tc.description.None? then Recorded(tc, false, "", NullDescription.message, None)
    else
      match MethodArguments(m, tc)
      case Err(e) => Recorded(tc, false, "", e.message, None)
      case Ok(args) =>
        match invoke(args)
        case Err(e) => Recorded(tc, false, "", e.message, None)
        case Ok(v) =>
          var actual := OutputFormatter.ResultText(v);
          Recorded(tc, OutputFormatter.ValidateResult(tc.expected, Some(actual)), actual, None,
                   if profiling then Some(measured) else None)
  }

  /**
   * A test passes exactly when it has a description, its arguments parse,
   * the method returns normally, and the rendered result matches the
   * expected output once both are normalised.
   */
  lemma {:induction false} PassedIff(tc: TestCase, m: SolutionMethod, invoke: seq<Value> -> Result<Value>,
                  profiling: bool, measured: PerformanceResult)
    ensures Outcome(tc, m, invoke, profiling, measured).passed
        <==> (tc.description.Some? && MethodArguments(m, tc).Ok?
              && invoke(MethodArguments(m, tc).value).Ok?
              && OutputFormatter.ValidateResult(tc.expected,
                   Some(OutputFormatter.ResultText(invoke(MethodArguments(m, tc).value).value))))
  {
  }

  /**
   * Whatever happens, the record keeps the test case's name, input,
   * expected output and description; a test that returned records its
   * rendered result and no error, and its measurements exactly when
   * profiling; a test that threw records no output and no measurements.
   */
  lemma {:induction false} OutcomeFields(tc: TestCase, m: SolutionMethod, invoke: seq<Value> -> Result<Value>,
                      profiling: bool, measured: PerformanceResult)
    ensures var r := Outcome(tc, m, invoke, profiling, measured);
      r.testName == tc.name && r.input == Some(tc.input) && r.expected == tc.expected
      && r.description == tc.description && r.actual.Some?
      && (r.passed ==> r.error.None? && (r.performance.Some? <==> profiling))
      && (r.performance.Some? ==> r.performance == Some(measured) && r.error.None?)
      && (r.actual != Some("") ==> r.error.None?)
  {
    if tc.description.Some? {
      var args := MethodArguments(m, tc);
      if args.Ok? {
        var result := invoke(args.value);
        if result.Ok? {
          var actual := OutputFormatter.ResultText(result.value);
          var passed := OutputFormatter.ValidateResult(tc.expected, Some(actual));
          assert Outcome(tc, m, invoke, profiling, measured)
              == Recorded(tc, passed, actual, None, if profiling then Some(measured) else None);
        }
      }
    }
  }

  /**
   * A test case without a description is recorded as an error: the
   * exception thrown while printing its header carries a message, so
   * `hasError()` holds and nothing else is attempted.
   */
  lemma {:induction false} NullDescriptionIsError(tc: TestCase, m: SolutionMethod, invoke: seq<Value> -> Result<Value>,
                                profiling: bool, measured: PerformanceResult)
    requires tc.description.None?
    ensures var r := Outcome(tc, m, invoke, profiling, measured);
      HasError(r) && !r.passed && r.error == NullDescription.message && r.description.None?
  {
  }

  /** An error recorded means the test did not pass and nothing was measured. */
  lemma {:induction false} ErrorMeansFailed(tc: TestCase, m: SolutionMethod, invoke: seq<Value> -> Result<Value>,
                         profiling: bool, measured: PerformanceResult)
    ensures var r := Outcome(tc, m, invoke, profiling, measured);
      HasError(r) ==> !r.passed && r.actual == Some("") && r.performance.None?
  {
  }

  /**
   * `executeTest`: one record added to the manager, and nothing else about
   * the manager changes.
   */
  method ExecuteTest(tc: TestCase, m: SolutionMethod, invoke: seq<Value> -> Result<Value>,
                     manager: ResultsManager.TestResultsManager, profiling: bool, measured: PerformanceResult)
    requires manager.Valid()
    modifies manager
    ensures manager.Valid()
    ensures manager.results == old(manager.results) + [Outcome(tc, m, invoke, profiling, measured)]
    ensures manager.performanceReportingEnabled == old(manager.performanceReportingEnabled)
    ensures manager.testFilePath == old(manager.testFilePath)
  {
    var error: Option<string> := None;
    var actualStr := "";
    var passed := false;
    var performance: Option<PerformanceResult> := None;
    if tc.description.None? {
      error := NullDescription.message;
    } else {
      var args := ParseMethodArguments(m, tc);
      if args.Err? {
        error := args.error.message;
      } else {
        var result := invoke(args.value);
        if result.Err? {
          error := result.error.message;
        } else {
          if profiling {
            performance := Some(measured);
          }
          actualStr := OutputFormatter.ResultToString(result.value);
          passed := OutputFormatter.Normalize(tc.expected) == OutputFormatter.Normalize(Some(actualStr));
        }
      }
    }
    manager.AddResult(tc.name, passed, Some(tc.input), tc.expected, Some(actualStr), error, tc.description, performance);
  }
}
