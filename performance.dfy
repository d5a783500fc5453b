/**
 * `PerformanceAnalyzer`, the parts both generations share: the measurement
 * arithmetic around the timed runs, the input-size heuristic, the choice of
 * measured results and their data points sorted by size, and the `shared`
 * generation's summary of how the times behave. The clock, the memory
 * counters and the garbage collector are samples passed in; the
 * floating-point statistics are reals passed in.
 */
module PerformanceAnalyzer {
  import opened Wrappers
  import JavaString
  import opened JavaValue
  import opened TestData
  import ResultsManager
  import TreeCodec

  // ============================================================ measurePerformance

  /** Java's `/` on integers: the quotient truncated toward zero. */
  function TruncDiv(a: int, b: int): (q: int)
    requires b != 0
    ensures b > 0 && a >= 0 ==> q * b <= a < q * b + b
    ensures b > 0 && a < 0 ==> q * b - b < a <= q * b
  {
    if a >= 0 then (if b > 0 then a / b else -(a / -b))
    else (if b > 0 then -((-a) / b) else (-a) / (-b))
  }

  /** The clock and memory readings taken around the measured runs. */
  datatype Samples = Samples(startMemory: int, startTime: int, endTime: int, endMemory: int)

  /** `Math.max(0, x)`. */
  function NonNegative(x: int): (r: int)
    ensures r >= 0 && r >= x && (r == x || r == 0)
  {
    if x > 0 then x else 0
  }

  /**
   * What `measurePerformance` returns once its samples are taken: the
   * zero result when one of the runs throws or there are no measured runs
   * to divide by, otherwise the mean time per measured run and the growth
   * of used memory, never negative.
   */
  function Measurement(throws: bool, warmupRuns: int, measureRuns: int, s: Samples): (r: PerformanceResult)
  {
    if (throws && (warmupRuns > 0 || measureRuns > 0)) || measureRuns == 0 then PerformanceResult(0, 0, 0)
    else PerformanceResult(TruncDiv(s.endTime - s.startTime, measureRuns), NonNegative(s.endMemory - s.startMemory), measureRuns)
  }

  /**
   * The memory figure is never negative, a failed or empty measurement is
   * all zeros, and a successful one reports its run count and a time that
   * is the elapsed time shared out over the runs, rounded down.
   */
  lemma {:induction false} MeasurementBounds(throws: bool, warmupRuns: int, measureRuns: int, s: Samples)
    ensures Measurement(throws, warmupRuns, measureRuns, s).memoryUsedBytes >= 0
    ensures measureRuns == 0 ==> Measurement(throws, warmupRuns, measureRuns, s) == PerformanceResult(0, 0, 0)
    ensures throws && measureRuns > 0 ==> Measurement(throws, warmupRuns, measureRuns, s) == PerformanceResult(0, 0, 0)
    ensures !throws && measureRuns > 0 && s.endTime >= s.startTime ==>
      var r := Measurement(throws, warmupRuns, measureRuns, s);
      r.iterations == measureRuns
      && r.executionTimeNanos * measureRuns <= s.endTime - s.startTime < (r.executionTimeNanos + 1) * measureRuns
  {
  }

  /**
   * `measurePerformance`: the warm-up runs, then the measured runs, each a
   * call of the solution; the first call that throws ends the measurement
   * with zeros. A solution returns the same outcome on every call.
   */
  method MeasurePerformance(invoke: seq<Value> -> Result<Value>, args: seq<Value>, warmupRuns: int, measureRuns: int,
                            s: Samples) returns (r: PerformanceResult)
    ensures r == Measurement(invoke(args).Err?, warmupRuns, measureRuns, s)
  {
    var i := 0;
    while i < warmupRuns
      invariant 0 <= i && (i <= warmupRuns || i == 0)
      invariant i > 0 ==> invoke(args).Ok?
    {
      var result := invoke(args);
      if result.Err? {
        return PerformanceResult(0, 0, 0);
      }
      i := i + 1;
    }
    i := 0;
    while i < measureRuns
      invariant 0 <= i && (i <= measureRuns || i == 0)
      invariant i > 0 ==> invoke(args).Ok?
    {
      var result := invoke(args);
      if result.Err? {
        return PerformanceResult(0, 0, 0);
      }
      i := i + 1;
    }
    if measureRuns == 0 {
      return PerformanceResult(0, 0, 0);
    }
    var executionTime := TruncDiv(s.endTime - s.startTime, measureRuns);
    var memoryUsed := NonNegative(s.endMemory - s.startMemory);
    r := PerformanceResult(executionTime, memoryUsed, measureRuns);
  }

  // ============================================================ estimateInputSize

  /** The parts whose trim is not the word `null`. */
  function NonNullCount(elements: seq<string>): (n: nat)
    ensures n <= |elements|
  {
    if elements == [] then 0
    else NonNullCount(elements[..|elements| - 1]) + (if JavaString.Trim(elements[|elements| - 1]) != "null" then 1 else 0)
  }

  /** The text between the brackets of a bracketed input, trimmed. */
  function BracketContent(input: string): string
    requires |input| >= 2
  {
    JavaString.Trim(input[1..|input| - 1])
  }

  predicate Bracketed(input: string)
  {
    JavaString.StartsWith(input, "[") && JavaString.EndsWith(input, "]")
  }

  /** An input that starts with `[` and ends with `]` has both, so at least two characters. */
  lemma {:induction false} BracketedLength(input: string)
    requires Bracketed(input)
    ensures |input| >= 2
  {
    assert input[..1][0] == '[' && input[|input| - 1..][0] == ']';
  }

  predicate Quoted(input: string)
  {
    JavaString.StartsWith(input, "\"") && JavaString.EndsWith(input, "\"")
  }

  /**
   * `estimateInputSize`: the number of non-null elements of an array, the
   * length of a quoted string without its quotes, 1 for a 32-bit integer,
   * and the length of anything else.
   */
  function EstimateInputSize(input: string): (size: int)
    ensures size >= -1
    ensures size == -1 <==> input == "\""
    ensures input == "[]" ==> size == 0
  {
    if input == "[]" then 0
    else if Bracketed(input) then
      BracketedLength(input);
      var content := BracketContent(input);
      if content == [] then 0 else NonNullCount(JavaString.Split(content, ','))
    else if Quoted(input) then |input| - 2
    else if JavaString.ParseInt(JavaString.Trim(input)).Ok? then 1
    else |input|
  }

  /** `estimateInputSize`, with its counting loop over the comma-separated parts. */
  method EstimateSize(input: string) returns (size: int)
    ensures size == EstimateInputSize(input)
  {
    if input == "[]" {
      return 0;
    }
    if Bracketed(input) {
      BracketedLength(input);
      var content := BracketContent(input);
      if content == [] {
        return 0;
      }
      var elements := JavaString.Split(content, ',');
      var count := 0;
      for i := 0 to |elements|
        invariant count == NonNullCount(elements[..i])
      {
        assert elements[..i + 1][..i] == elements[..i];
        if JavaString.Trim(elements[i]) != "null" {
          count := count + 1;
        }
      }
      assert elements[..|elements|] == elements;
      return count;
    }
    if Quoted(input) {
      return |input| - 2;
    }
    var parsed := JavaString.ParseInt(JavaString.Trim(input));
    if parsed.Ok? {
      return 1;
    }
    return |input|;
  }

  /** Decimal texts of integers. */
  function IntTexts(xs: seq<int>): (r: seq<string>)
    ensures |r| == |xs|
    ensures forall i :: 0 <= i < |xs| ==> r[i] == JavaString.IntToString(xs[i])
  {
    seq(|xs|, i requires 0 <= i < |xs| => JavaString.IntToString(xs[i]))
  }

  lemma {:induction false} NonNullCountAll(elements: seq<string>)
    requires forall i :: 0 <= i < |elements| ==> JavaString.Trim(elements[i]) != "null"
    ensures NonNullCount(elements) == |elements|
  {
    if elements != [] {
      NonNullCountAll(elements[..|elements| - 1]);
    }
  }

  /** The comma-joined decimal texts of a non-empty list, with trimmed ends and no comma inside a part. */
  lemma {:induction false} IntJoinShape(xs: seq<int>)
    requires xs != []
    ensures var c := JavaString.Join(IntTexts(xs), ',');
      c != [] && !JavaString.IsTrimmable(c[0]) && !JavaString.IsTrimmable(c[|c| - 1])
      && JavaString.Split(c, ',') == IntTexts(xs)
  {
    var parts := IntTexts(xs);
    forall i | 0 <= i < |parts|
      ensures ',' !in parts[i] && JavaString.Trim(parts[i]) == parts[i] && parts[i] != []
    {
      TreeCodec.IntStringChars(xs[i]);
      JavaString.TrimOfTrimmed(parts[i]);
    }
    JavaString.JoinFirst(parts, ',');
    JavaString.JoinLast(parts, ',');
    JavaString.SplitJoin(parts, ',');
    TreeCodec.IntStringChars(xs[0]);
    TreeCodec.IntStringChars(xs[|xs| - 1]);
  }

  /** An array of integers written as `[1,2,3]` is estimated at its number of elements. */
  lemma {:induction false} IntArraySize(xs: seq<int>)
    requires xs != []
    ensures EstimateInputSize("[" + JavaString.Join(IntTexts(xs), ',') + "]") == |xs|
  {
    var parts := IntTexts(xs);
    var c := JavaString.Join(parts, ',');
    var input := "[" + c + "]";
    IntJoinShape(xs);
    assert input[1..|input| - 1] == c;
    JavaString.TrimOfTrimmed(c);
    assert input != "[]";
    assert Bracketed(input) by {
      assert input[..1] == "[" && input[|input| - 1..] == "]";
    }
    forall i | 0 <= i < |parts|
      ensures JavaString.Trim(parts[i]) != "null"
    {
      TreeCodec.IntStringChars(xs[i]);
      JavaString.TrimOfTrimmed(parts[i]);
    }
    NonNullCountAll(parts);
  }

  /** A 32-bit integer written in decimal is estimated at size 1. */
  lemma {:induction false} IntInputSize(n: int)
    requires JavaString.INT_MIN <= n <= JavaString.INT_MAX
    ensures EstimateInputSize(JavaString.IntToString(n)) == 1
  {
    var e := JavaString.IntToString(n);
    assert e != "[]" && !Bracketed(e) && !Quoted(e) by {
      TreeCodec.IntStringChars(n);
      assert e[..1][0] == e[0];
    }
    assert JavaString.ParseInt(JavaString.Trim(e)).Ok? by {
      TreeCodec.IntStringChars(n);
      JavaString.TrimOfTrimmed(e);
      JavaString.ParseIntToString(n);
    }
  }

  // ============================================================ data points

  /** `DataPoint`: an estimated input size and a time in milliseconds. */
  datatype DataPoint = DataPoint(inputSize: int, timeMs: real)

  /** `getExecutionTimeMs`, exactly. */
  function TimeMs(p: PerformanceResult): real
  {
    p.executionTimeNanos as real / 1000000.0
  }

  /** The results the analysis looks at: passed and measured, in their order. */
  function ValidResults(results: seq<TestResult>): (valid: seq<TestResult>)
    ensures |valid| == ResultsManager.ValidCount(results)
    ensures forall i :: 0 <= i < |valid| ==> ResultsManager.Measured(valid[i])
  {
    if results == [] then []
    else
      var last := results[|results| - 1];
      ValidResults(results[..|results| - 1]) + (if ResultsManager.Measured(last) then [last] else [])
  }

  /** The filtering loop of `analyzeComplexity`. */
  method FilterValid(results: seq<TestResult>) returns (valid: seq<TestResult>)
    ensures valid == ValidResults(results)
  {
    valid := [];
    for i := 0 to |results|
      invariant valid == ValidResults(results[..i])
    {
      assert results[..i + 1][..i] == results[..i];
      if results[i].passed && HasPerformanceData(results[i]) {
        valid := valid + [results[i]];
      }
    }
    assert results[..|results|] == results;
  }

  /**
   * One result's data point, none when its size or time is not positive; a
   * missing input throws when `estimateInputSize` calls `equals` on it.
   */
  function Point(r: TestResult): (p: Result<Option<DataPoint>>)
    requires r.performance.Some?
    ensures p.Err? <==> r.input.None?
    ensures p.Ok? && p.value.Some? ==> p.value.value.inputSize > 0 && p.value.value.timeMs > 0.0
  {
    match r.input
    case None => Err(NullDereference("String.equals(Object)", "input"))
    case Some(input) =>
      var size := EstimateInputSize(input);
      var time := TimeMs(r.performance.value);
      Ok(if size > 0 && time > 0.0 then Some(DataPoint(size, time)) else None)
  }

  predicate Usable(p: DataPoint)
  {
    p.inputSize > 0 && p.timeMs > 0.0
  }

  /** `convertToDataPoints`: the usable points, in the order of the results. */
  function DataPoints(valid: seq<TestResult>): (r: Result<seq<DataPoint>>)
    requires forall i :: 0 <= i < |valid| ==> valid[i].performance.Some?
    ensures r.Ok? ==> |r.value| <= |valid| && forall i :: 0 <= i < |r.value| ==> Usable(r.value[i])
    ensures r.Err? ==> r.error.kind == NullPointer
  {
    if valid == [] then Ok([])
    else
      var last := valid[|valid| - 1];
      match DataPoints(valid[..|valid| - 1])
      case Err(e) => Err(e)
      case Ok(points) =>
        match Point(last)
        case Err(e) => Err(e)
        case Ok(None) => Ok(points)
        case Ok(Some(p)) => Ok(points + [p])
  }

  /** The conversion loop of `convertToDataPoints`. */
  method ConvertToDataPoints(valid: seq<TestResult>) returns (r: Result<seq<DataPoint>>)
    requires forall i :: 0 <= i < |valid| ==> valid[i].performance.Some?
    ensures r == DataPoints(valid)
  {
    var points: seq<DataPoint> := [];
    for i := 0 to |valid|
      invariant DataPoints(valid[..i]) == Ok(points)
    {
      assert valid[..i + 1][..i] == valid[..i];
      var result := valid[i];
      if result.input.None? {
        assert DataPoints(valid[..i + 1]) == Err(NullDereference("String.equals(Object)", "input"));
        DataPointsErrorStays(valid, i + 1);
        return Err(NullDereference("String.equals(Object)", "input"));
      }
      var inputSize := EstimateSize(result.input.value);
      var timeMs := TimeMs(result.performance.value);
      if inputSize > 0 && timeMs > 0.0 {
        points := points + [DataPoint(inputSize, timeMs)];
      }
    }
    assert valid[..|valid|] == valid;
    return Ok(points);
  }

  /** Once a prefix throws, the whole list throws with the same exception. */
  lemma {:induction false} DataPointsErrorStays(valid: seq<TestResult>, n: nat)
    requires forall i :: 0 <= i < |valid| ==> valid[i].performance.Some?
    requires n <= |valid| && DataPoints(valid[..n]).Err?
    ensures DataPoints(valid) == DataPoints(valid[..n])
    decreases |valid|
  {
    if n < |valid| {
      var init := valid[..|valid| - 1];
      assert init[..n] == valid[..n];
      DataPointsErrorStays(init, n);
    } else {
      assert valid[..n] == valid;
    }
  }

  // ============================================================ sorting by size

  predicate SortedBySize(points: seq<DataPoint>)
  {
    forall i, j :: 0 <= i < j < |points| ==> points[i].inputSize <= points[j].inputSize
  }

  /** Inserting after every point no larger than `p`: the step of a stable insertion sort. */
  function InsertBySize(sorted: seq<DataPoint>, p: DataPoint): (r: seq<DataPoint>)
    ensures |r| == |sorted| + 1
  {
    if sorted == [] || sorted[|sorted| - 1].inputSize <= p.inputSize then sorted + [p]
    else InsertBySize(sorted[..|sorted| - 1], p) + [sorted[|sorted| - 1]]
  }

  lemma {:induction false} InsertPermutes(sorted: seq<DataPoint>, p: DataPoint)
    ensures multiset(InsertBySize(sorted, p)) == multiset(sorted) + multiset{p}
    decreases |sorted|
  {
    if !(sorted == [] || sorted[|sorted| - 1].inputSize <= p.inputSize) {
      InsertPermutes(sorted[..|sorted| - 1], p);
      assert sorted == sorted[..|sorted| - 1] + [sorted[|sorted| - 1]];
    }
  }

  /**
   * `dataPoints.sort` by ascending size. `List.sort` is stable, and so is
   * this insertion sort, so both order equal sizes as the input does.
   */
  function SortBySize(points: seq<DataPoint>): (r: seq<DataPoint>)
    ensures |r| == |points|
  {
    if points == [] then []
    else InsertBySize(SortBySize(points[..|points| - 1]), points[|points| - 1])
  }

  lemma {:induction false} InsertSorted(sorted: seq<DataPoint>, p: DataPoint)
    requires SortedBySize(sorted)
    ensures SortedBySize(InsertBySize(sorted, p))
    decreases |sorted|
  {
    if sorted != [] && sorted[|sorted| - 1].inputSize > p.inputSize {
      var init := sorted[..|sorted| - 1];
      var last := sorted[|sorted| - 1];
      InsertSorted(init, p);
      assert forall k :: 0 <= k < |init| ==> init[k].inputSize <= last.inputSize by {
        forall k | 0 <= k < |init|
          ensures init[k].inputSize <= last.inputSize
        {
          assert init[k] == sorted[k];
        }
      }
      InsertBounded(init, p, last.inputSize);
      var r := InsertBySize(init, p);
      var out := r + [last];
      forall i, j | 0 <= i < j < |out|
        ensures out[i].inputSize <= out[j].inputSize
      {
        if j == |out| - 1 {
          assert out[i] == r[i];
        } else {
          assert out[i] == r[i] && out[j] == r[j];
        }
      }
    }
  }

  /** Inserting a point no larger than a bound into points no larger than it keeps them all within it. */
  lemma {:induction false} InsertBounded(sorted: seq<DataPoint>, p: DataPoint, bound: int)
    requires forall k :: 0 <= k < |sorted| ==> sorted[k].inputSize <= bound
    requires p.inputSize <= bound
    ensures forall k :: 0 <= k < |sorted| + 1 ==> InsertBySize(sorted, p)[k].inputSize <= bound
    decreases |sorted|
  {
    if !(sorted == [] || sorted[|sorted| - 1].inputSize <= p.inputSize) {
      var init := sorted[..|sorted| - 1];
      InsertBounded(init, p, bound);
      var r := InsertBySize(init, p);
      assert InsertBySize(sorted, p) == r + [sorted[|sorted| - 1]];
      forall k | 0 <= k < |sorted| + 1
        ensures InsertBySize(sorted, p)[k].inputSize <= bound
      {
        if k < |r| {
          assert InsertBySize(sorted, p)[k] == r[k];
        }
      }
    }
  }

  /** The sorted points are in ascending order of size and are the same points. */
  lemma {:induction false} SortBySizeSorted(points: seq<DataPoint>)
    ensures SortedBySize(SortBySize(points))
    ensures multiset(SortBySize(points)) == multiset(points)
  {
    if points != [] {
      SortBySizeSorted(points[..|points| - 1]);
      InsertSorted(SortBySize(points[..|points| - 1]), points[|points| - 1]);
      InsertPermutes(SortBySize(points[..|points| - 1]), points[|points| - 1]);
      assert points == points[..|points| - 1] + [points[|points| - 1]];
    }
  }

  /**
   * One pass of the insertion sort: the element at `i` moves left past
   * every larger one, the sorted prefix before it shifting up by one.
   */
  method InsertAt(a: array<DataPoint>, i: int)
    requires 0 <= i < a.Length
    modifies a
    ensures a[..i + 1] == InsertBySize(old(a[..i]), old(a[i]))
    ensures a[i + 1..] == old(a[i + 1..])
  {
    ghost var sorted := a[..i];
    var key := a[i];
    var j := i;
    while j > 0 && a[j - 1].inputSize > key.inputSize
      invariant 0 <= j <= i
      invariant forall k :: 0 <= k < j ==> a[k] == sorted[k]
      invariant forall k :: j < k <= i ==> a[k] == sorted[k - 1]
      invariant forall k :: j <= k < i ==> sorted[k].inputSize > key.inputSize
      invariant a[i + 1..] == old(a[i + 1..])
    {
      a[j] := a[j - 1];
      j := j - 1;
    }
    a[j] := key;
    InsertSplit(sorted, key, j);
    assert a[..i + 1] == sorted[..j] + [key] + sorted[j..];
  }

  /** Inserting after the last element no larger than `key`, all later ones being larger. */
  lemma {:induction false} InsertSplit(sorted: seq<DataPoint>, key: DataPoint, j: int)
    requires 0 <= j <= |sorted|
    requires j == 0 || sorted[j - 1].inputSize <= key.inputSize
    requires forall k :: j <= k < |sorted| ==> sorted[k].inputSize > key.inputSize
    ensures InsertBySize(sorted, key) == sorted[..j] + [key] + sorted[j..]
    decreases |sorted|
  {
    if j < |sorted| {
      var init := sorted[..|sorted| - 1];
      InsertSplit(init, key, j);
      assert init[..j] == sorted[..j];
      assert init[j..] + [sorted[|sorted| - 1]] == sorted[j..];
    }
  }

  /** `dataPoints.sort((a, b) -> Integer.compare(a.inputSize, b.inputSize))` on the list's backing array. */
  method SortPoints(a: array<DataPoint>)
    modifies a
    ensures a[..] == SortBySize(old(a[..]))
  {
    ghost var original := a[..];
    for i := 0 to a.Length
      invariant a[..i] == SortBySize(original[..i])
      invariant a[i..] == original[i..]
    {
      assert a[i] == original[i];
      InsertAt(a, i);
      assert original[..i + 1] == original[..i] + [original[i]];
      assert original[..i + 1][..i] == original[..i];
    }
    assert original[..a.Length] == original;
  }

  /** The analysis points, sorted, as `analyzeComplexity` prepares them. */
  method SortedPoints(points: seq<DataPoint>) returns (sorted: seq<DataPoint>)
    ensures sorted == SortBySize(points)
  {
    var a := new DataPoint[|points|](i requires 0 <= i < |points| => points[i]);
    assert a[..] == points;
    SortPoints(a);
    sorted := a[..];
  }

  // ============================================================ the analysis

  /** `ComplexityAnalysis`: a description, a confidence and a recommendation. */
  datatype Analysis = Analysis(description: string, confidence: real, recommendation: string)

  /** How the times behave, as `analyzePerformanceCharacteristics` computes them in floating point. */
  datatype Trend = Trend(timeVariation: real, avgTimeRatio: real)

  /** The four outcomes of `analyzePerformanceCharacteristics`, by variation and then by mean growth. */
  function Characteristics(t: Trend): (a: Analysis)
    ensures 0.6 <= a.confidence <= 0.9
  {
    if t.timeVariation < 0.1 then
      Analysis("Consistent execution time across inputs", 0.9,
               "Performance appears stable across different input sizes")
    else if t.avgTimeRatio < 1.2 then
      Analysis("Performance scales well with input size", 0.7,
               "Current implementation handles input growth efficiently")
    else if t.avgTimeRatio < 2.0 then
      Analysis("Performance shows moderate scaling with input size", 0.6,
               "Consider optimizing for larger inputs if needed")
    else
      Analysis("Performance degrades noticeably with larger inputs", 0.8,
               "Consider optimizing the algorithm for better scaling")
  }

  /** The largest input size, 0 for no points. */
  function MaxInputSize(points: seq<DataPoint>): (m: int)
    ensures forall i :: 0 <= i < |points| ==> points[i].inputSize <= m
    ensures points == [] ==> m == 0
    ensures points != [] ==> exists i :: 0 <= i < |points| && points[i].inputSize == m
  {
    if points == [] then 0
    else
      var rest := MaxInputSize(points[..|points| - 1]);
      var last := points[|points| - 1].inputSize;
      if |points| == 1 || last >= rest then last else rest
  }

  const SMALL_NOTE := " (based on small input sizes)"
  const LARGER_HINT := " - Test with larger inputs for more accurate analysis"

  /** The remark added when every input was small, with the confidence lowered by a fifth. */
  function SizeNote(a: Analysis, maxInputSize: int): Analysis
  {
    if maxInputSize < 100 then Analysis(a.description + SMALL_NOTE, a.confidence * 0.8, a.recommendation + LARGER_HINT)
    else a
  }

  /** `analyzePerformanceCharacteristics`, with the statistics as given reals. */
  function AnalyzePerformanceCharacteristics(points: seq<DataPoint>, t: Trend): Analysis
  {
    SizeNote(Characteristics(t), MaxInputSize(points))
  }

  const INSUFFICIENT := "Insufficient data"
  const UNABLE := "Unable to estimate input sizes"

  /**
   * `analyzeComplexity`: too few measured passes, or too few of them with
   * a usable size and time, end the analysis with zero confidence; the
   * rest is the summary of the points sorted by size.
   */
  function AnalyzeComplexity(results: seq<TestResult>, trend: seq<DataPoint> -> Trend): Result<Analysis>
  {
    var valid := ValidResults(results);
    if |valid| < 3 then
      Ok(Analysis(INSUFFICIENT, 0.0, "Need at least 3 successful test cases for performance analysis"))
    else
      match DataPoints(valid)
      case Err(e) => Err(e)
      case Ok(points) =>
        if |points| < 3 then
          Ok(Analysis(UNABLE, 0.0, "Cannot determine input sizes for performance analysis"))
        else
          var sorted := SortBySize(points);
          Ok(AnalyzePerformanceCharacteristics(sorted, trend(sorted)))
  }

  /**
   * The confidence is zero exactly when the analysis was cut short: fewer
   * than three measured passes, or fewer than three usable points. A full
   * analysis has a confidence between 0.48 and 0.9.
   */
  lemma {:induction false} ConfidenceZeroIffGated(results: seq<TestResult>, trend: seq<DataPoint> -> Trend)
    requires AnalyzeComplexity(results, trend).Ok?
    ensures var a := AnalyzeComplexity(results, trend).value;
      (a.confidence == 0.0 <==> ResultsManager.ValidCount(results) < 3 || |DataPoints(ValidResults(results)).value| < 3)
      && (a.confidence != 0.0 ==> 0.48 <= a.confidence <= 0.9)
  {
  }

  /**
   * A full analysis notes small inputs, and lowers its confidence, exactly
   * when no usable input reached size 100.
   */
  lemma {:induction false} SmallInputNoteIff(points: seq<DataPoint>, t: Trend)
    ensures var a := AnalyzePerformanceCharacteristics(points, t);
      (a.description == Characteristics(t).description + SMALL_NOTE
       <==> forall i :: 0 <= i < |points| ==> points[i].inputSize < 100)
      && (a.description != Characteristics(t).description + SMALL_NOTE ==> a == Characteristics(t))
  {
    var m := MaxInputSize(points);
    if m >= 100 {
      assert |Characteristics(t).description + SMALL_NOTE| > |Characteristics(t).description|;
      assert exists i :: 0 <= i < |points| && points[i].inputSize == m;
    }
  }

  /**
   * The points a full analysis looks at are the usable points of the
   * measured passes, each with a positive size and time, in ascending
   * order of size.
   */
  lemma {:induction false} AnalysedPoints(results: seq<TestResult>)
    requires DataPoints(ValidResults(results)).Ok?
    ensures var points := DataPoints(ValidResults(results)).value;
      SortedBySize(SortBySize(points))
      && multiset(SortBySize(points)) == multiset(points)
      && forall p :: p in SortBySize(points) ==> Usable(p)
  {
    var points := DataPoints(ValidResults(results)).value;
    SortBySizeSorted(points);
    forall p | p in SortBySize(points)
      ensures Usable(p)
    {
      assert p in multiset(points);
    }
  }

  /** `analyzeComplexity`, with its filtering, conversion and sorting loops. */
  method AnalyzeComplexityOf(results: seq<TestResult>, trend: seq<DataPoint> -> Trend) returns (r: Result<Analysis>)
    ensures r == AnalyzeComplexity(results, trend)
  {
    var valid := FilterValid(results);
    if |valid| < 3 {
      return Ok(Analysis(INSUFFICIENT, 0.0, "Need at least 3 successful test cases for performance analysis"));
    }
    var points := ConvertToDataPoints(valid);
    if points.Err? {
      return Err(points.error);
    }
    if |points.value| < 3 {
      return Ok(Analysis(UNABLE, 0.0, "Cannot determine input sizes for performance analysis"));
    }
    var sorted := SortedPoints(points.value);
    return Ok(AnalyzePerformanceCharacteristics(sorted, trend(sorted)));
  }
}
