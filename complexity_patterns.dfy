/**
 * The first-generation `PerformanceAnalyzer`'s complexity detection: five
 * hypotheses (constant, logarithmic, linear, n log n, quadratic) are each
 * scored by how steady a ratio of time to a function of size is, and the
 * best score names the pattern. The means and standard deviations behind
 * the scores are reals computed in floating point and passed in; the
 * clamping, the threshold and the order of preference are modelled.
 */
module ComplexityPatterns {
  import opened Wrappers
  import opened TestData
  import ResultsManager
  import opened PerformanceAnalyzer

  /** The mean and standard deviation of one hypothesis' ratios; both 0 when there are none. */
  datatype Moments = Moments(mean: real, stdDev: real)

  /**
   * The premise of the score bounds: a mean and a standard deviation that
   * are not negative. Floating-point sums and square roots of positive
   * ratios give these, but the quadratic ratio divides by
   * `inputSize * inputSize` computed as a 32-bit `int`, which wraps to a
   * negative value from a size of 46341 on; its mean can then be negative.
   */
  predicate Plausible(m: Moments)
  {
    m.mean >= 0.0 && m.stdDev >= 0.0
  }

  /** `Math.max(0, 1.0 - stdDev / mean)`, or 0 when the mean is 0. */
  function Score(m: Moments): (s: real)
    ensures s >= 0.0
    ensures Plausible(m) ==> s <= 1.0
    ensures m.mean > 0.0 && m.stdDev == 0.0 ==> s == 1.0
  {
    if m.mean == 0.0 then 0.0
    else if 1.0 - m.stdDev / m.mean > 0.0 then 1.0 - m.stdDev / m.mean
    else 0.0
  }

  /** The statistics of the five hypotheses' ratios over the sorted points. */
  datatype Statistics = Statistics(constant: Moments, linear: Moments, quadratic: Moments,
                                   logarithmic: Moments, nlogn: Moments)

  datatype Scores = Scores(constant: real, linear: real, quadratic: real, logarithmic: real, nlogn: real)

  function ScoresOf(st: Statistics): Scores
  {
    Scores(Score(st.constant), Score(st.linear), Score(st.quadratic), Score(st.logarithmic), Score(st.nlogn))
  }

  function Max(a: real, b: real): real
  {
    if a >= b then a else b
  }

  /** `maxScore`, nested as the source nests `Math.max`. */
  function MaxScore(s: Scores): (m: real)
    ensures m >= s.constant && m >= s.linear && m >= s.quadratic && m >= s.logarithmic && m >= s.nlogn
    ensures m == s.constant || m == s.linear || m == s.quadratic || m == s.logarithmic || m == s.nlogn
  {
    Max(s.constant, Max(s.linear, Max(s.quadratic, Max(s.logarithmic, s.nlogn))))
  }

  /** The hypotheses in the order the result prefers them when scores tie. */
  function Ranked(s: Scores): (r: seq<real>)
    ensures |r| == 5
  {
    [s.constant, s.logarithmic, s.linear, s.nlogn, s.quadratic]
  }

  const LABELS: seq<string> := [
    "O(1) - Constant time",
    "O(log n) - Logarithmic time",
    "O(n) - Linear time",
    "O(n log n) - Linearithmic time",
    "O(n²) or higher - Quadratic/Polynomial time"]

  /** `generateComplexityResult`: the first hypothesis whose score is the maximum names the pattern. */
  function GenerateComplexityResult(maxScore: real, s: Scores): Analysis
  {
    if maxScore == s.constant then
      Analysis(LABELS[0], maxScore, "Excellent! Performance doesn't depend on input size")
    else if maxScore == s.logarithmic then
      Analysis(LABELS[1], maxScore, "Very good! Performance scales logarithmically")
    else if maxScore == s.linear then
      Analysis(LABELS[2], maxScore, "Good! Performance scales linearly with input size")
    else if maxScore == s.nlogn then
      Analysis(LABELS[3], maxScore, "Acceptable for divide-and-conquer algorithms")
    else
      Analysis(LABELS[4], maxScore, "Consider optimizing for better performance with large inputs")
  }

  const IRREGULAR := "Complex or irregular pattern"

  /** `detectComplexityPattern`: too few points, a best score under 0.3, or the named pattern. */
  function DetectComplexityPattern(points: seq<DataPoint>, st: Statistics): Analysis
  {
    if |points| < 3 then Analysis(INSUFFICIENT, 0.0, "")
    else
      var s := ScoresOf(st);
      var maxScore := MaxScore(s);
      if maxScore < 0.3 then Analysis(IRREGULAR, maxScore, "Performance doesn't follow standard complexity patterns")
      else GenerateComplexityResult(maxScore, s)
  }

  /** `analyzeComplexity` of the first generation: the same gates as `shared`, then the pattern detection. */
  function AnalyzeComplexity(results: seq<TestResult>, statistics: seq<DataPoint> -> Statistics): Result<Analysis>
  {
    var valid := ValidResults(results);
    if |valid| < 3 then
      Ok(Analysis(INSUFFICIENT, 0.0, "Need at least 3 successful test cases for complexity analysis"))
    else
      match DataPoints(valid)
      case Err(e) => Err(e)
      case Ok(points) =>
        if |points| < 3 then
          Ok(Analysis(UNABLE, 0.0, "Cannot determine input sizes for complexity analysis"))
        else
          var sorted := SortBySize(points);
          Ok(DetectComplexityPattern(sorted, statistics(sorted)))
  }

  /** The position, in order of preference, of the first hypothesis reaching `m`; the last when none does before it. */
  function FirstReaching(r: seq<real>, m: real): (k: nat)
    requires |r| == 5
    ensures k < 5
  {
    if r[0] == m then 0 else if r[1] == m then 1 else if r[2] == m then 2 else if r[3] == m then 3 else 4
  }

  lemma {:induction false} FirstReachingIff(r: seq<real>, m: real, k: nat)
    requires |r| == 5 && k < 5 && (r[4] == m || r[0] == m || r[1] == m || r[2] == m || r[3] == m)
    ensures FirstReaching(r, m) == k <==> (r[k] == m && forall j :: 0 <= j < k ==> r[j] != m)
  {
  }

  lemma {:induction false} LabelOfFirstReaching(s: Scores)
    ensures GenerateComplexityResult(MaxScore(s), s).description == LABELS[FirstReaching(Ranked(s), MaxScore(s))]
  {
    var m := MaxScore(s);
    var k := FirstReaching(Ranked(s), m);
    if m == s.constant {
      assert k == 0;
    } else if m == s.logarithmic {
      assert k == 1;
    } else if m == s.linear {
      assert k == 2;
    } else if m == s.nlogn {
      assert k == 3;
    } else {
      assert k == 4;
    }
  }

  lemma {:induction false} LabelsDistinct(i: nat, k: nat)
    requires i < 5 && k < 5
    ensures LABELS[i] == LABELS[k] <==> i == k
  {
    var L := LABELS;
    assert L[0][2] == '1' && L[1][2] == 'l' && L[2][2] == 'n' && L[3][2] == 'n' && L[4][2] == 'n';
    assert |L[2]| != |L[3]| && |L[2]| != |L[4]| && |L[3]| != |L[4]|;
  }

  /**
   * The pattern named is the `k`-th in order of preference exactly when
   * its score is the maximum and no earlier hypothesis reaches it; in
   * particular the quadratic label means that the quadratic score alone
   * is the best.
   */
  lemma {:induction false} LabelIsFirstMaximum(s: Scores, k: nat)
    requires k < 5
    ensures GenerateComplexityResult(MaxScore(s), s).description == LABELS[k]
        <==> (Ranked(s)[k] == MaxScore(s) && forall j :: 0 <= j < k ==> Ranked(s)[j] != MaxScore(s))
  {
    var m := MaxScore(s);
    var r := Ranked(s);
    LabelOfFirstReaching(s);
    LabelsDistinct(FirstReaching(r, m), k);
    FirstReachingIff(r, m, k);
  }

  /**
   * A pattern is reported with the best score as its confidence; with
   * plausible statistics that confidence lies between 0 and 1, and a named
   * pattern has one of at least 0.3.
   */
  lemma {:induction false} ConfidenceIsBestScore(points: seq<DataPoint>, st: Statistics)
    requires |points| >= 3
    ensures DetectComplexityPattern(points, st).confidence == MaxScore(ScoresOf(st))
    ensures Plausible(st.constant) && Plausible(st.linear) && Plausible(st.quadratic)
            && Plausible(st.logarithmic) && Plausible(st.nlogn)
            ==> 0.0 <= DetectComplexityPattern(points, st).confidence <= 1.0
    ensures DetectComplexityPattern(points, st).description != IRREGULAR
            ==> DetectComplexityPattern(points, st).confidence >= 0.3
  {
    var s := ScoresOf(st);
    assert IRREGULAR !in LABELS;
  }

  /**
   * With at least three measured passes and three usable points, the
   * analysis never reports insufficient data; the confidence is zero when
   * it stops early.
   */
  lemma {:induction false} GatesOfAnalysis(results: seq<TestResult>, statistics: seq<DataPoint> -> Statistics)
    requires AnalyzeComplexity(results, statistics).Ok?
    ensures var a := AnalyzeComplexity(results, statistics).value;
      (a.description == INSUFFICIENT <==> ResultsManager.ValidCount(results) < 3)
      && (ResultsManager.ValidCount(results) < 3 || |DataPoints(ValidResults(results)).value| < 3 ==> a.confidence == 0.0)
  {
    var valid := ValidResults(results);
    if |valid| >= 3 {
      var points := DataPoints(valid);
      if |points.value| < 3 {
        assert UNABLE != INSUFFICIENT by { assert UNABLE[0] != INSUFFICIENT[0]; }
      } else {
        DetectedNotInsufficient(SortBySize(points.value), statistics(SortBySize(points.value)));
      }
    }
  }

  /** With three points or more the pattern detection never reports insufficient data. */
  lemma {:induction false} DetectedNotInsufficient(points: seq<DataPoint>, st: Statistics)
    requires |points| >= 3
    ensures DetectComplexityPattern(points, st).description != INSUFFICIENT
  {
    var L := LABELS;
    assert INSUFFICIENT[0] == 'I' && INSUFFICIENT[1] == 'n';
    assert L[0][0] == 'O' && L[1][0] == 'O' && L[2][0] == 'O' && L[3][0] == 'O' && L[4][0] == 'O';
    assert IRREGULAR[1] == 'o';
  }

  /** `analyzeComplexity` of the first generation, with its filtering, conversion and sorting loops. */
  method AnalyzeComplexityOf(results: seq<TestResult>, statistics: seq<DataPoint> -> Statistics) returns (r: Result<Analysis>)
    ensures r == AnalyzeComplexity(results, statistics)
  {
    var valid := FilterValid(results);
    if |valid| < 3 {
      return Ok(Analysis(INSUFFICIENT, 0.0, "Need at least 3 successful test cases for complexity analysis"));
    }
    var points := ConvertToDataPoints(valid);
    if points.Err? {
      return Err(points.error);
    }
    if |points.value| < 3 {
      return Ok(Analysis(UNABLE, 0.0, "Cannot determine input sizes for complexity analysis"));
    }
    var sorted := SortedPoints(points.value);
    return Ok(DetectComplexityPattern(sorted, statistics(sorted)));
  }
}
