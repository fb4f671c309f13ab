/**
 * Epistemic tension and coherence in the browser page (web/app.js, `xi`,
 * `epistemicTension`, `xiSeriesToCoherence`), after the comma-separated inputs
 * have been parsed into numbers. The sums are `Array.prototype.reduce` folds
 * from the left with an accumulator starting at 0.
 */
module WebTension {
  import opened Wrappers
  import opened EpistemicTension

  /** `stateA.reduce((s, a, i) => s + (a - stateB[i]) ** 2, acc)` from index `i` on. */
  function ReduceSquaredDiff(a: seq<real>, b: seq<real>, i: nat, acc: real): (r: real)
    requires |a| == |b| && i <= |a|
    ensures r >= acc
    ensures a == b ==> r == acc
    decreases |a| - i
  {
    if i == |a| then acc else ReduceSquaredDiff(a, b, i + 1, acc + (a[i] - b[i]) * (a[i] - b[i]))
  }

  /** `stateA.reduce((s, a, i) => s + a * stateB[i], acc)` from index `i` on. */
  function ReduceDot(a: seq<real>, b: seq<real>, i: nat, acc: real): (r: real)
    requires |a| == |b| && i <= |a|
    ensures a == b ==> r == ReduceSquares(a, i, acc)
    decreases |a| - i
  {
    if i == |a| then acc else ReduceDot(a, b, i + 1, acc + a[i] * b[i])
  }

  /** `state.reduce((s, a) => s + a * a, acc)` from index `i` on. */
  function ReduceSquares(a: seq<real>, i: nat, acc: real): (r: real)
    requires i <= |a|
    ensures r >= acc
    decreases |a| - i
  {
    if i == |a| then acc else ReduceSquares(a, i + 1, acc + a[i] * a[i])
  }

  lemma {:induction false} ReduceSquaredDiffIsSum(a: seq<real>, b: seq<real>, i: nat, acc: real)
    requires |a| == |b| && i <= |a|
    ensures ReduceSquaredDiff(a, b, i, acc) == acc + SumSquaredDiff(a[i..], b[i..])
    decreases |a| - i
  {
    if i < |a| {
      ReduceSquaredDiffIsSum(a, b, i + 1, acc + (a[i] - b[i]) * (a[i] - b[i]));
      assert a[i..][1..] == a[i + 1..] && b[i..][1..] == b[i + 1..];
    }
  }

  lemma {:induction false} ReduceDotIsSum(a: seq<real>, b: seq<real>, i: nat, acc: real)
    requires |a| == |b| && i <= |a|
    ensures ReduceDot(a, b, i, acc) == acc + Dot(a[i..], b[i..])
    decreases |a| - i
  {
    if i < |a| {
      ReduceDotIsSum(a, b, i + 1, acc + a[i] * b[i]);
      assert a[i..][1..] == a[i + 1..] && b[i..][1..] == b[i + 1..];
    }
  }

  lemma {:induction false} ReduceSquaresIsSum(a: seq<real>, i: nat, acc: real)
    requires i <= |a|
    ensures ReduceSquares(a, i, acc) == acc + SumSquares(a[i..])
    decreases |a| - i
  {
    if i < |a| {
      ReduceSquaresIsSum(a, i + 1, acc + a[i] * a[i]);
      assert a[i..][1..] == a[i + 1..];
    }
  }

  /** The page's `xi`: the same checks in the same order, each `throw` a `Failure`. */
  function JsXi(stateA: seq<real>, stateB: seq<real>, sqrt: real -> real, metric: string := "l2")
    : (r: Result<real, TensionError>)
    ensures |stateA| != |stateB| ==> r == Failure(DimensionMismatch)
    ensures |stateA| == |stateB| && metric != "l2" && metric != "cosine" ==>
              r == Failure(UnsupportedMetric(metric))
  {
    if |stateA| != |stateB| then
      Failure(DimensionMismatch)
    else if metric == "l2" then
      Success(sqrt(ReduceSquaredDiff(stateA, stateB, 0, 0.0)))
    else if metric == "cosine" then
      CosineDistance(ReduceDot(stateA, stateB, 0, 0.0),
                     sqrt(ReduceSquares(stateA, 0, 0.0)), sqrt(ReduceSquares(stateB, 0, 0.0)))
    else
      Failure(UnsupportedMetric(metric))
  }

  /** On the same parsed vectors the page computes exactly what the Python `xi` computes. */
  lemma JsXiMatchesPython(stateA: seq<real>, stateB: seq<real>, sqrt: real -> real, metric: string)
    ensures JsXi(stateA, stateB, sqrt, metric) == Xi(stateA, stateB, sqrt, metric)
  {
    if |stateA| == |stateB| {
      ReduceSquaredDiffIsSum(stateA, stateB, 0, 0.0);
      ReduceDotIsSum(stateA, stateB, 0, 0.0);
      ReduceSquaresIsSum(stateA, 0, 0.0);
      ReduceSquaresIsSum(stateB, 0, 0.0);
      assert stateA[0..] == stateA && stateB[0..] == stateB;
      assert ReduceSquaredDiff(stateA, stateB, 0, 0.0) == SumSquaredDiff(stateA, stateB);
      assert ReduceDot(stateA, stateB, 0, 0.0) == Dot(stateA, stateB);
      assert ReduceSquares(stateA, 0, 0.0) == SumSquares(stateA);
      assert ReduceSquares(stateB, 0, 0.0) == SumSquares(stateB);
    }
  }

  /** `epistemicTension(a, b, metric)`: a plain call of `xi`. */
  function JsEpistemicTension(stateA: seq<real>, stateB: seq<real>, sqrt: real -> real, metric: string := "l2")
    : (r: Result<real, TensionError>)
    ensures r == Tension(stateA, stateB, sqrt, metric)
  {
    JsXiMatchesPython(stateA, stateB, sqrt, metric);
    JsXi(stateA, stateB, sqrt, metric)
  }

  /** `xiSeriesToCoherence` on the parsed series: throws on a negative value, else `1 / (1 + cumulative)` per value. */
  method JsXiSeriesToCoherence(series: seq<real>) returns (r: Result<seq<real>, CoherenceError>)
    ensures r.Success? <==> NonNegative(series)
    ensures r.Success? ==> r.value == Coherence(series)
    ensures r.Failure? ==> r.error == NegativeTension
  {
    var cumulative := 0.0;
    var coherence: seq<real> := [];
    for i := 0 to |series|
      invariant NonNegative(series[..i])
      invariant cumulative == Total(series[..i])
      invariant |coherence| == i
      invariant forall k :: 0 <= k < i ==> coherence[k] == 1.0 / (1.0 + Total(series[..k + 1]))
    {
      var xiVal := series[i];
      if xiVal < 0.0 {
        return Failure(NegativeTension);
      }
      TotalStep(series, i, cumulative);
      cumulative := cumulative + xiVal;
      coherence := coherence + [1.0 / (1.0 + cumulative)];
    }
    assert series[..|series|] == series;
    return Success(coherence);
  }
}
