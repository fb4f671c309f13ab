/**
 * Epistemic tension (ai_identity/epistemic_tension.py): the metric dispatcher `xi`
 * with its three error conditions, the `epistemic_tension` wrapper, and the
 * coherence fold `xi_series_to_coherence`.
 *
 * Floats are modelled as exact reals. The square root is a parameter `sqrt`;
 * properties that need it to behave like a root assume `IsRoot` (non-negative,
 * and zero exactly at zero) or, for concrete values, `IsExactRoot`.
 */
module EpistemicTension {
  import opened Wrappers

  /** The three `ValueError`s `xi` raises. */
  datatype TensionError =
    | DimensionMismatch              // "state vectors must be the same length"
    | DegenerateVector               // "state vectors must be non-zero for cosine metric"
    | UnsupportedMetric(metric: string)

  /** `ValueError("ξ values must be non-negative")`. */
  datatype CoherenceError = NegativeTension

  ghost predicate IsRoot(sqrt: real -> real)
  {
    forall x :: 0.0 <= x ==> 0.0 <= sqrt(x) && (sqrt(x) == 0.0 <==> x == 0.0)
  }

  ghost predicate IsExactRoot(sqrt: real -> real)
  {
    forall x :: 0.0 <= x ==> 0.0 <= sqrt(x) && sqrt(x) * sqrt(x) == x
  }

  lemma ExactRootIsRoot(sqrt: real -> real)
    requires IsExactRoot(sqrt)
    ensures IsRoot(sqrt)
  {
    forall x | 0.0 <= x ensures 0.0 <= sqrt(x) && (sqrt(x) == 0.0 <==> x == 0.0) {
      var r := sqrt(x);
      assert r >= 0.0 && r * r == x;
      if r > 0.0 {
        calc {
          x;
        ==
          r * r;
        >
          0.0;
        }
      } else {
        assert r == 0.0;
        assert x == 0.0 * 0.0;
      }
    }
  }

  /** `sum((a - b) ** 2 for a, b in zip(state_a, state_b))`. */
  function SumSquaredDiff(a: seq<real>, b: seq<real>): (r: real)
    requires |a| == |b|
    ensures r >= 0.0
    decreases |a|
  {
    if |a| == 0 then 0.0 else (a[0] - b[0]) * (a[0] - b[0]) + SumSquaredDiff(a[1..], b[1..])
  }

  /** `sum(a * b for a, b in zip(state_a, state_b))`. */
  function Dot(a: seq<real>, b: seq<real>): (r: real)
    requires |a| == |b|
    ensures a == b ==> r == SumSquares(a)
    ensures (forall i :: 0 <= i < |a| ==> a[i] == 0.0) ==> r == 0.0
    decreases |a|
  {
    if |a| == 0 then 0.0 else a[0] * b[0] + Dot(a[1..], b[1..])
  }

  /** `sum(a * a for a in state)`: the square of the norm. */
  function SumSquares(a: seq<real>): (r: real)
    ensures r >= 0.0
    decreases |a|
  {
    if |a| == 0 then 0.0 else a[0] * a[0] + SumSquares(a[1..])
  }

  /** `1 - dot / (norm_a * norm_b)`, refused when either norm is zero. */
  function CosineDistance(dot: real, normA: real, normB: real): (r: Result<real, TensionError>)
    ensures r.Failure? <==> normA == 0.0 || normB == 0.0
    ensures r.Failure? ==> r.error == DegenerateVector
    ensures r.Success? ==> r.value * (normA * normB) == normA * normB - dot
  {
    if normA == 0.0 || normB == 0.0 then
      Failure(DegenerateVector)
    else
      assert normA * normB != 0.0;
      Success(1.0 - dot / (normA * normB))
  }

  /**
   * `xi(state_a, state_b, metric=metric)`. The length check comes first, for every
   * metric; then `"l2"` is the root of the summed squared differences, `"cosine"` is
   * `1 - dot / (norm_a * norm_b)` unless a norm is zero, and any other name is refused.
   */
  function Xi(stateA: seq<real>, stateB: seq<real>, sqrt: real -> real, metric: string := "l2")
    : (r: Result<real, TensionError>)
    ensures |stateA| != |stateB| ==> r == Failure(DimensionMismatch)
    ensures |stateA| == |stateB| && metric != "l2" && metric != "cosine" ==>
              r == Failure(UnsupportedMetric(metric))
    ensures IsRoot(sqrt) && |stateA| == |stateB| && metric == "l2" ==>
              r.Success? && r.value >= 0.0
    ensures IsRoot(sqrt) && |stateA| == |stateB| && metric == "cosine" ==>
              (r.Failure? <==> SumSquares(stateA) == 0.0 || SumSquares(stateB) == 0.0)
    ensures r.Failure? && |stateA| == |stateB| && metric == "cosine" ==> r.error == DegenerateVector
  {
    if |stateA| != |stateB| then
      Failure(DimensionMismatch)
    else if metric == "l2" then
      Success(sqrt(SumSquaredDiff(stateA, stateB)))
    else if metric == "cosine" then
      CosineDistance(Dot(stateA, stateB), sqrt(SumSquares(stateA)), sqrt(SumSquares(stateB)))
    else
      Failure(UnsupportedMetric(metric))
  }

  /** `epistemic_tension`: the backward-compatible wrapper, `l2` by default. */
  function Tension(stateA: seq<real>, stateB: seq<real>, sqrt: real -> real, metric: string := "l2")
    : (r: Result<real, TensionError>)
    ensures r == Xi(stateA, stateB, sqrt, metric)
  {
    Xi(stateA, stateB, sqrt, metric)
  }

  lemma {:induction false} SumSquaredDiffSelf(a: seq<real>)
    ensures SumSquaredDiff(a, a) == 0.0
    decreases |a|
  {
    if |a| > 0 {
      SumSquaredDiffSelf(a[1..]);
    }
  }

  /** Identical vectors are at `l2` distance zero. */
  lemma L2OfIdentical(a: seq<real>, sqrt: real -> real)
    requires IsRoot(sqrt)
    ensures Xi(a, a, sqrt) == Success(0.0)
  {
    SumSquaredDiffSelf(a);
  }

  lemma RootOfSquare(sqrt: real -> real, x: real)
    requires IsExactRoot(sqrt) && x >= 0.0
    ensures sqrt(x * x) == x
  {
    var r := sqrt(x * x);
    assert r >= 0.0 && r * r == x * x;
    SquareInjective(r, x);
  }

  /** Non-negative reals with equal squares are equal. */
  lemma SquareInjective(a: real, b: real)
    requires a >= 0.0 && b >= 0.0 && a * a == b * b
    ensures a == b
  {
    assert (a - b) * (a + b) == 0.0;
    if a + b > 0.0 {
      ZeroProduct(a - b, a + b);
    }
  }

  lemma ZeroProduct(u: real, v: real)
    requires u * v == 0.0 && v > 0.0
    ensures u == 0.0
  {
    assert u == (u * v) / v;
  }

  /** `xi([0, 0], [3, 4]) == 5.0`, and the same through the wrapper. */
  lemma L2Example(sqrt: real -> real)
    requires IsExactRoot(sqrt)
    ensures Xi([0.0, 0.0], [3.0, 4.0], sqrt) == Success(5.0)
    ensures Tension([0.0, 0.0], [3.0, 4.0], sqrt) == Success(5.0)
  {
    assert SumSquaredDiff([0.0, 0.0], [3.0, 4.0]) == 25.0 by {
      assert [0.0, 0.0][1..] == [0.0] && [3.0, 4.0][1..] == [4.0];
      assert [0.0][1..] == [] && [4.0][1..] == [];
    }
    RootOfSquare(sqrt, 5.0);
  }

  /** Cosine distance is 0 for identical and 1 for orthogonal unit vectors. */
  lemma CosineExamples(sqrt: real -> real)
    requires IsExactRoot(sqrt)
    ensures Xi([1.0, 0.0], [1.0, 0.0], sqrt, "cosine") == Success(0.0)
    ensures Xi([1.0, 0.0], [0.0, 1.0], sqrt, "cosine") == Success(1.0)
  {
    var e1, e2 := [1.0, 0.0], [0.0, 1.0];
    assert e1[1..] == [0.0] && e2[1..] == [1.0] && [0.0][1..] == [] && [1.0][1..] == [];
    assert SumSquares(e1) == 1.0 && SumSquares(e2) == 1.0;
    assert Dot(e1, e1) == 1.0 && Dot(e1, e2) == 0.0;
    RootOfSquare(sqrt, 1.0);
  }

  // ---------------------------------------------------------------------------
  // Coherence: c_k = 1 / (1 + xi_1 + ... + xi_k).

  ghost predicate NonNegative(s: seq<real>)
  {
    forall i :: 0 <= i < |s| ==> s[i] >= 0.0
  }

  /** The running `cumulative` after all of `s`. */
  function Total(s: seq<real>): (t: real)
    ensures NonNegative(s) ==> t >= 0.0
    decreases |s|
  {
    if s == [] then 0.0 else Total(s[..|s| - 1]) + s[|s| - 1]
  }

  /** One more value extends the running total and keeps the prefix non-negative. */
  lemma TotalStep(s: seq<real>, i: nat, cumulative: real)
    requires i < |s| && NonNegative(s[..i]) && s[i] >= 0.0
    requires cumulative == Total(s[..i])
    ensures NonNegative(s[..i + 1])
    ensures cumulative + s[i] == Total(s[..i + 1])
  {
    assert s[..i + 1][..i] == s[..i];
  }

  /** One coherence score per input: element k is `1 / (1 + sum of the first k + 1 inputs)`. */
  function Coherence(s: seq<real>): (c: seq<real>)
    requires NonNegative(s)
    ensures |c| == |s|
  {
    seq(|s|, k requires 0 <= k < |s| => 1.0 / (1.0 + Total(s[..k + 1])))
  }

  /** `xi_series_to_coherence`: the fold over the series, refusing any negative value. */
  method XiSeriesToCoherence(series: seq<real>) returns (r: Result<seq<real>, CoherenceError>)
    ensures r.Success? <==> NonNegative(series)
    ensures r.Success? ==> r.value == Coherence(series)
    ensures r.Failure? ==> r.error == NegativeTension
  {
    var coherence: seq<real> := [];
    var cumulative := 0.0;
    for i := 0 to |series|
      invariant NonNegative(series[..i])
      invariant cumulative == Total(series[..i])
      invariant |coherence| == i
      invariant forall k :: 0 <= k < i ==> coherence[k] == 1.0 / (1.0 + Total(series[..k + 1]))
    {
      var xiValue := series[i];
      if xiValue < 0.0 {
        return Failure(NegativeTension);
      }
      TotalStep(series, i, cumulative);
      cumulative := cumulative + xiValue;
      coherence := coherence + [1.0 / (1.0 + cumulative)];
    }
    assert series[..|series|] == series;
    return Success(coherence);
  }

  lemma {:induction false} TotalPrefixMonotone(s: seq<real>, i: nat, j: nat)
    requires NonNegative(s) && i <= j <= |s|
    ensures Total(s[..i]) <= Total(s[..j])
    decreases j - i
  {
    if i < j {
      TotalPrefixMonotone(s, i, j - 1);
      assert s[..j][..j - 1] == s[..j - 1];
      assert NonNegative(s[..j - 1]);
    }
  }

  /** Every coherence score lies in (0, 1]. */
  lemma CoherenceBounds(s: seq<real>, k: nat)
    requires NonNegative(s) && k < |s|
    ensures 0.0 < Coherence(s)[k] <= 1.0
  {
    assert NonNegative(s[..k + 1]);
    var t := Total(s[..k + 1]);
    assert 1.0 <= 1.0 + t;
  }

  /** Coherence never increases along the series. */
  lemma CoherenceNonIncreasing(s: seq<real>, i: nat, j: nat)
    requires NonNegative(s) && i <= j < |s|
    ensures Coherence(s)[j] <= Coherence(s)[i]
  {
    TotalPrefixMonotone(s, i + 1, j + 1);
    assert NonNegative(s[..i + 1]);
    var ti, tj := Total(s[..i + 1]), Total(s[..j + 1]);
    ReciprocalAntitone(1.0 + ti, 1.0 + tj);
  }

  lemma ReciprocalAntitone(a: real, b: real)
    requires 0.0 < a <= b
    ensures 1.0 / b <= 1.0 / a
  {
    var x, y := 1.0 / a, 1.0 / b;
    assert x * a == 1.0 && y * b == 1.0;
    assert y > 0.0;
    if y > x {
      assert y * a > x * a;
      assert y * b >= y * a;
    }
  }

  /** An empty series has no scores; a single value x gives `[1 / (1 + x)]`. */
  lemma CoherenceShortSeries(x: real)
    requires x >= 0.0
    ensures Coherence([]) == []
    ensures Coherence([x]) == [1.0 / (1.0 + x)]
  {
    assert [x][..1] == [x] && [x][..0] == [];
    assert Total([x]) == x;
    assert Coherence([x])[0] == 1.0 / (1.0 + x);
  }

  /** Two values x, y give `[1 / (1 + x), 1 / (1 + x + y)]`. */
  lemma CoherenceOfTwo(x: real, y: real)
    requires x >= 0.0 && y >= 0.0
    ensures Coherence([x, y]) == [1.0 / (1.0 + x), 1.0 / (1.0 + (x + y))]
  {
    var s := [x, y];
    assert s[..1] == [x] && s[..2] == s && s[..1][..0] == [] && s[..0] == [];
    assert Total([x]) == x;
    assert Total(s) == x + y;
  }
}
