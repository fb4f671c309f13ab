/**
 * Anchor detection (ai_identity/anchor_detection.py): the observations that occur
 * more than once, added to an ever-growing anchor store and ranked by
 * frequency times weight, ties broken by string order.
 *
 * The module-level `ANCHOR_STORE` set is an `AnchorStore` object here, so that
 * the functions that update it are methods with a `modifies` clause.
 */
module AnchorDetection {
  import opened Wrappers
  import opened Ordering

  /** The `counts` dictionary: each distinct observation with its number of occurrences. */
  function CountsOf(observations: seq<string>): (counts: map<string, nat>)
    ensures forall x :: x in counts <==> x in observations
    ensures forall x :: x in counts ==> 1 <= counts[x] <= |observations|
  {
    CountsBounded(observations);
    map x | x in observations :: multiset(observations)[x]
  }

  /** The observations that occur more than once (the `anchors` set comprehension). */
  function AnchorsOf(observations: seq<string>): (anchors: set<string>)
    ensures forall x :: x in anchors <==> TwoPositions(observations, x)
  {
    TwoPositionsIsRepeat(observations);
    set x | x in observations && multiset(observations)[x] > 1
  }

  /** `x` occurs at two different positions of `s`. */
  ghost predicate TwoPositions(s: seq<string>, x: string)
  {
    exists i, j :: 0 <= i < j < |s| && s[i] == x && s[j] == x
  }

  /** An observation is counted at least once and at most once per position. */
  lemma CountsBounded(observations: seq<string>)
    ensures forall x :: x in observations ==> 1 <= multiset(observations)[x] <= |observations|
  {
    forall x | x in observations
      ensures multiset(observations)[x] <= |observations|
    {
      MultiplicityAtMostSize(multiset(observations), x);
    }
  }

  lemma MultiplicityAtMostSize(m: multiset<string>, x: string)
    ensures m[x] <= |m|
  {
    var rest := m[x := 0];
    assert m == rest + multiset{}[x := m[x]];
  }

  /** Occurring more than once is occurring at two positions. */
  lemma {:induction false} TwoPositionsIsRepeat(s: seq<string>)
    ensures forall x :: multiset(s)[x] > 1 <==> TwoPositions(s, x)
    decreases |s|
  {
    if s != [] {
      var t := s[..|s| - 1];
      var last := s[|s| - 1];
      assert s == t + [last];
      TwoPositionsIsRepeat(t);
      forall x
        ensures multiset(s)[x] > 1 <==> TwoPositions(s, x)
      {
        if TwoPositions(s, x) {
          var i, j :| 0 <= i < j < |s| && s[i] == x && s[j] == x;
          if j < |s| - 1 {
            assert t[i] == x && t[j] == x;
          } else {
            assert t[i] == x;
            assert x in t;
          }
        }
        if multiset(s)[x] > 1 {
          if x == last && multiset(t)[x] == 1 {
            assert x in t;
            var i :| 0 <= i < |t| && t[i] == x;
            assert s[i] == x && s[|s| - 1] == x;
          } else {
            assert TwoPositions(t, x);
            var i, j :| 0 <= i < j < |t| && t[i] == x && t[j] == x;
            assert s[i] == x && s[j] == x;
          }
        }
      }
    }
  }

  /** The repeated observations, read off the `counts` dictionary. */
  function AnchorsFromCounts(counts: map<string, nat>): set<string>
  {
    set o | o in counts && counts[o] > 1
  }

  lemma AnchorsFromCountsOf(observations: seq<string>)
    ensures AnchorsFromCounts(CountsOf(observations)) == AnchorsOf(observations)
  {
  }

  /** `weights or {}` followed by `weights.get(anchor, 1)`. */
  function Weight(weights: Option<map<string, real>>, anchor: string): (w: real)
    ensures weights.None? ==> w == 1.0
    ensures weights.Some? && anchor !in weights.value ==> w == 1.0
    ensures weights.Some? && anchor in weights.value ==> w == weights.value[anchor]
  {
    match weights
    case None => 1.0
    case Some(w) => if anchor in w then w[anchor] else 1.0
  }

  /** `score(anchor) = counts[anchor] * weights.get(anchor, 1)`. */
  function PyScore(counts: map<string, nat>, weights: Option<map<string, real>>): (score: string -> real)
    ensures forall a :: a in counts ==> score(a) == counts[a] as real * Weight(weights, a)
    ensures forall a :: a !in counts ==> score(a) == 0.0
  {
    (a: string) => (if a in counts then counts[a] else 0) as real * Weight(weights, a)
  }

  /** The order of the sort key `(-score(a), str(a))`: higher score first, then string order. */
  function RankLess(score: string -> real): (less: (string, string) -> bool)
    ensures forall a, b :: score(a) > score(b) ==> less(a, b) && !less(b, a)
    ensures forall a, b :: score(a) == score(b) ==> (less(a, b) <==> StrLt(a, b))
  {
    (a: string, b: string) => score(a) > score(b) || (score(a) == score(b) && StrLt(a, b))
  }

  lemma RankLessIsStrictTotal(score: string -> real)
    ensures StrictTotalOrder(RankLess(score))
  {
    StrLtIsStrictTotal();
    var less := RankLess(score);
    forall a, b, c | less(a, b) && less(b, c) ensures less(a, c) {
      if score(a) == score(b) && score(b) == score(c) {
        StrLtTransitive(a, b, c);
      }
    }
    forall a, b | a != b ensures less(a, b) || less(b, a) {
      StrLtTotal(a, b);
    }
  }

  /**
   * What `detect_anchors(observations, weights)` returns: every observation that
   * occurs more than once, exactly once each, by descending count times weight,
   * equal scores in ascending string order.
   */
  function Ranked(observations: seq<string>, weights: Option<map<string, real>>): (r: seq<string>)
    ensures forall x :: x in r <==> x in AnchorsOf(observations)
    ensures |r| == |AnchorsOf(observations)|
    ensures SortedBy(r, RankLess(PyScore(CountsOf(observations), weights)))
  {
    RankLessIsStrictTotal(PyScore(CountsOf(observations), weights));
    SortSet(AnchorsOf(observations), RankLess(PyScore(CountsOf(observations), weights)))
  }

  /** `count * weight` of a repeated observation, from its number of occurrences. */
  function ScoreOf(observations: seq<string>, weights: Option<map<string, real>>, a: string): real
  {
    multiset(observations)[a] as real * Weight(weights, a)
  }

  /** The score `PyScore` gives an observation is its `count * weight`. */
  lemma PyScoreIsScoreOf(observations: seq<string>, weights: Option<map<string, real>>, a: string)
    requires a in observations
    ensures PyScore(CountsOf(observations), weights)(a) == ScoreOf(observations, weights, a)
  {
  }

  /**
   * The ranking contains exactly the repeated observations, each once, and an
   * anchor comes before every later one by a higher `count * weight`, or by an
   * equal score and a smaller string.
   */
  lemma RankedIsSortedAnchors(observations: seq<string>, weights: Option<map<string, real>>)
    ensures var r := Ranked(observations, weights);
      && (forall x :: x in r <==> x in observations && multiset(observations)[x] > 1)
      && (forall i, j :: 0 <= i < j < |r| ==> r[i] != r[j])
      && (forall i, j :: 0 <= i < j < |r| ==> RankedBefore(observations, weights, r[i], r[j]))
  {
    var r := Ranked(observations, weights);
    forall i, j | 0 <= i < j < |r|
      ensures r[i] != r[j] && RankedBefore(observations, weights, r[i], r[j])
    {
      RankedPair(observations, weights, r, i, j);
    }
  }

  /** `a` precedes `b` in the order of the key `(-count * weight, str)`. */
  ghost predicate RankedBefore(observations: seq<string>, weights: Option<map<string, real>>, a: string, b: string)
  {
    || ScoreOf(observations, weights, a) > ScoreOf(observations, weights, b)
    || (ScoreOf(observations, weights, a) == ScoreOf(observations, weights, b) && StrLt(a, b))
  }

  lemma RankedPair(observations: seq<string>, weights: Option<map<string, real>>, r: seq<string>, i: int, j: int)
    requires r == Ranked(observations, weights)
    requires 0 <= i < j < |r|
    ensures r[i] != r[j] && RankedBefore(observations, weights, r[i], r[j])
  {
    var score := PyScore(CountsOf(observations), weights);
    var a, b := r[i], r[j];
    assert RankLess(score)(a, b);
    StrLtIrreflexive(a);
    assert a in AnchorsOf(observations) && b in AnchorsOf(observations);
    PyScoreIsScoreOf(observations, weights, a);
    PyScoreIsScoreOf(observations, weights, b);
  }

  /** The counting loop of `detect_anchors`. */
  method CountObservations(observations: seq<string>) returns (counts: map<string, nat>)
    ensures counts == CountsOf(observations)
  {
    counts := map[];
    for i := 0 to |observations|
      invariant counts == CountsOf(observations[..i])
    {
      var obs := observations[i];
      ghost var before := observations[..i];
      assert observations[..i + 1] == before + [obs];
      CountsOfSnoc(before, obs);
      counts := counts[obs := (if obs in counts then counts[obs] else 0) + 1];
    }
    assert observations[..|observations|] == observations;
  }

  /** One more observation raises its count by one, from 0 when it is new. */
  lemma CountsOfSnoc(before: seq<string>, obs: string)
    ensures CountsOf(before + [obs]) == CountsOf(before)[obs := (if obs in CountsOf(before) then CountsOf(before)[obs] else 0) + 1]
  {
    var counts := CountsOf(before)[obs := (if obs in CountsOf(before) then CountsOf(before)[obs] else 0) + 1];
    forall x ensures x in counts <==> x in before + [obs] {
    }
    forall x | x in counts ensures counts[x] == multiset(before + [obs])[x] {
    }
  }

  /** In a sequence without repetitions every element occurs once. */
  lemma {:induction false} DistinctOccursOnce(observations: seq<string>, x: string)
    requires forall i, j :: 0 <= i < j < |observations| ==> observations[i] != observations[j]
    ensures multiset(observations)[x] <= 1
    decreases |observations|
  {
    if observations != [] {
      var rest := observations[1..];
      assert observations == [observations[0]] + rest;
      DistinctOccursOnce(rest, x);
      if x == observations[0] {
        forall k | 0 <= k < |rest| ensures rest[k] != x {
          assert rest[k] == observations[k + 1];
        }
      }
    }
  }

  /** If no observation repeats, there are no anchors and the result is empty. */
  lemma NoRepeatsNoAnchors(observations: seq<string>, weights: Option<map<string, real>>)
    requires forall i, j :: 0 <= i < j < |observations| ==> observations[i] != observations[j]
    ensures AnchorsOf(observations) == {}
    ensures Ranked(observations, weights) == []
  {
    forall x | x in observations ensures multiset(observations)[x] <= 1 {
      DistinctOccursOnce(observations, x);
    }
  }

  /** Occurrences of `x`, counted from the end; equal to the multiset count. */
  function Occurrences(s: seq<string>, x: string): (n: nat)
    ensures n == multiset(s)[x]
  {
    if s == [] then 0
    else
      assert s == s[..|s| - 1] + [s[|s| - 1]];
      Occurrences(s[..|s| - 1], x) + (if s[|s| - 1] == x then 1 else 0)
  }

  /** `detect_anchors(['a', 'b', 'a', 'c', 'b'])` has the elements `{'a', 'b'}`. */
  lemma RepeatedItemsExample()
    ensures AnchorsOf(["a", "b", "a", "c", "b"]) == {"a", "b"}
  {
    var obs := ["a", "b", "a", "c", "b"];
    assert Occurrences(obs, "a") == 2 && Occurrences(obs, "b") == 2 && Occurrences(obs, "c") == 1;
    forall x | x in obs ensures x == "a" || x == "b" || x == "c" {
    }
  }

  /** Weighted ranking: scores a = 2*2, b = 3*1, c = 2*1 give `['a', 'b', 'c']`. */
  lemma WeightedRankingExample()
    ensures Ranked(["a", "b", "a", "b", "b", "c", "c"], Some(map["a" := 2.0, "b" := 1.0])) == ["a", "b", "c"]
  {
    var obs := ["a", "b", "a", "b", "b", "c", "c"];
    var w := Some(map["a" := 2.0, "b" := 1.0]);
    var less := RankLess(PyScore(CountsOf(obs), w));
    ExampleOrder(obs, w);
    ExampleCounts(obs);
    RankLessIsStrictTotal(PyScore(CountsOf(obs), w));
    SortSetUnique(["a", "b", "c"], AnchorsOf(obs), less);
  }

  lemma ExampleOrder(obs: seq<string>, w: Option<map<string, real>>)
    requires obs == ["a", "b", "a", "b", "b", "c", "c"]
    requires w == Some(map["a" := 2.0, "b" := 1.0])
    ensures SortedBy(["a", "b", "c"], RankLess(PyScore(CountsOf(obs), w)))
  {
    ExampleCounts(obs);
    var counts := CountsOf(obs);
    assert obs[0] == "a" && obs[1] == "b" && obs[5] == "c";
    ExampleScores(counts, w);
  }

  lemma ExampleScores(counts: map<string, nat>, w: Option<map<string, real>>)
    requires "a" in counts && "b" in counts && "c" in counts
    requires counts["a"] == 2 && counts["b"] == 3 && counts["c"] == 2
    requires w == Some(map["a" := 2.0, "b" := 1.0])
    ensures SortedBy(["a", "b", "c"], RankLess(PyScore(counts, w)))
  {
    var score := PyScore(counts, w);
    assert Weight(w, "a") == 2.0 && Weight(w, "b") == 1.0 && Weight(w, "c") == 1.0;
    assert score("a") == 4.0 && score("b") == 3.0 && score("c") == 2.0;
    var less := RankLess(score);
    assert less("a", "b") && less("b", "c") && less("a", "c");
  }

  lemma ExampleCounts(obs: seq<string>)
    requires obs == ["a", "b", "a", "b", "b", "c", "c"]
    ensures CountsOf(obs)["a"] == 2 && CountsOf(obs)["b"] == 3 && CountsOf(obs)["c"] == 2
    ensures forall x :: x in AnchorsOf(obs) <==> x in ["a", "b", "c"]
  {
    ExampleMultiplicities(obs);
  }

  lemma ExampleMultiplicities(obs: seq<string>)
    requires obs == ["a", "b", "a", "b", "b", "c", "c"]
    ensures multiset(obs)["a"] == 2 && multiset(obs)["b"] == 3 && multiset(obs)["c"] == 2
    ensures forall x :: x in obs ==> x == "a" || x == "b" || x == "c"
  {
    assert Occurrences(obs, "a") == 2 && Occurrences(obs, "b") == 3 && Occurrences(obs, "c") == 2;
  }

  /** The process-wide anchor store together with the functions that use it. */
  class AnchorStore {
    var anchors: set<string>

    constructor ()
      ensures anchors == {}
    {
      anchors := {};
    }

    /** `clear_anchor_store`. */
    method Clear()
      modifies this
      ensures anchors == {}
    {
      anchors := {};
    }

    /** `get_anchor_store`: a copy equal to the store; the store is not changed. */
    method Snapshot() returns (copy: set<string>)
      ensures copy == anchors
    {
      copy := anchors;
    }

    /** `detect_anchors`: rank the anchors of `observations` and add them to the store. */
    method DetectAnchors(observations: seq<string>, weights: Option<map<string, real>> := None)
      returns (ranked: seq<string>)
      modifies this
      ensures anchors == old(anchors) + AnchorsOf(observations)
      ensures ranked == Ranked(observations, weights)
    {
      var counts := CountObservations(observations);
      var found := AnchorsFromCounts(counts);
      AnchorsFromCountsOf(observations);
      anchors := anchors + found;
      var score := PyScore(counts, weights);
      RankLessIsStrictTotal(score);
      ranked := SortSet(found, RankLess(score));
    }
  }

  /**
   * Two identical calls on a fresh store: the same ranking both times, and
   * the store after the second call equals the store after the first.
   */
  method DetectTwice(observations: seq<string>, weights: Option<map<string, real>>)
    returns (first: seq<string>, second: seq<string>, afterOne: set<string>, afterTwo: set<string>)
    ensures first == second
    ensures afterOne == afterTwo == AnchorsOf(observations)
  {
    var store := new AnchorStore();
    first := store.DetectAnchors(observations, weights);
    afterOne := store.Snapshot();
    second := store.DetectAnchors(observations, weights);
    afterTwo := store.Snapshot();
  }
}
