/**
 * Anchor similarity (scripts/anchor_similarity.py): the anchors of two
 * whitespace-separated observation strings, compared by the Jaccard index.
 */
module AnchorSimilarity {
  import opened Wrappers
  import opened SetFacts
  import opened Text
  import opened AnchorDetection

  /** `parse_obs`: Python `text.split()`. */
  function ParseObs(text: string): (obs: seq<string>)
    ensures forall i :: 0 <= i < |obs| ==> |obs[i]| > 0
    ensures forall i, k :: 0 <= i < |obs| && 0 <= k < |obs[i]| ==> !IsPySpace(obs[i][k])
  {
    Words(text)
  }

  /** Shared anchors over all anchors, and 1.0 when neither side has any. */
  function Jaccard(a: set<string>, b: set<string>): (r: real)
    ensures 0.0 <= r <= 1.0
    ensures r == 1.0 <==> a == b
  {
    if a + b == {} then 1.0
    else
      SubsetCard(a * b, a + b);
      var shared, all := |a * b|, |a + b|;
      assert all > 0 by {
        var x :| x in a + b;
      }
      assert shared as real / all as real == 1.0 <==> shared == all by {
        var q := shared as real / all as real;
        assert q * all as real == shared as real;
      }
      assert shared == all <==> a == b by {
        if shared == all {
          SubsetSameCardEqual(a * b, a + b);
          assert forall x :: x in a ==> x in a * b;
          assert forall x :: x in b ==> x in a * b;
        }
        if a == b {
          assert a * b == a + b;
        }
      }
      var q := shared as real / all as real;
      assert q * all as real == shared as real;
      assert q <= 1.0;
      q
  }

  lemma JaccardSymmetric(a: set<string>, b: set<string>)
    ensures Jaccard(a, b) == Jaccard(b, a)
  {
    assert a * b == b * a && a + b == b + a;
  }

  /** The anchors `detect_anchors` returns, taken as a set. */
  lemma RankedAsSet(observations: seq<string>)
    ensures (set x | x in Ranked(observations, None)) == AnchorsOf(observations)
  {
    RankedIsSortedAnchors(observations, None);
  }

  /** The script body: the arguments after the program name, or the usage error. */
  method AnchorSimilarityMain(store: AnchorStore, argv: seq<string>) returns (r: Result<real, string>)
    modifies store
    ensures |argv| < 3 ==> r == Failure("usage: anchor_similarity.py seqA seqB") && store.anchors == old(store.anchors)
    ensures |argv| >= 3 ==>
      && r == Success(Jaccard(AnchorsOf(ParseObs(argv[1])), AnchorsOf(ParseObs(argv[2]))))
      && store.anchors == old(store.anchors) + AnchorsOf(ParseObs(argv[1])) + AnchorsOf(ParseObs(argv[2]))
  {
    if |argv| < 3 {
      return Failure("usage: anchor_similarity.py seqA seqB");
    }
    var obsA, obsB := ParseObs(argv[1]), ParseObs(argv[2]);
    var rankedA := store.DetectAnchors(obsA);
    var rankedB := store.DetectAnchors(obsB);
    RankedAsSet(obsA);
    RankedAsSet(obsB);
    var anchorsA := set x | x in rankedA;
    var anchorsB := set x | x in rankedB;
    r := Success(Jaccard(anchorsA, anchorsB));
  }
}
