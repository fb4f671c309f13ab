/**
 * Anchor detection in the browser page (web/app.js, `detectAnchors`). The
 * observations arrive as one comma-separated string; the weights (after
 * `JSON.parse`) are a plain map. The store is the page's `anchorStore` set.
 *
 * The one difference from the Python version is the weight fallback
 * `weights[a] || 1`, which treats a weight of 0 like a missing one.
 */
module WebAnchors {
  import opened Wrappers
  import opened Ordering
  import opened Text
  import opened AnchorDetection
  import opened JsObjects
  import opened WebEmbedding

  function TrimAll(items: seq<string>): (r: seq<string>)
    ensures |r| == |items|
    ensures forall i :: 0 <= i < |r| ==> r[i] == Trim(items[i])
  {
    seq(|items|, i requires 0 <= i < |items| => Trim(items[i]))
  }

  /** `.filter(Boolean)` on strings: drop the empty ones, keep the order. */
  function KeepNonEmpty(items: seq<string>): (r: seq<string>)
    ensures |r| <= |items|
    ensures forall i :: 0 <= i < |r| ==> r[i] != []
    ensures forall x :: x in r <==> x in items && x != []
    ensures forall x :: x != [] ==> multiset(r)[x] == multiset(items)[x]
    ensures (forall i :: 0 <= i < |items| ==> items[i] != []) ==> r == items
  {
    if items == [] then []
    else
      assert items == [items[0]] + items[1..];
      if items[0] == [] then KeepNonEmpty(items[1..])
      else [items[0]] + KeepNonEmpty(items[1..])
  }

  /** The kept items stay in their order: filtering distributes over concatenation. */
  lemma {:induction false} KeepNonEmptyAppend(a: seq<string>, b: seq<string>)
    ensures KeepNonEmpty(a + b) == KeepNonEmpty(a) + KeepNonEmpty(b)
    decreases |a|
  {
    if a == [] {
      assert a + b == b;
    } else {
      assert (a + b)[0] == a[0] && (a + b)[1..] == a[1..] + b;
      KeepNonEmptyAppend(a[1..], b);
    }
  }

  /** The comma-free, trimmed, non-empty observation `x`. */
  ghost predicate CleanItem(x: string)
  {
    x != [] && ',' !in x && !IsJsSpace(x[0]) && !IsJsSpace(x[|x| - 1])
  }

  lemma TrimmedPieceIsClean(piece: string)
    requires ',' !in piece && Trim(piece) != []
    ensures CleanItem(Trim(piece))
  {
    var t := TrimStart(piece);
    SliceAvoids(piece, ',', |piece| - |t|, |piece|);
    SliceAvoids(t, ',', 0, |TrimEnd(t)|);
  }

  lemma ParsedItemsClean(pieces: seq<string>)
    requires forall k :: 0 <= k < |pieces| ==> ',' !in pieces[k]
    ensures forall i :: 0 <= i < |KeepNonEmpty(TrimAll(pieces))| ==> CleanItem(KeepNonEmpty(TrimAll(pieces))[i])
  {
    var trimmed := TrimAll(pieces);
    var r := KeepNonEmpty(trimmed);
    forall i | 0 <= i < |r| ensures CleanItem(r[i]) {
      var x := r[i];
      assert x in r;
      assert x in trimmed && x != [];
      var k :| 0 <= k < |trimmed| && trimmed[k] == x;
      TrimmedPieceIsClean(pieces[k]);
    }
  }

  /** `obsStr.split(',').map(o => o.trim()).filter(Boolean)`. */
  function ParseObservations(obsStr: string): (obs: seq<string>)
    ensures forall i :: 0 <= i < |obs| ==> CleanItem(obs[i])
  {
    var pieces := Split(obsStr, ',');
    ParsedItemsClean(pieces);
    KeepNonEmpty(TrimAll(pieces))
  }

  lemma TrimClean(x: string)
    requires x != [] && !IsJsSpace(x[0]) && !IsJsSpace(x[|x| - 1])
    ensures Trim(x) == x
  {
    assert TrimStart(x) == x;
    assert TrimEnd(x) == x;
  }

  /** Clean observations joined with commas parse back to themselves. */
  lemma ParseJoin(items: seq<string>)
    requires forall i :: 0 <= i < |items| ==> CleanItem(items[i])
    ensures ParseObservations(Join(items, ',')) == items
  {
    if items == [] {
      assert Split([], ',') == [[]];
      assert TrimAll([[]]) == [[]] by {
        assert TrimStart([]) == [];
      }
    } else {
      SplitJoin(items, ',');
      TrimAllClean(items);
      assert KeepNonEmpty(items) == items;
    }
  }

  lemma TrimAllClean(items: seq<string>)
    requires forall i :: 0 <= i < |items| ==> CleanItem(items[i])
    ensures TrimAll(items) == items
  {
    var t := TrimAll(items);
    forall i | 0 <= i < |items| ensures t[i] == items[i] {
      TrimClean(items[i]);
    }
  }

  /** `weights[a] || 1`: a missing weight and a weight of 0 both count as 1. */
  function JsWeight(weights: map<string, real>, anchor: string): (w: real)
    ensures w != 0.0
    ensures Weight(Some(weights), anchor) != 0.0 ==> w == Weight(Some(weights), anchor)
    ensures Weight(Some(weights), anchor) == 0.0 ==> w == 1.0
  {
    if anchor in weights && weights[anchor] != 0.0 then weights[anchor] else 1.0
  }

  /** `score = a => counts[a] * (weights[a] || 1)`. */
  function JsScore(counts: map<string, nat>, weights: map<string, real>): (score: string -> real)
    ensures forall a :: a in counts ==> score(a) == counts[a] as real * JsWeight(weights, a)
    ensures forall a :: a !in counts ==> score(a) == 0.0
    ensures forall a :: Weight(Some(weights), a) != 0.0 ==> score(a) == PyScore(counts, Some(weights))(a)
  {
    (a: string) => (if a in counts then counts[a] else 0) as real * JsWeight(weights, a)
  }

  /**
   * `Object.keys(counts).filter(o => counts[o] > 1)`: the repeated observations,
   * except the names inherited from `Object.prototype`, which never reach a
   * numeric count above 1 (see `JsObjects`).
   */
  function JsAnchorsOf(observations: seq<string>): (anchors: set<string>)
    ensures anchors <= AnchorsOf(observations)
    ensures forall x :: x in anchors ==> TwoPositions(observations, x) && x !in InheritedNames
    ensures (forall i :: 0 <= i < |observations| ==> observations[i] !in InheritedNames) ==> anchors == AnchorsOf(observations)
  {
    AnchorsOf(observations) - InheritedNames
  }

  /** The page's anchors, read off its `counts` object. */
  function JsAnchorsFromCounts(counts: map<string, nat>): set<string>
  {
    AnchorsFromCounts(counts) - InheritedNames
  }

  lemma JsAnchorsFromCountsOf(observations: seq<string>)
    ensures JsAnchorsFromCounts(CountsOf(observations)) == JsAnchorsOf(observations)
  {
    AnchorsFromCountsOf(observations);
  }

  /**
   * `anchors.sort(...)`: every repeated observation that is not an inherited
   * name, each once, by descending `count * (weight || 1)`, ties in ascending
   * string order.
   */
  function JsRanked(observations: seq<string>, weights: map<string, real>): (r: seq<string>)
    ensures forall x :: x in r <==> x in observations && multiset(observations)[x] > 1 && x !in InheritedNames
    ensures |r| == |JsAnchorsOf(observations)|
    ensures SortedBy(r, RankLess(JsScore(CountsOf(observations), weights)))
  {
    RankLessIsStrictTotal(JsScore(CountsOf(observations), weights));
    SortSet(JsAnchorsOf(observations), RankLess(JsScore(CountsOf(observations), weights)))
  }

  /**
   * Without inherited names and zero weights among the anchors, the page ranks
   * exactly as the Python module does, with ties broken by code point as
   * `JsRanked` does. The page itself breaks ties with `a < b` on UTF-16 code
   * units, which differs when tied anchors first differ at a character above
   * U+FFFF against one in U+E000..U+FFFF (see `TieOrderDiffers`).
   */
  lemma JsRankedMatchesPython(observations: seq<string>, weights: map<string, real>)
    requires forall a :: a in AnchorsOf(observations) ==> a !in InheritedNames
    requires forall a :: a in AnchorsOf(observations) && a in weights ==> weights[a] != 0.0
    ensures JsRanked(observations, weights) == Ranked(observations, Some(weights))
  {
    var counts := CountsOf(observations);
    var js, py := JsScore(counts, weights), PyScore(counts, Some(weights));
    forall a | a in AnchorsOf(observations) ensures js(a) == py(a) {
    }
    assert JsAnchorsOf(observations) == AnchorsOf(observations);
    RankLessIsStrictTotal(js);
    RankLessIsStrictTotal(py);
    SortSetAgree(AnchorsOf(observations), RankLess(js), RankLess(py));
  }

  /**
   * An inherited name separates the two versions: `"constructor,constructor"`
   * gives `['constructor']` in Python and `[]` on the page.
   */
  lemma InheritedNameDiffers()
    ensures ParseObservations("constructor,constructor") == ["constructor", "constructor"]
    ensures Ranked(["constructor", "constructor"], None) == ["constructor"]
    ensures JsRanked(["constructor", "constructor"], map[]) == []
  {
    var obs := ["constructor", "constructor"];
    assert Join(obs, ',') == "constructor,constructor";
    ParseJoin(obs);
    InheritedNamePython(obs);
    InheritedNamePage(obs);
  }

  lemma InheritedNameCounts(obs: seq<string>)
    requires obs == ["constructor", "constructor"]
    ensures AnchorsOf(obs) == {"constructor"}
  {
    assert Occurrences(obs, "constructor") == 2;
  }

  lemma InheritedNamePython(obs: seq<string>)
    requires obs == ["constructor", "constructor"]
    ensures Ranked(obs, None) == ["constructor"]
  {
    InheritedNameCounts(obs);
    var score := PyScore(CountsOf(obs), None);
    RankLessIsStrictTotal(score);
    SortSetUnique(["constructor"], AnchorsOf(obs), RankLess(score));
  }

  lemma InheritedNamePage(obs: seq<string>)
    requires obs == ["constructor", "constructor"]
    ensures JsRanked(obs, map[]) == []
  {
    InheritedNameCounts(obs);
    assert JsAnchorsOf(obs) == {};
  }

  lemma ZeroWeightCounts(obs: seq<string>)
    requires obs == ["a", "a", "b", "b"]
    ensures CountsOf(obs)["a"] == 2 && CountsOf(obs)["b"] == 2
    ensures forall x :: x in AnchorsOf(obs) <==> x in ["a", "b"]
  {
    assert Occurrences(obs, "a") == 2 && Occurrences(obs, "b") == 2;
    forall x | x in obs ensures x == "a" || x == "b" {
    }
  }

  lemma ZeroWeightPython(obs: seq<string>)
    requires obs == ["a", "a", "b", "b"]
    ensures Ranked(obs, Some(map["a" := 0.0])) == ["b", "a"]
  {
    ZeroWeightCounts(obs);
    var py := PyScore(CountsOf(obs), Some(map["a" := 0.0]));
    assert py("a") == 0.0 && py("b") == 2.0;
    assert RankLess(py)("b", "a");
    RankLessIsStrictTotal(py);
    SortSetUnique(["b", "a"], AnchorsOf(obs), RankLess(py));
  }

  lemma ZeroWeightPage(obs: seq<string>)
    requires obs == ["a", "a", "b", "b"]
    ensures JsRanked(obs, map["a" := 0.0]) == ["a", "b"]
  {
    ZeroWeightPageAnchors(obs);
    var counts := CountsOf(obs);
    var js := JsScore(counts, map["a" := 0.0]);
    ZeroWeightPageOrder(counts);
    RankLessIsStrictTotal(js);
    SortSetUnique(["a", "b"], JsAnchorsOf(obs), RankLess(js));
  }

  lemma ZeroWeightPageAnchors(obs: seq<string>)
    requires obs == ["a", "a", "b", "b"]
    ensures "a" in CountsOf(obs) && "b" in CountsOf(obs) && CountsOf(obs)["a"] == 2 && CountsOf(obs)["b"] == 2
    ensures forall x :: x in ["a", "b"] <==> x in JsAnchorsOf(obs)
  {
    ZeroWeightCounts(obs);
    assert obs[0] == "a" && obs[2] == "b";
    assert "a" !in InheritedNames && "b" !in InheritedNames;
  }

  lemma ZeroWeightPageOrder(counts: map<string, nat>)
    requires "a" in counts && "b" in counts && counts["a"] == 2 && counts["b"] == 2
    ensures SortedBy(["a", "b"], RankLess(JsScore(counts, map["a" := 0.0])))
  {
    var js := JsScore(counts, map["a" := 0.0]);
    assert JsWeight(map["a" := 0.0], "a") == 1.0 && JsWeight(map["a" := 0.0], "b") == 1.0;
    assert js("a") == 2.0 && js("b") == 2.0;
    assert StrLt("a", "b");
    assert RankLess(js)("a", "b");
  }

  /**
   * The two tie orders disagree on U+FF61 and U+10000: by code point U+FF61
   * comes first, but the first UTF-16 code unit of U+10000 is 0xD800, below
   * 0xFF61, so the page's `a < b` puts U+10000 first.
   */
  lemma TieOrderDiffers()
    ensures StrLt("\U{FF61}", "\U{10000}") && !StrLt("\U{10000}", "\U{FF61}")
    ensures Utf16("\U{10000}")[0] == 0xD800 && Utf16("\U{FF61}")[0] == 0xFF61
  {
    assert Utf16Char('\U{10000}') == [0xD800, 0xDC00];
    assert Utf16("\U{10000}") == Utf16Char('\U{10000}') + Utf16([]);
    assert Utf16("\U{FF61}") == Utf16Char('\U{FF61}') + Utf16([]);
  }

  /**
   * A weight of 0 separates the two versions: for `"a,a,b,b"` with weight 0 on
   * `a`, Python scores a = 0 and b = 2 and returns `['b', 'a']`, while the page
   * reads the 0 as 1, scores both 2 and returns `['a', 'b']`.
   */
  lemma ZeroWeightDiffers()
    ensures ParseObservations("a,a,b,b") == ["a", "a", "b", "b"]
    ensures Ranked(["a", "a", "b", "b"], Some(map["a" := 0.0])) == ["b", "a"]
    ensures JsRanked(["a", "a", "b", "b"], map["a" := 0.0]) == ["a", "b"]
  {
    var obs := ["a", "a", "b", "b"];
    assert Join(obs, ',') == "a,a,b,b";
    ParseJoin(obs);
    ZeroWeightPython(obs);
    ZeroWeightPage(obs);
  }

  /** The page's `anchorStore` with `detectAnchors`; the page never clears it. */
  class JsAnchorStore {
    var anchors: set<string>

    constructor ()
      ensures anchors == {}
    {
      anchors := {};
    }

    /** `detectAnchors(obsStr, weightsStr)` with the weights already parsed. */
    method DetectAnchors(obsStr: string, weights: map<string, real>) returns (ranked: seq<string>)
      modifies this
      ensures anchors == old(anchors) + JsAnchorsOf(ParseObservations(obsStr))
      ensures ranked == JsRanked(ParseObservations(obsStr), weights)
    {
      var observations := ParseObservations(obsStr);
      var counts := CountObservations(observations);
      var found := JsAnchorsFromCounts(counts);
      JsAnchorsFromCountsOf(observations);
      anchors := anchors + found;
      var score := JsScore(counts, weights);
      RankLessIsStrictTotal(score);
      ranked := SortSet(found, RankLess(score));
    }
  }
}
