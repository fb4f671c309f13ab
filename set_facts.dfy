/** Cardinality facts about finite sets that Dafny does not know on its own. */
module SetFacts {

  lemma {:induction false} SubsetCard<T>(a: set<T>, b: set<T>)
    requires a <= b
    ensures |a| <= |b|
    decreases |a|
  {
    if a != {} {
      var x :| x in a;
      SubsetCard(a - {x}, b - {x});
    }
  }

  lemma SubsetSameCardEqual<T>(a: set<T>, b: set<T>)
    requires a <= b && |a| == |b|
    ensures a == b
  {
    if b - a != {} {
      var x :| x in b - a;
      SubsetCard(a, b - {x});
    } else {
      forall x | x in b ensures x in a {
        assert x !in b - a;
      }
    }
  }
}
