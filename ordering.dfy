/**
 * String ordering and sorting of a set of strings by a strict total order.
 * Python's `sorted(...)` over a set or over dictionary keys, and JavaScript's
 * `Array.prototype.sort` with a total comparator, both produce the unique
 * strictly increasing arrangement of the elements; `SortSet` is that arrangement.
 */
module Ordering {

  /** Lexicographic `<` on strings, compared character by character (Python `str < str`). */
  predicate StrLt(a: string, b: string)
    decreases |a|
  {
    if |a| == 0 then |b| > 0
    else if |b| == 0 then false
    else if a[0] != b[0] then a[0] < b[0]
    else StrLt(a[1..], b[1..])
  }

  ghost predicate StrictTotalOrder(less: (string, string) -> bool)
  {
    && (forall a :: !less(a, a))
    && (forall a, b, c :: less(a, b) && less(b, c) ==> less(a, c))
    && (forall a, b :: a != b ==> less(a, b) || less(b, a))
  }

  ghost predicate SortedBy(r: seq<string>, less: (string, string) -> bool)
  {
    forall i, j :: 0 <= i < j < |r| ==> less(r[i], r[j])
  }

  /** `m` is the least element of `s`. */
  predicate IsLeast(m: string, s: set<string>, less: (string, string) -> bool)
  {
    m in s && forall y :: y in s && y != m ==> less(m, y)
  }

  lemma {:induction false} StrLtIrreflexive(a: string)
    ensures !StrLt(a, a)
    decreases |a|
  {
    if |a| > 0 {
      StrLtIrreflexive(a[1..]);
    }
  }

  lemma {:induction false} StrLtTransitive(a: string, b: string, c: string)
    requires StrLt(a, b) && StrLt(b, c)
    ensures StrLt(a, c)
    decreases |a|
  {
    if |a| > 0 && |b| > 0 && |c| > 0 && a[0] == b[0] && b[0] == c[0] {
      StrLtTransitive(a[1..], b[1..], c[1..]);
    }
  }

  lemma {:induction false} StrLtTotal(a: string, b: string)
    requires a != b
    ensures StrLt(a, b) || StrLt(b, a)
    decreases |a|
  {
    if |a| > 0 && |b| > 0 && a[0] == b[0] {
      assert a == [a[0]] + a[1..] && b == [b[0]] + b[1..];
      StrLtTotal(a[1..], b[1..]);
    }
  }

  /** String order is a strict total order, so it can serve as a sort key. */
  lemma StrLtIsStrictTotal()
    ensures StrictTotalOrder(StrLt)
  {
    forall a ensures !StrLt(a, a) {
      StrLtIrreflexive(a);
    }
    forall a, b, c | StrLt(a, b) && StrLt(b, c) ensures StrLt(a, c) {
      StrLtTransitive(a, b, c);
    }
    forall a, b | a != b ensures StrLt(a, b) || StrLt(b, a) {
      StrLtTotal(a, b);
    }
  }

  /** Every non-empty finite set has a least element under a strict total order. */
  lemma {:induction false} LeastExists(s: set<string>, less: (string, string) -> bool)
    requires StrictTotalOrder(less) && s != {}
    ensures exists m :: IsLeast(m, s, less)
    decreases |s|
  {
    var x :| x in s;
    if s == {x} {
      assert IsLeast(x, s, less);
    } else {
      LeastExists(s - {x}, less);
      var m :| IsLeast(m, s - {x}, less);
      if less(m, x) {
        assert IsLeast(m, s, less);
      } else {
        assert IsLeast(x, s, less);
      }
    }
  }

  lemma LeastUnique(s: set<string>, less: (string, string) -> bool)
    requires StrictTotalOrder(less)
    ensures forall m, n :: IsLeast(m, s, less) && IsLeast(n, s, less) ==> m == n
  {
  }

  /** The elements of `s`, in increasing order under `less`. */
  function SortSet(s: set<string>, less: (string, string) -> bool): (r: seq<string>)
    requires StrictTotalOrder(less)
    ensures |r| == |s|
    ensures forall x :: x in r <==> x in s
    ensures SortedBy(r, less)
    decreases |s|
  {
    if s == {} then []
    else
      LeastExists(s, less);
      LeastUnique(s, less);
      var m :| IsLeast(m, s, less);
      [m] + SortSet(s - {m}, less)
  }

  /** A strictly sorted sequence is determined by its elements. */
  lemma {:induction false} SortedUnique(r1: seq<string>, r2: seq<string>, less: (string, string) -> bool)
    requires StrictTotalOrder(less)
    requires SortedBy(r1, less) && SortedBy(r2, less)
    requires forall x :: x in r1 <==> x in r2
    ensures r1 == r2
    decreases |r1|
  {
    if |r1| > 0 {
      assert r1[0] in r2;
    }
    if |r2| > 0 {
      assert r2[0] in r1;
    }
    if r1 != [] && r2 != [] {
      var a0, b0 := r1[0], r2[0];
      assert b0 in r1 && a0 in r2;
      var j :| 0 <= j < |r1| && r1[j] == b0;
      var k :| 0 <= k < |r2| && r2[k] == a0;
      assert j > 0 ==> less(a0, b0);
      assert k > 0 ==> less(b0, a0);
      assert a0 == b0;
      forall x ensures x in r1[1..] <==> x in r2[1..] {
        if x in r1[1..] {
          var j :| 1 <= j < |r1| && r1[j] == x;
          assert less(r1[0], x);
          assert x in r2;
        }
        if x in r2[1..] {
          var j :| 1 <= j < |r2| && r2[j] == x;
          assert less(r2[0], x);
          assert x in r1;
        }
      }
      SortedUnique(r1[1..], r2[1..], less);
      assert r1 == [r1[0]] + r1[1..] && r2 == [r2[0]] + r2[1..];
    }
  }

  /** Any strictly sorted arrangement of `s` is the one `SortSet` produces. */
  lemma SortSetUnique(r: seq<string>, s: set<string>, less: (string, string) -> bool)
    requires StrictTotalOrder(less)
    requires SortedBy(r, less)
    requires forall x :: x in r <==> x in s
    ensures r == SortSet(s, less)
  {
    SortedUnique(r, SortSet(s, less), less);
  }

  /** Two orders that agree on the elements of `s` sort `s` the same way. */
  lemma SortSetAgree(s: set<string>, less1: (string, string) -> bool, less2: (string, string) -> bool)
    requires StrictTotalOrder(less1) && StrictTotalOrder(less2)
    requires forall a, b :: a in s && b in s ==> (less1(a, b) <==> less2(a, b))
    ensures SortSet(s, less1) == SortSet(s, less2)
  {
    var r := SortSet(s, less1);
    assert SortedBy(r, less2) by {
      forall i, j | 0 <= i < j < |r| ensures less2(r[i], r[j]) {
        assert r[i] in s && r[j] in s;
      }
    }
    SortSetUnique(r, s, less2);
  }
}
