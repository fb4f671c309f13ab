/**
 * The xi mapping (ai_identity/xi_mapping.py): a copy of a string-keyed mapping
 * whose entries are laid out in lexicographic key order. The result is modelled
 * as the sequence of its entries, which is the order a Python dict keeps.
 */
module XiMapping {
  import opened Ordering

  function KeysOf<V>(entries: seq<(string, V)>): (ks: seq<string>)
    ensures |ks| == |entries|
    ensures forall i :: 0 <= i < |entries| ==> ks[i] == entries[i].0
  {
    seq(|entries|, i requires 0 <= i < |entries| => entries[i].0)
  }

  /** `xi_map`: the entries of `data`, keys in increasing lexicographic order. */
  function XiMap<V>(data: map<string, V>): (r: seq<(string, V)>)
    ensures |r| == |data|
    ensures forall k :: k in data <==> k in KeysOf(r)
    ensures forall i :: 0 <= i < |r| ==> r[i].0 in data && r[i].1 == data[r[i].0]
    ensures forall i, j :: 0 <= i < j < |r| ==> StrLt(r[i].0, r[j].0)
  {
    StrLtIsStrictTotal();
    var keys := SortSet(data.Keys, StrLt);
    var r := seq(|keys|, i requires 0 <= i < |keys| => (keys[i], data[keys[i]]));
    assert KeysOf(r) == keys;
    r
  }

  /** Building a dict from the entries in order (later entries overwrite earlier ones). */
  function ToMap<V>(entries: seq<(string, V)>): (m: map<string, V>)
    ensures forall k :: k in m <==> k in KeysOf(entries)
  {
    if entries == [] then map[]
    else
      var last := entries[|entries| - 1];
      KeysOfSnoc(entries);
      ToMap(entries[..|entries| - 1])[last.0 := last.1]
  }

  /** The keys of a non-empty entry list are those of its front and the last key. */
  lemma KeysOfSnoc<V>(entries: seq<(string, V)>)
    requires entries != []
    ensures forall k :: k in KeysOf(entries) <==> k in KeysOf(entries[..|entries| - 1]) || k == entries[|entries| - 1].0
  {
    var n := |entries| - 1;
    var front := entries[..n];
    forall k ensures k in KeysOf(entries) <==> k in KeysOf(front) || k == entries[n].0 {
      if k in KeysOf(entries) {
        var i :| 0 <= i < |entries| && KeysOf(entries)[i] == k;
        if i < n {
          assert KeysOf(front)[i] == k;
        }
      }
      if k in KeysOf(front) {
        var i :| 0 <= i < n && KeysOf(front)[i] == k;
        assert KeysOf(entries)[i] == k;
      }
    }
  }

  ghost predicate DistinctKeys<V>(entries: seq<(string, V)>)
  {
    forall i, j :: 0 <= i < j < |entries| ==> entries[i].0 != entries[j].0
  }

  /** With distinct keys, the dict built from the entries holds exactly those entries. */
  lemma {:induction false} ToMapContents<V>(entries: seq<(string, V)>)
    requires DistinctKeys(entries)
    ensures forall k :: k in ToMap(entries) <==> k in KeysOf(entries)
    ensures forall i :: 0 <= i < |entries| ==> ToMap(entries)[entries[i].0] == entries[i].1
    decreases |entries|
  {
    if entries != [] {
      var n := |entries| - 1;
      var front := entries[..n];
      ToMapContents(front);
      forall i | 0 <= i < n ensures ToMap(entries)[entries[i].0] == entries[i].1 {
        assert front[i] == entries[i];
      }
    }
  }

  /** The mapping is a reordering only: it holds the same entries as its input. */
  lemma XiMapRoundTrip<V>(data: map<string, V>)
    ensures ToMap(XiMap(data)) == data
  {
    XiMapDistinct(data);
    ToMapOfEntries(data, XiMap(data));
  }

  /** Entries with distinct keys that list exactly the pairs of `data` rebuild `data`. */
  lemma ToMapOfEntries<V>(data: map<string, V>, r: seq<(string, V)>)
    requires DistinctKeys(r)
    requires forall k :: k in data <==> k in KeysOf(r)
    requires forall i :: 0 <= i < |r| ==> r[i].0 in data && r[i].1 == data[r[i].0]
    ensures ToMap(r) == data
  {
    ToMapValues(data, r);
  }

  lemma ToMapValues<V>(data: map<string, V>, r: seq<(string, V)>)
    requires DistinctKeys(r)
    requires forall k :: k in data <==> k in KeysOf(r)
    requires forall i :: 0 <= i < |r| ==> r[i].0 in data && r[i].1 == data[r[i].0]
    ensures forall k :: k in data ==> k in ToMap(r) && ToMap(r)[k] == data[k]
    ensures forall k :: k in ToMap(r) ==> k in data
  {
    ToMapContents(r);
    forall k | k in data ensures k in ToMap(r) && ToMap(r)[k] == data[k] {
      var i :| 0 <= i < |r| && KeysOf(r)[i] == k;
      assert r[i].0 == k;
    }
  }

  lemma XiMapDistinct<V>(data: map<string, V>)
    ensures DistinctKeys(XiMap(data))
  {
    var r := XiMap(data);
    forall i, j | 0 <= i < j < |r| ensures r[i].0 != r[j].0 {
      StrLtIrreflexive(r[i].0);
    }
  }

  /** Any entry list with strictly increasing keys that holds the entries of `data` is `XiMap(data)`. */
  lemma XiMapUnique<V>(data: map<string, V>, r: seq<(string, V)>)
    requires forall k :: k in data <==> k in KeysOf(r)
    requires forall i :: 0 <= i < |r| ==> r[i].0 in data && r[i].1 == data[r[i].0]
    requires forall i, j :: 0 <= i < j < |r| ==> StrLt(r[i].0, r[j].0)
    ensures r == XiMap(data)
  {
    StrLtIsStrictTotal();
    var x := XiMap(data);
    assert SortedBy(KeysOf(r), StrLt);
    assert SortedBy(KeysOf(x), StrLt);
    SortedUnique(KeysOf(r), KeysOf(x), StrLt);
    assert |r| == |x|;
    forall i | 0 <= i < |r| ensures r[i] == x[i] {
      assert KeysOf(r)[i] == KeysOf(x)[i];
    }
  }

  /** `{'c': 3, 'b': 2, 'a': 1}` comes out in the order a, b, c. */
  lemma XiMapExample()
    ensures XiMap(map["c" := 3, "b" := 2, "a" := 1]) == [("a", 1), ("b", 2), ("c", 3)]
  {
    var data := map["c" := 3, "b" := 2, "a" := 1];
    var r := [("a", 1), ("b", 2), ("c", 3)];
    assert KeysOf(r) == ["a", "b", "c"];
    assert StrLt("a", "b") && StrLt("b", "c") && StrLt("a", "c");
    XiMapUnique(data, r);
  }
}
