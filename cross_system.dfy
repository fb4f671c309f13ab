/**
 * Cross-system consensus (ai_identity/cross_system.py): a record of each system's
 * outputs, its latest output, the fraction of systems that agree on the most
 * common latest output, a threshold test on that fraction, and a reset.
 */
module CrossSystem {
  import opened SetFacts

  /** The most recent output of every system that has registered one. */
  function LatestOf(outputs: map<string, seq<string>>): (latest: map<string, string>)
    ensures forall s :: s in latest <==> s in outputs && |outputs[s]| > 0
    ensures forall s :: s in latest ==> latest[s] == outputs[s][|outputs[s]| - 1]
    ensures |latest| <= |outputs|
  {
    var latest := map s | s in outputs && |outputs[s]| > 0 :: outputs[s][|outputs[s]| - 1];
    SubsetCard(latest.Keys, outputs.Keys);
    map s | s in outputs && |outputs[s]| > 0 :: outputs[s][|outputs[s]| - 1]
  }

  /** A system whose list gains an output has that output as its latest, and no other system changes. */
  lemma LatestOfAppend(outputs: map<string, seq<string>>, system: string, list: seq<string>)
    requires |list| > 0
    ensures LatestOf(outputs[system := list]) == LatestOf(outputs)[system := list[|list| - 1]]
  {
    var l := LatestOf(outputs[system := list]);
    var r := LatestOf(outputs)[system := list[|list| - 1]];
    assert l.Keys == r.Keys;
    forall s | s in l
      ensures l[s] == r[s]
    {
    }
  }

  /** The systems whose latest output is `o`. */
  function Agreeing(latest: map<string, string>, o: string): set<string>
  {
    set s | s in latest && latest[s] == o
  }

  /** How many systems share the latest output of system `s`. */
  function Support(latest: map<string, string>, s: string): nat
    requires s in latest
  {
    |Agreeing(latest, latest[s])|
  }

  /** The largest number of systems in `keys` sharing one latest output. */
  ghost function BestOver(latest: map<string, string>, keys: set<string>): (m: nat)
    requires keys <= latest.Keys
    ensures forall s :: s in keys ==> Support(latest, s) <= m
    ensures keys != {} ==> exists s :: s in keys && Support(latest, s) == m
    ensures keys == {} ==> m == 0
    decreases keys
  {
    if keys == {} then 0
    else
      var s :| s in keys;
      var rest := BestOver(latest, keys - {s});
      var here := Support(latest, s);
      if here >= rest then here else rest
  }

  ghost function Best(latest: map<string, string>): nat
  {
    BestOver(latest, latest.Keys)
  }

  /** What `consensus()` returns: 0.0 without systems, else the best agreement over the number of systems. */
  ghost function ConsensusScore(latest: map<string, string>): (c: real)
    ensures |latest| == 0 ==> c == 0.0
    ensures |latest| > 0 ==> 0.0 < c <= 1.0
  {
    if |latest| == 0 then 0.0
    else
      BestBounds(latest);
      RatioAtLeastOne(Best(latest), |latest|);
      Best(latest) as real / |latest| as real
  }

  lemma RatioAtLeastOne(b: nat, n: nat)
    requires 0 < n
    ensures b as real / n as real >= 1.0 <==> b >= n
    ensures b <= n ==> b as real / n as real <= 1.0
    ensures b > 0 ==> b as real / n as real > 0.0
  {
    var q := b as real / n as real;
    assert q * n as real == b as real;
    if b >= n {
      assert q >= 1.0;
    }
  }

  /** No output is shared by more systems than `Best`. */
  lemma BestIsMax(latest: map<string, string>, o: string)
    ensures |Agreeing(latest, o)| <= Best(latest)
  {
    if Agreeing(latest, o) != {} {
      var s :| s in Agreeing(latest, o);
      assert Support(latest, s) <= Best(latest);
    }
  }

  /** `Best` is the size of some output's agreeing group. */
  lemma BestAttained(latest: map<string, string>) returns (s: string)
    requires |latest| > 0
    ensures s in latest && |Agreeing(latest, latest[s])| == Best(latest)
  {
    assert latest.Keys != {} by {
      var k :| k in latest;
    }
    s :| s in latest.Keys && Support(latest, s) == Best(latest);
  }

  lemma BestBounds(latest: map<string, string>)
    requires |latest| > 0
    ensures 1 <= Best(latest) <= |latest|
  {
    var s := BestAttained(latest);
    assert s in Agreeing(latest, latest[s]);
    SubsetCard(Agreeing(latest, latest[s]), latest.Keys);
  }

  /** Consensus is 0.0 with no systems and otherwise lies in (0, 1]. */
  lemma ConsensusRange(latest: map<string, string>)
    ensures |latest| == 0 ==> ConsensusScore(latest) == 0.0
    ensures |latest| > 0 ==> 0.0 < ConsensusScore(latest) <= 1.0
  {
    if |latest| > 0 {
      BestBounds(latest);
      RatioAtLeastOne(Best(latest), |latest|);
    }
  }

  ghost predicate Unanimous(latest: map<string, string>)
  {
    forall s, t :: s in latest && t in latest ==> latest[s] == latest[t]
  }

  lemma FullSupportUnanimous(latest: map<string, string>)
    requires |latest| > 0 && Best(latest) == |latest|
    ensures Unanimous(latest)
  {
    var s := BestAttained(latest);
    SubsetSameCardEqual(Agreeing(latest, latest[s]), latest.Keys);
    forall u | u in latest ensures latest[u] == latest[s] {
      assert u in Agreeing(latest, latest[s]);
    }
  }

  lemma UnanimousFullSupport(latest: map<string, string>)
    requires |latest| > 0 && Unanimous(latest)
    ensures Best(latest) == |latest|
  {
    var s := BestAttained(latest);
    assert Agreeing(latest, latest[s]) == latest.Keys;
    BestBounds(latest);
  }

  /** Consensus reaches 1.0 exactly when there are systems and all their latest outputs agree. */
  lemma ConvergedIffUnanimous(latest: map<string, string>)
    ensures ConsensusScore(latest) >= 1.0 <==> |latest| > 0 && Unanimous(latest)
  {
    if |latest| > 0 {
      BestBounds(latest);
      RatioAtLeastOne(Best(latest), |latest|);
      if Best(latest) == |latest| {
        FullSupportUnanimous(latest);
      }
      if Unanimous(latest) {
        UnanimousFullSupport(latest);
      }
    }
  }

  /** Moving one system from `todo` to the done part adds it to the agreeing group of its output only. */
  lemma AgreeingStep(latest: map<string, string>, todo: set<string>, s: string, o: string)
    requires s in todo
    ensures |Agreeing(latest, o) - (todo - {s})| ==
            |Agreeing(latest, o) - todo| + (if s in latest && latest[s] == o then 1 else 0)
  {
    if s in latest && latest[s] == o {
      assert Agreeing(latest, o) - (todo - {s}) == (Agreeing(latest, o) - todo) + {s};
    } else {
      assert Agreeing(latest, o) - (todo - {s}) == Agreeing(latest, o) - todo;
    }
  }

  function CountOf(counts: map<string, nat>, o: string): nat
  {
    if o in counts then counts[o] else 0
  }

  /** The largest of the per-output counts is `Best`. */
  lemma MaxCountIsBest(latest: map<string, string>, counts: map<string, nat>, best: nat)
    requires |latest| > 0
    requires forall o :: CountOf(counts, o) == |Agreeing(latest, o)|
    requires forall o :: o in counts ==> counts[o] <= best
    requires best == 0 || exists o :: o in counts && counts[o] == best
    ensures best == Best(latest)
  {
    var s := BestAttained(latest);
    assert CountOf(counts, latest[s]) == Best(latest);
    assert s in Agreeing(latest, latest[s]);
    var o :| o in counts && counts[o] == best;
    assert CountOf(counts, o) == best;
    BestIsMax(latest, o);
  }

  /** `counts` holds, for every output, how many systems outside `todo` have it as latest output. */
  ghost predicate CountsDone(latest: map<string, string>, counts: map<string, nat>, todo: set<string>)
  {
    (forall o :: o in counts ==> counts[o] > 0) &&
    forall o :: CountOf(counts, o) == |Agreeing(latest, o) - todo|
  }

  lemma CountsStart(latest: map<string, string>)
    ensures CountsDone(latest, map[], latest.Keys)
  {
    forall o ensures CountOf(map[], o) == |Agreeing(latest, o) - latest.Keys| {
      assert Agreeing(latest, o) - latest.Keys == {};
    }
  }

  lemma CountsStep(latest: map<string, string>, counts: map<string, nat>, todo: set<string>, s: string)
    requires CountsDone(latest, counts, todo) && s in todo && s in latest
    ensures CountsDone(latest, counts[latest[s] := CountOf(counts, latest[s]) + 1], todo - {s})
  {
    var next := counts[latest[s] := CountOf(counts, latest[s]) + 1];
    forall o ensures CountOf(next, o) == |Agreeing(latest, o) - (todo - {s})| {
      AgreeingStep(latest, todo, s, o);
    }
  }

  lemma CountsEnd(latest: map<string, string>, counts: map<string, nat>)
    requires CountsDone(latest, counts, {})
    ensures forall o :: CountOf(counts, o) == |Agreeing(latest, o)|
  {
    forall o ensures CountOf(counts, o) == |Agreeing(latest, o)| {
      assert Agreeing(latest, o) - {} == Agreeing(latest, o);
    }
  }

  /** The body of `consensus()`: count the latest outputs, take the largest count, divide. */
  method CountConsensus(latest: map<string, string>) returns (c: real)
    ensures c == ConsensusScore(latest)
  {
    if |latest| == 0 {
      return 0.0;
    }
    var best := CountBest(latest);
    c := best as real / |latest| as real;
  }

  /** `Counter(latest.values())` followed by `max(counts.values())`. */
  method CountBest(latest: map<string, string>) returns (best: nat)
    requires |latest| > 0
    ensures best == Best(latest)
  {
    var counts: map<string, nat> := map[];
    var todo := latest.Keys;
    CountsStart(latest);
    while todo != {}
      invariant todo <= latest.Keys
      invariant CountsDone(latest, counts, todo)
      decreases |todo|
    {
      var s :| s in todo;
      CountsStep(latest, counts, todo, s);
      counts := counts[latest[s] := CountOf(counts, latest[s]) + 1];
      todo := todo - {s};
    }
    CountsEnd(latest, counts);
    best := 0;
    var rest := counts.Keys;
    while rest != {}
      invariant rest <= counts.Keys
      invariant forall o :: o in counts && o !in rest ==> counts[o] <= best
      invariant best == 0 || exists o :: o in counts && counts[o] == best
      decreases |rest|
    {
      var o :| o in rest;
      if counts[o] > best {
        best := counts[o];
      }
      rest := rest - {o};
    }
    MaxCountIsBest(latest, counts, best);
  }

  class CrossSystemConsensus {
    /** `_outputs`: every output each system has registered, oldest first. */
    var outputs: map<string, seq<string>>

    /** Only `register` adds entries, and always with an output, so no list is empty. */
    ghost predicate Valid()
      reads this
    {
      forall s :: s in outputs ==> |outputs[s]| > 0
    }

    constructor ()
      ensures Valid() && outputs == map[]
    {
      outputs := map[];
    }

    /** `register`: `setdefault(system, []).append(output)`. */
    method Register(system: string, output: string)
      modifies this
      ensures outputs == old(outputs)[system := (if system in old(outputs) then old(outputs)[system] else []) + [output]]
      ensures old(Valid()) ==> Valid()
      ensures LatestOutputs() == old(LatestOutputs())[system := output]
    {
      var previous := if system in outputs then outputs[system] else [];
      LatestOfAppend(outputs, system, previous + [output]);
      outputs := outputs[system := previous + [output]];
    }

    /** `latest_outputs`: one entry per registered system, its most recent output. */
    function LatestOutputs(): (latest: map<string, string>)
      reads this
      ensures Valid() ==> latest.Keys == outputs.Keys
      ensures forall s :: s in latest ==> s in outputs && |outputs[s]| > 0 && latest[s] == outputs[s][|outputs[s]| - 1]
    {
      LatestOf(outputs)
    }

    /** `consensus`. */
    method Consensus() returns (c: real)
      ensures c == ConsensusScore(LatestOutputs())
    {
      c := CountConsensus(LatestOutputs());
    }

    /** `has_converged`: consensus meets or exceeds the threshold. */
    method HasConverged(threshold: real := 1.0) returns (converged: bool)
      ensures converged <==> ConsensusScore(LatestOutputs()) >= threshold
    {
      var c := Consensus();
      converged := c >= threshold;
    }

    /** `reset`: forget every output. */
    method Reset()
      modifies this
      ensures Valid() && outputs == map[]
    {
      outputs := map[];
    }
  }

  lemma TwoOfThreeScore(latest: map<string, string>)
    requires latest == map["sys1" := "a", "sys2" := "a", "sys3" := "b"]
    ensures ConsensusScore(latest) == 2.0 / 3.0
  {
    assert latest.Keys == {"sys1", "sys2", "sys3"};
    assert |latest| == 3;
    assert Agreeing(latest, "a") == {"sys1", "sys2"};
    assert Agreeing(latest, "b") == {"sys3"};
    BestIsMax(latest, "a");
    var s := BestAttained(latest);
    assert Best(latest) == 2;
  }

  /**
   * Two of three systems agree: consensus 2/3, not converged at the default
   * threshold 1.0, converged at 0.5; after `reset` consensus is 0.0.
   */
  method TwoOfThreeScenario() returns (score: real, atDefault: bool, atHalf: bool, afterReset: real)
    ensures score == 2.0 / 3.0
    ensures !atDefault && atHalf
    ensures afterReset == 0.0
  {
    var consensus := new CrossSystemConsensus();
    consensus.Register("sys1", "a");
    consensus.Register("sys2", "a");
    consensus.Register("sys3", "b");
    assert consensus.LatestOutputs() == map["sys1" := "a", "sys2" := "a", "sys3" := "b"];
    TwoOfThreeScore(consensus.LatestOutputs());
    score := consensus.Consensus();
    atDefault := consensus.HasConverged();
    atHalf := consensus.HasConverged(0.5);
    consensus.Reset();
    afterReset := consensus.Consensus();
  }
}
