/**
 * The stateful classes of the browser page (web/app.js): `CrossSystemConsensus`
 * (without `reset`), `MemoryStore` and `ChatHistory`. Object property keys are
 * strings, so the page's memory store is keyed by strings and a chat message
 * is saved under the decimal text of its position.
 *
 * `consensus()` counts the latest outputs in a plain object, so an output
 * that names an `Object.prototype` member changes its result: one such
 * output (other than `"__proto__"`) makes `Math.max(...)` `NaN`, and
 * `"__proto__"` outputs are never counted, so when every output is
 * `"__proto__"` the maximum of nothing is `-Infinity`.
 */
module WebState {
  import opened Wrappers
  import opened Text
  import opened SetFacts
  import opened CrossSystem
  import opened Memory
  import opened JsObjects

  /** The latest outputs that get an own property in `counts`. */
  function Counted(latest: map<string, string>): (counted: map<string, string>)
    ensures forall s :: s in counted <==> s in latest && latest[s] != "__proto__"
    ensures forall s :: s in counted ==> counted[s] == latest[s]
    ensures |counted| <= |latest|
  {
    var counted := map s | s in latest && latest[s] != "__proto__" :: latest[s];
    SubsetCard(counted.Keys, latest.Keys);
    map s | s in latest && latest[s] != "__proto__" :: latest[s]
  }

  /** What the page's `consensus()` returns, as a JavaScript number. */
  ghost function JsConsensusScore(latest: map<string, string>): (c: JsNumber)
    ensures c == Finite(0.0) <==> |latest| == 0
    ensures c.Finite? ==> 0.0 <= c.value <= 1.0
  {
    if |latest| == 0 then Finite(0.0)
    else if exists s :: s in latest && CountsAsString(latest[s]) then NaN
    else if |Counted(latest)| == 0 then NegativeInfinity
    else
      BestBounds(Counted(latest));
      RatioAtLeastOne(Best(Counted(latest)), |latest|);
      Finite(Best(Counted(latest)) as real / |latest| as real)
  }

  /** Without inherited names among the outputs the page agrees with `consensus()` in Python. */
  lemma JsConsensusMatchesPython(latest: map<string, string>)
    requires forall s :: s in latest ==> latest[s] !in InheritedNames
    ensures JsConsensusScore(latest) == Finite(ConsensusScore(latest))
  {
    assert Counted(latest) == latest;
    if |latest| > 0 {
      var s :| s in latest;
      assert s in Counted(latest);
    }
  }

  /** One system whose output is an inherited name other than `"__proto__"` makes the page's consensus `NaN`. */
  lemma InheritedOutputIsNaN(latest: map<string, string>, s: string)
    requires s in latest && CountsAsString(latest[s])
    ensures JsConsensusScore(latest) == NaN
    ensures forall threshold: real :: !AtLeast(JsConsensusScore(latest), threshold)
  {
  }

  class JsCrossSystemConsensus {
    var outputs: map<string, seq<string>>

    ghost predicate Valid()
      reads this
    {
      forall s :: s in outputs ==> |outputs[s]| > 0
    }

    constructor ()
      ensures Valid() && outputs == map[]
    {
      outputs := map[];
    }

    /** `register`: create the list on first use (`if (!this.outputs[system])`), then push. */
    method Register(system: string, output: string)
      modifies this
      ensures outputs == old(outputs)[system := (if system in old(outputs) then old(outputs)[system] else []) + [output]]
      ensures old(Valid()) ==> Valid()
      ensures LatestOutputs() == old(LatestOutputs())[system := output]
    {
      if system !in outputs {
        outputs := outputs[system := []];
      }
      var list := outputs[system] + [output];
      assert outputs[system := list] == old(outputs)[system := list];
      LatestOfAppend(old(outputs), system, list);
      outputs := outputs[system := list];
    }

    /** `latestOutputs`: the last output of every system whose list is not empty. */
    function LatestOutputs(): (latest: map<string, string>)
      reads this
      ensures Valid() ==> latest.Keys == outputs.Keys
      ensures forall s :: s in latest ==> s in outputs && |outputs[s]| > 0 && latest[s] == outputs[s][|outputs[s]| - 1]
    {
      LatestOf(outputs)
    }

    /** `consensus`: 0.0 without systems, else `Math.max(...counts) / systems.length`. */
    method Consensus() returns (c: JsNumber)
      ensures c == JsConsensusScore(LatestOutputs())
      ensures c == Finite(0.0) <==> |LatestOutputs()| == 0
      ensures c.Finite? ==> 0.0 <= c.value <= 1.0
    {
      var latest := LatestOutputs();
      if |latest| == 0 {
        return Finite(0.0);
      }
      var poisoned := set s | s in latest && CountsAsString(latest[s]);
      if poisoned != {} {
        var s :| s in poisoned;
        return NaN;
      }
      forall s | s in latest
        ensures !CountsAsString(latest[s])
      {
        assert s in poisoned <==> CountsAsString(latest[s]);
      }
      var counted := Counted(latest);
      if |counted| == 0 {
        return NegativeInfinity;
      }
      var best := CountBest(counted);
      c := Finite(best as real / |latest| as real);
    }

    /** `hasConverged`: `consensus() >= threshold`, false for `NaN` and `-Infinity`. */
    method HasConverged(threshold: real := 1.0) returns (converged: bool)
      ensures converged <==> AtLeast(JsConsensusScore(LatestOutputs()), threshold)
    {
      var c := Consensus();
      converged := c.Finite? && c.value >= threshold;
    }
  }

  /**
   * One system answers `"toString"`: the page's consensus is `NaN` and it has
   * not converged, where Python would report 1.0 and convergence.
   */
  method InheritedOutputScenario() returns (score: JsNumber, converged: bool, python: real)
    ensures score == NaN && !converged
    ensures python == 1.0
  {
    var consensus := new JsCrossSystemConsensus();
    consensus.Register("sys1", "toString");
    assert consensus.LatestOutputs() == map["sys1" := "toString"];
    InheritedOutputIsNaN(consensus.LatestOutputs(), "sys1");
    score := consensus.Consensus();
    converged := consensus.HasConverged();
    python := CountConsensus(consensus.LatestOutputs());
    ConsensusRange(consensus.LatestOutputs());
    RatioAtLeastOne(Best(consensus.LatestOutputs()), 1);
    BestBounds(consensus.LatestOutputs());
  }

  /** The page's `MemoryStore`: `recall` answers from own properties only, `null` by default. */
  class JsMemoryStore<V> {
    var store: map<string, V>

    constructor ()
      ensures store == map[]
    {
      store := map[];
    }

    /** `save`: `this.store[key] = value`. */
    method Save(key: string, value: V)
      modifies this
      ensures store == old(store)[key := value]
      ensures Recall(key) == Some(value)
    {
      store := store[key := value];
    }

    /** `recall`: `hasOwnProperty(key) ? this.store[key] : defaultVal`, where `None` is `null`. */
    function Recall(key: string, default: Option<V> := None): (r: Option<V>)
      reads this
      ensures r == Lookup(store, key, default)
    {
      if key in store then Some(store[key]) else default
    }

    /** `clear`: a new empty object. */
    method Clear()
      modifies this
      ensures store == map[]
      ensures forall k, d :: Recall(k, d) == d
    {
      store := map[];
    }
  }

  class JsChatHistory {
    const memory: JsMemoryStore<string>
    /** `historyArr` */
    var buffer: seq<string>

    /** `memory || new MemoryStore()`: the given store, or a fresh one for `null`. */
    constructor (memory: JsMemoryStore?<string>)
      ensures memory != null ==> this.memory == memory
      ensures memory == null ==> fresh(this.memory) && this.memory.store == map[]
      ensures buffer == []
    {
      if memory != null {
        this.memory := memory;
      } else {
        this.memory := new JsMemoryStore();
      }
      buffer := [];
    }

    /** `addMessage`: push, then save under the property `String(length - 1)`. */
    method AddMessage(msg: string)
      modifies this, memory
      ensures buffer == old(buffer) + [msg]
      ensures memory.store == old(memory.store)[IntToDecimal(|old(buffer)|) := msg]
      ensures Recall(|buffer| - 1) == Some(msg)
      ensures forall i :: i != |buffer| - 1 ==> Recall(i) == old(Recall(i))
    {
      buffer := buffer + [msg];
      memory.Save(IntToDecimal(|buffer| - 1), msg);
      forall i | i != |buffer| - 1 ensures IntToDecimal(i) != IntToDecimal(|buffer| - 1) {
        if IntToDecimal(i) == IntToDecimal(|buffer| - 1) {
          IntToDecimalInjective(i, |buffer| - 1);
        }
      }
    }

    /** `history`: a copy of the buffered messages. */
    method History() returns (h: seq<string>)
      ensures h == buffer
    {
      h := buffer;
    }

    /** `recall(index)`: the message saved under `String(index)`, or `null`. */
    function Recall(index: int): (r: Option<string>)
      reads this, memory
      ensures r == Lookup(memory.store, IntToDecimal(index), None)
    {
      memory.Recall(IntToDecimal(index))
    }
  }

  /** A position nothing was saved under recalls `null`; saved positions recall their message. */
  method RecallUnknownIndex() returns (first: Option<string>, unknown: Option<string>, negative: Option<string>)
    ensures first == Some("hello")
    ensures unknown == None && negative == None
  {
    var chat := new JsChatHistory(null);
    chat.AddMessage("hello");
    first := chat.Recall(0);
    unknown := chat.Recall(1);
    negative := chat.Recall(-1);
    assert IntToDecimal(1) != IntToDecimal(0) && IntToDecimal(-1) != IntToDecimal(0);
  }
}
