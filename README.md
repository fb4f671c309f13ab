# Identity-experiment utilities, modelled in Dafny

This project models the computational core of a small toolkit of heuristic
"AI identity" utilities, in both its Python package and its browser page, and
proves properties about that model:

- **Anchor detection**: observations that occur more than once are anchors.
  They are added to a process-wide anchor store and returned ranked by
  `count * weight`, highest first, with ties broken by string order.
- **Epistemic tension** `xi`: the distance between two state vectors, either
  `l2` or `cosine`. It has three error cases: the lengths differ, a vector has
  zero norm under `cosine`, or the metric is unknown.
- **Coherence**: a running-sum fold. Each value is `1 / (1 + cumulative ξ)`,
  and negative ξ values are refused.
- **Cross-system consensus**: each system's outputs over time. The consensus
  is the fraction of systems whose latest outputs agree on the most common
  output. There is a threshold test and a reset.
- **Memory**: a key/value memory store, and a chat history that saves every
  message in the store under its position.
- **Refusal counting**: a response counts as a refusal when its lower-cased
  text contains one of three fixed phrases. Each response counts at most once.
- **The xi mapping**: a copy of a mapping with its keys in sorted order.
- **The sabotage event logger**: an append-only list of events.
- **Anchor similarity**: the Jaccard index of the anchor sets of two
  whitespace-separated observation strings.
- **The JavaScript duplicates in `web/app.js`**:
  - comma-separated anchor parsing, with the `weights[a] || 1` fallback;
  - the uint32 token hash of `embedSentence` and its bucket counts;
  - `xi` written as `reduce` folds;
  - the coherence fold;
  - the consensus, memory and chat classes with string object keys.
  The model proves where the page and the Python package agree. It also shows
  inputs where they do not: a weight of 0, which `|| 1` replaces by 1, and
  observations or outputs that name an `Object.prototype` member, such as
  `"constructor"` or `"toString"`, which the page's `counts` object miscounts.
  A third difference is shown but not modelled in the ranking: the page breaks
  score ties by UTF-16 code units and Python by code points.

How the model is built:

- **State in classes.** State that the source updates in place is a Dafny
  `class`: the anchor store, the consensus tracker, the memory store, the chat
  history and the logger. Their methods carry `modifies` clauses and state the
  whole new state.
- **Loops as methods.** The loops that accumulate a value are `method`s
  proved against a specification function: the observation counting loop,
  the coherence folds, the consensus count and maximum, the refusal scan with
  `break`, the page's hash loop and its bucket counting. Properties are then
  proved as lemmas about those functions. Comprehensions, and loops that only
  collect, are written as the value they build: `latest_outputs` (a dict
  comprehension) and the page's `for...of` loop in `latestOutputs` are the map
  comprehension `CrossSystem.LatestOf`, and `anchors.forEach(a =>
  anchorStore.add(a))` is a set union in `WebAnchors.JsAnchorStore.DetectAnchors`.
- **Numbers.** Floating-point values are exact `real`s. The square root is a
  parameter `sqrt`. Lemmas that need it to behave like a root assume either
  `IsRoot` (non-negative, and zero exactly at zero) or `IsExactRoot`.
- **Sorting.** Both Python `sorted` with the key `(-score, str)` and the
  page's comparator sort are modelled by `Ordering.SortSet`. It orders a set
  under a strict total order, and a strictly sorted sequence with given
  elements is unique (`Ordering.SortedUnique`).
- **The xi mapping's result** is the sequence of its entries, which is the
  order a Python dict keeps.
- **Test scenarios** from the repository's tests are parameterless methods or
  lemmas. Their `ensures` state what the test observes.

About the anchor store:

- `detect_anchors` adds to the store without validating its input.
- No lock is taken around the store.
- `get_anchor_store` returns a copy of the store. Here that copy is a value.

## Model

| member | source | states |
|---|---|---|
| `AnchorDetection.CountsOf` | ai_identity/anchor_detection.py:50-52 | the `counts` dict: its keys are exactly the observations, and every count lies between 1 and the number of observations |
| `AnchorDetection.CountsOfSnoc` | ai_identity/anchor_detection.py:51-52 | one more observation raises its count by one, starting from 0 (`counts.get(obs, 0) + 1`) |
| `AnchorDetection.AnchorsOf` | ai_identity/anchor_detection.py:55 | an observation is an anchor exactly when it occurs at two different positions of the input |
| `AnchorDetection.TwoPositionsIsRepeat` | ai_identity/anchor_detection.py:55 | a count above 1 is the same as occurring at two different positions |
| `AnchorDetection.Weight` | ai_identity/anchor_detection.py:61-64 | `(weights or {}).get(anchor, 1)`: 1 without a mapping or without the key, else the mapped weight |
| `AnchorDetection.PyScore` | ai_identity/anchor_detection.py:63-64 | an anchor's score is its count times its weight; an observation without a count scores 0 |
| `AnchorDetection.RankLess` | ai_identity/anchor_detection.py:68 | the key `(-score, str)`: a higher score always comes first, and equal scores are ordered by string order |
| `AnchorDetection.CountObservations` | ai_identity/anchor_detection.py:50-52 | the counting loop yields, for every distinct observation, its number of occurrences in the input (as a multiset count) |
| `AnchorDetection.Ranked` | ai_identity/anchor_detection.py:55-68 | the result holds exactly the observations counted more than once, as many as there are anchors, and is strictly sorted by the key order of `(-count*weight, str)` |
| `AnchorDetection.RankLessIsStrictTotal` | ai_identity/anchor_detection.py:66-68 | the sort key order is irreflexive, transitive and total for any score, so the ranking is fully determined |
| `AnchorDetection.PyScoreIsScoreOf` | ai_identity/anchor_detection.py:63-64 | an observation's score is its number of occurrences times its weight, where the weight is 1 without a mapping, and 1 for a key missing from the mapping |
| `AnchorDetection.RankedIsSortedAnchors` | ai_identity/anchor_detection.py:55-68 | every element of the result occurs more than once in the input, and every repeated observation is in it; there are no duplicates; each anchor precedes every later one by a higher count*weight, or by an equal score and a smaller string |
| `AnchorDetection.NoRepeatsNoAnchors` | ai_identity/anchor_detection.py:55-58 | without repeated observations there are no anchors and the result is empty, so the store gains nothing |
| `AnchorDetection.RepeatedItemsExample` | tests/test_anchor_detection.py:3-5 | `['a','b','a','c','b']` has the anchors `{'a','b'}` |
| `AnchorDetection.WeightedRankingExample` | ai_identity/anchor_detection.py:61-68 | with weights a=2, b=1 and c missing, and counts a=2, b=3, c=2, the ranking is `['a','b','c']` |
| `AnchorDetection.AnchorStore.constructor` | ai_identity/anchor_detection.py:16 | the store starts empty |
| `AnchorDetection.AnchorStore.Clear` | ai_identity/anchor_detection.py:19-22 | the store is empty afterwards |
| `AnchorDetection.AnchorStore.Snapshot` | ai_identity/anchor_detection.py:25-28 | returns a set equal to the store and changes nothing |
| `AnchorDetection.AnchorStore.DetectAnchors` | ai_identity/anchor_detection.py:31-68 | the new store is the old store united with the anchors of the input, and the result is `Ranked(observations, weights)` |
| `AnchorDetection.DetectTwice` | ai_identity/anchor_detection.py:58 | two identical calls on a fresh store give the same ranking, and the store after the second equals the store after the first (the anchors) |
| `Ordering.SortSet` | ai_identity/anchor_detection.py:68 | the result has the elements of the set, one each, strictly increasing under the given strict total order |
| `Ordering.SortedUnique` | ai_identity/xi_mapping.py:10 | two strictly sorted sequences with the same elements are equal, so a sort over a strict total order has one answer |
| `Ordering.SortSetAgree` | web/app.js:21-25 | two orders that agree on the elements of a set sort it identically |
| `Ordering.StrLtIsStrictTotal` | ai_identity/xi_mapping.py:10 | lexicographic string order is a strict total order |
| `EpistemicTension.SumSquaredDiff` | ai_identity/epistemic_tension.py:53 | the sum of squared differences is never negative |
| `EpistemicTension.SumSquares` | ai_identity/epistemic_tension.py:57-58 | a sum of squares is never negative |
| `EpistemicTension.Dot` | ai_identity/epistemic_tension.py:56 | `sum(a * b for a, b in zip(...))`: a vector's dot product with itself is its sum of squares, and a zero vector's dot product is 0 |
| `EpistemicTension.CosineDistance` | ai_identity/epistemic_tension.py:59-61 | fails with the degenerate-vector error exactly when a norm is zero; otherwise the result times `norm_a*norm_b` is `norm_a*norm_b - dot` |
| `EpistemicTension.Xi` | ai_identity/epistemic_tension.py:49-63 | unequal lengths fail with the dimension error for every metric; an unknown metric fails with the unsupported-metric error; given a square root that is non-negative and zero only at zero, `l2` succeeds with a non-negative value; `cosine` fails exactly when a vector's sum of squares is zero, and then only with the degenerate-vector error |
| `EpistemicTension.Tension` | ai_identity/epistemic_tension.py:66-75 | `epistemic_tension(a, b, metric=m)` equals `xi(a, b, metric=m)` |
| `EpistemicTension.L2OfIdentical` | ai_identity/epistemic_tension.py:52-53 | identical vectors are at `l2` distance 0 |
| `EpistemicTension.L2Example` | tests/test_epistemic_tension.py:10-12 | `xi([0,0],[3,4]) == 5`, also through the wrapper |
| `EpistemicTension.CosineExamples` | tests/test_epistemic_tension.py:15-18 | cosine distance is 0 for identical and 1 for orthogonal unit vectors |
| `EpistemicTension.Total` | ai_identity/epistemic_tension.py:97-101 | the cumulative sum of a non-negative series is non-negative |
| `EpistemicTension.XiSeriesToCoherence` | ai_identity/epistemic_tension.py:96-103 | succeeds exactly when no value is negative, and then returns one score per input, element k being `1/(1 + first k+1 values)`; otherwise the negative-tension error |
| `EpistemicTension.Coherence` | ai_identity/epistemic_tension.py:96-103 | one score per value of the series |
| `EpistemicTension.CoherenceBounds` | ai_identity/epistemic_tension.py:101-102 | for non-negative input every score lies in (0, 1] |
| `EpistemicTension.CoherenceNonIncreasing` | ai_identity/epistemic_tension.py:98-102 | for non-negative input the scores never increase along the series |
| `EpistemicTension.CoherenceShortSeries` | ai_identity/epistemic_tension.py:96-103 | an empty series gives `[]`; a single x gives `[1/(1+x)]` |
| `EpistemicTension.CoherenceOfTwo` | tests/test_epistemic_tension.py:32-40 | two values x, y give `[1/(1+x), 1/(1+x+y)]` |
| `CrossSystem.BestOver` | ai_identity/cross_system.py:31 | the value bounds from above how many systems share each system's latest output, and is attained by one of them when there are any |
| `CrossSystem.LatestOf` | ai_identity/cross_system.py:19-21 | the comprehension keeps exactly the systems with a non-empty list, each mapped to its last output, so there are at most as many as registered systems |
| `CrossSystem.LatestOfAppend` | ai_identity/cross_system.py:17-21 | appending an output to one system's list makes it that system's latest output and changes no other system's |
| `CrossSystem.ConsensusScore` | ai_identity/cross_system.py:23-32 | what `consensus()` returns: 0.0 without systems, otherwise in (0, 1] |
| `CrossSystem.CountBest` | ai_identity/cross_system.py:29-31 | the count loop and the maximum loop return the largest number of systems that share one latest output |
| `CrossSystem.BestBounds` | ai_identity/cross_system.py:31 | with systems, the largest agreement is between 1 and the number of systems |
| `CrossSystem.CountConsensus` | ai_identity/cross_system.py:25-32 | the count-then-maximum loops return 0.0 without systems, and otherwise the largest agreement divided by the number of systems |
| `CrossSystem.ConsensusRange` | ai_identity/cross_system.py:26-32 | consensus is 0.0 without systems and in (0, 1] otherwise |
| `CrossSystem.ConvergedIffUnanimous` | ai_identity/cross_system.py:34-36 | consensus reaches 1.0 exactly when there are systems and all their latest outputs are equal |
| `CrossSystem.CrossSystemConsensus.constructor` | ai_identity/cross_system.py:12-13 | no outputs, and the non-empty-lists invariant holds |
| `CrossSystem.CrossSystemConsensus.Register` | ai_identity/cross_system.py:15-17 | appends the output to the system's list, creating it if needed; keeps every list non-empty; the latest outputs become the old ones with this system mapped to this output |
| `CrossSystem.CrossSystemConsensus.LatestOutputs` | ai_identity/cross_system.py:19-21 | under the invariant there is one entry per registered system, and each is the last element of that system's list |
| `CrossSystem.CrossSystemConsensus.Consensus` | ai_identity/cross_system.py:23-32 | returns the consensus score of the latest outputs |
| `CrossSystem.CrossSystemConsensus.HasConverged` | ai_identity/cross_system.py:34-36 | true exactly when the consensus score is at least the threshold (default 1.0) |
| `CrossSystem.CrossSystemConsensus.Reset` | ai_identity/cross_system.py:38-40 | no outputs remain |
| `CrossSystem.TwoOfThreeScore` | tests/test_cross_system.py:12-13 | latest outputs a, a, b give consensus 2/3 |
| `CrossSystem.TwoOfThreeScenario` | tests/test_cross_system.py:5-15 | registering a, a, b gives 2/3, not converged at 1.0, converged at 0.5, and 0.0 after reset |
| `Memory.Lookup` | ai_identity/memory.py:15-17 | the stored value when the key is present, the default otherwise |
| `Memory.LookupAfterSave` | ai_identity/memory.py:11-17 | after saving v under k, k recalls v and every other key recalls what it did before |
| `Memory.MemoryStore.constructor` | ai_identity/memory.py:8-9 | the store starts empty |
| `Memory.MemoryStore.Save` | ai_identity/memory.py:11-13 | the new store is the old one with the key mapped to the value, which is then recalled |
| `Memory.MemoryStore.Recall` | ai_identity/memory.py:15-17 | the stored value, or the given default (None by default) |
| `Memory.MemoryStore.Clear` | ai_identity/memory.py:19-21 | the store is empty and every recall returns its default |
| `Memory.ChatHistory.constructor` | ai_identity/memory.py:27-29 | uses the given store or a fresh empty one, with an empty buffer |
| `Memory.ChatHistory.AddMessage` | ai_identity/memory.py:31-34 | appends to the buffer and saves the message under its index `len-1`; other indices recall as before |
| `Memory.ChatHistory.History` | ai_identity/memory.py:36-38 | returns the buffer and changes nothing |
| `Memory.ChatHistory.Recall` | ai_identity/memory.py:40-42 | whatever the shared store holds under the index, or None |
| `Memory.ContextBreak` | tests/test_memory.py:4-14 | a new history over the same store recalls "hello" and "world" by index while its own history is empty |
| `Memory.SharedStoreOverwrite` | ai_identity/memory.py:31-34 | positions restart at 0 per history, so a second history on a shared store overwrites index 0 for the first, whose buffer is unchanged |
| `RefusalCounts.IsRefusal` | scripts/refusal_counts.py:10-14 | a response is a refusal exactly when some phrase of `REFUSAL_PHRASES` is contained in `response.lower()` |
| `RefusalCounts.RefusalCount` | scripts/refusal_counts.py:7-15 | the number of refusing responses is at most the number of responses |
| `RefusalCounts.CountRefusals` | scripts/refusal_counts.py:7-15 | the nested loop with `break` returns the number of refusing responses |
| `RefusalCounts.RefusalCountIsIndexCount` | scripts/refusal_counts.py:9-14 | the count equals the number of positions whose lower-cased response contains some phrase |
| `RefusalCounts.RefusalCountAppend` | scripts/refusal_counts.py:9-14 | the count of a concatenation is the sum of the counts |
| `RefusalCounts.RefusalCountIgnoresCase` | scripts/refusal_counts.py:10 | lower-casing the responses first changes no count |
| `RefusalCounts.CountExample` | scripts/refusal_counts.py:4-14 | "I REFUSE" counts, "ok" does not, and a response with two phrases counts once: total 2 |
| `Text.Contains` | scripts/refusal_counts.py:12 | `p in s` holds exactly when p occurs at some position of s |
| `Text.Lower` | scripts/refusal_counts.py:10 | same length, each character lower-cased (ASCII letters) |
| `Text.LowerIdempotent` | scripts/refusal_counts.py:10 | lower-casing twice is lower-casing once |
| `XiMapping.XiMap` | ai_identity/xi_mapping.py:4-10 | the result has exactly the input's keys, each with the input's value, in strictly ascending key order |
| `XiMapping.ToMap` | ai_identity/xi_mapping.py:10 | the dict built from a list of entries has exactly the listed keys |
| `XiMapping.ToMapContents` | ai_identity/xi_mapping.py:10 | building a dict from entries with distinct keys holds exactly those entries |
| `XiMapping.XiMapRoundTrip` | ai_identity/xi_mapping.py:10 | the dict built from the result equals the input mapping |
| `XiMapping.XiMapUnique` | ai_identity/xi_mapping.py:10 | any entry list with strictly ascending keys and the input's entries is the result |
| `XiMapping.XiMapExample` | tests/test_xi_mapping.py:6-16 | `{'c':3,'b':2,'a':1}` comes out in the order a, b, c |
| `SabotageLogs.SabotageLogger.constructor` | ai_identity/sabotage_logs.py:5-8 | a new logger's events are the given list, empty by default |
| `SabotageLogs.SabotageLogger.Log` | ai_identity/sabotage_logs.py:10-12 | the events become the old events followed by the new one |
| `SabotageLogs.LogAll` | tests/test_sabotage_logs.py:4-9 | a scenario method, not a loop of the source: it generalises the test's two `log` calls to any batch, and logging them one by one appends exactly that batch, in order |
| `SabotageLogs.LogsInOrder` | tests/test_sabotage_logs.py:4-9 | logging "anomaly" then "intrusion" gives exactly that list |
| `SabotageLogs.LoggersAreIsolated` | tests/test_sabotage_logs.py:12-17 | logging to one logger leaves another's events empty |
| `AnchorSimilarity.ParseObs` | scripts/anchor_similarity.py:6-7 | splits into non-empty words that contain no whitespace; which words, and in which order, is `Text.Words`, characterised by the three `Words` lemmas below |
| `Text.Words` | scripts/anchor_similarity.py:7 | every word is non-empty and contains no whitespace |
| `Text.WordsSkipsSpaces` | scripts/anchor_similarity.py:7 | whitespace in front of a text does not change its words |
| `Text.WordsCons` | scripts/anchor_similarity.py:7 | a word followed by whitespace or by the end of the text is the first word, and the rest is split as before: `(w + t).split() == [w] + t.split()` |
| `Text.WordsOfWord` | scripts/anchor_similarity.py:7 | a non-empty text without whitespace is one word |
| `Text.WordsSplitsAtSpaces` | scripts/anchor_similarity.py:7 | a word, a run of whitespace and a rest: `(w + sp + t).split() == [w] + t.split()` |
| `Text.WordsOfJoin` | scripts/anchor_similarity.py:6-7 | words joined with single spaces `split()` back to themselves |
| `AnchorSimilarity.Jaccard` | scripts/anchor_similarity.py:15-16 | the score lies in [0, 1] and is 1.0 exactly when the two anchor sets are equal (including both empty) |
| `AnchorSimilarity.JaccardSymmetric` | scripts/anchor_similarity.py:15-16 | the score does not depend on the order of the two sets |
| `AnchorSimilarity.RankedAsSet` | scripts/anchor_similarity.py:13-14 | `set(detect_anchors(obs))` is the set of anchors of obs |
| `AnchorSimilarity.AnchorSimilarityMain` | scripts/anchor_similarity.py:10-17 | fewer than three arguments give the usage error and leave the store alone; otherwise the result is the Jaccard score of the two anchor sets and both are added to the store |
| `Text.Split` | web/app.js:11 | at least one piece, and no piece contains the separator |
| `Text.JoinSplit` | web/app.js:11 | joining the pieces with the separator gives back the input |
| `Text.Trim` | web/app.js:11 | the result is the input with only JavaScript whitespace removed at both ends, and does not start or end with whitespace |
| `WebAnchors.TrimAll` | web/app.js:11 | one trimmed item per piece, in place |
| `WebAnchors.KeepNonEmpty` | web/app.js:11 | keeps exactly the non-empty items, each as often as in the input, and changes nothing if none is empty |
| `WebAnchors.KeepNonEmptyAppend` | web/app.js:11 | the filter keeps the order of the items: filtering a concatenation concatenates the filtered parts |
| `WebAnchors.ParseObservations` | web/app.js:11 | every parsed observation is non-empty, free of commas, and trimmed |
| `WebAnchors.ParseJoin` | web/app.js:11 | clean observations joined with commas parse back to themselves |
| `WebAnchors.JsWeight` | web/app.js:20 | `weights[a] \|\| 1` is never 0: it equals Python's `weights.get(a, 1)` whenever that is not 0, and is 1 when it is 0 |
| `WebAnchors.JsScore` | web/app.js:20 | `counts[a] * (weights[a] \|\| 1)`, 0 for an observation without a count, and equal to the Python score wherever the Python weight is not 0 |
| `WebAnchors.JsAnchorsOf` | web/app.js:12-14 | `Object.keys(counts).filter(o => counts[o] > 1)`: a subset of the Python anchors, each occurring at two positions and none an `Object.prototype` name; equal to the Python anchors when no observation is such a name |
| `WebAnchors.JsRanked` | web/app.js:12-25 | exactly the observations counted more than once that are not `Object.prototype` names, as many as there are such anchors, sorted by descending `count * (weight \|\| 1)` and then ascending string order |
| `WebAnchors.JsRankedMatchesPython` | web/app.js:12-25 | when no anchor is an `Object.prototype` name and no anchor has weight 0, the page's ranking, with ties broken by code point, equals the Python ranking |
| `WebAnchors.TieOrderDiffers` | web/app.js:24 | U+FF61 precedes U+10000 by code point, but the first UTF-16 code unit of U+10000 (0xD800) is below 0xFF61, so the page's `a < b` orders them the other way |
| `WebAnchors.InheritedNameDiffers` | web/app.js:12-14 | `"constructor,constructor"` parses to two observations; Python returns `['constructor']`, the page returns `[]` |
| `WebAnchors.ZeroWeightDiffers` | web/app.js:20 | `"a,a,b,b"` with weight 0 on a: Python returns `['b','a']`, the page returns `['a','b']` |
| `WebAnchors.JsAnchorStore.constructor` | web/app.js:9 | the page's store starts empty |
| `WebAnchors.JsAnchorStore.DetectAnchors` | web/app.js:10-26 | the store gains the anchors of the parsed input that are not `Object.prototype` names, and the result is the page's ranking of them |
| `WebEmbedding.Utf16Char` | web/app.js:50-51 | one code unit for a character below U+10000, else a high and low surrogate that encode it |
| `WebEmbedding.Utf16` | web/app.js:50-51 | at least one and at most two code units per character in total: between `|s|` and `2*|s|` |
| `WebEmbedding.HashOf` | web/app.js:49-52 | the hash stays below 2^32 |
| `WebEmbedding.HashIsPolyMod` | web/app.js:49-52 | the hash is the polynomial sum of the code units in base 31, reduced modulo 2^32 |
| `WebEmbedding.TokenHash` | web/app.js:49-52 | the loop computes the hash of the token's UTF-16 code units, which is below 2^32 |
| `WebEmbedding.Bucket` | web/app.js:53 | the bucket index is below `dim` when `dim > 0` |
| `WebEmbedding.BucketsOf` | web/app.js:46-55 | the vector `vec` after counting every token: `dim` counts |
| `WebEmbedding.BucketsCountEveryToken` | web/app.js:46-55 | the bucket counts add up to the number of tokens |
| `WebEmbedding.CountBuckets` | web/app.js:46-55 | a fresh array of `dim` counts equal to the bucket counts of the tokens |
| `WebTension.ReduceSquaredDiff` | web/app.js:90 | the fold never ends below its starting accumulator, and adds nothing for identical vectors |
| `WebTension.ReduceDot` | web/app.js:93 | the fold of a vector with itself is its fold of squares |
| `WebTension.ReduceSquares` | web/app.js:94-95 | the fold never ends below its starting accumulator |
| `WebTension.ReduceSquaredDiffIsSum` | web/app.js:90 | the left `reduce` of squared differences equals the Python sum |
| `WebTension.ReduceDotIsSum` | web/app.js:93 | the left `reduce` of products equals the Python dot product |
| `WebTension.ReduceSquaresIsSum` | web/app.js:94-95 | the left `reduce` of squares equals the Python sum of squares |
| `WebTension.JsXi` | web/app.js:83-102 | unequal lengths and unknown metrics throw the same errors as in Python |
| `WebTension.JsXiMatchesPython` | web/app.js:83-102 | on the same parsed vectors the page's `xi` equals the Python `xi`, result and error alike |
| `WebTension.JsEpistemicTension` | web/app.js:103-105 | the page's wrapper equals the Python `epistemic_tension` |
| `WebTension.JsXiSeriesToCoherence` | web/app.js:106-116 | throws exactly when a value is negative; otherwise one score `1/(1+cumulative)` per value |
| `WebState.Counted` | web/app.js:136-137 | the latest outputs that get an own property in `counts`: all except `"__proto__"`, and no more than there are systems |
| `WebState.JsConsensusScore` | web/app.js:132-140 | what the page's `consensus()` returns: `Finite(0.0)` exactly when there are no systems, and a finite value always lies in [0, 1] |
| `WebState.JsCrossSystemConsensus.constructor` | web/app.js:120 | no outputs |
| `WebState.JsCrossSystemConsensus.Register` | web/app.js:121-124 | appends to the system's list, creating it first; keeps every list non-empty; the system's latest output becomes this one and no other changes |
| `WebState.JsCrossSystemConsensus.LatestOutputs` | web/app.js:125-131 | one entry per system with outputs, each the last of its list |
| `WebState.JsCrossSystemConsensus.Consensus` | web/app.js:132-140 | the page's consensus as a JavaScript number: 0.0 exactly when there are no systems; `NaN` when an output is an inherited name other than `"__proto__"`; `-Infinity` when every output is `"__proto__"`; otherwise the best agreement among the counted outputs over the number of systems, in [0, 1] |
| `WebState.JsCrossSystemConsensus.HasConverged` | web/app.js:141-143 | true exactly when the consensus is a number at least the threshold; never for `NaN` or `-Infinity` |
| `WebState.JsConsensusMatchesPython` | web/app.js:132-140 | when no latest output is an `Object.prototype` name, the page's consensus is the Python consensus score |
| `WebState.InheritedOutputIsNaN` | web/app.js:137-138 | one output such as `"toString"` makes the consensus `NaN`, which reaches no threshold |
| `WebState.InheritedOutputScenario` | web/app.js:119-143 | one system answering `"toString"`: the page reports `NaN` and no convergence, where Python reports 1.0 |
| `WebState.JsMemoryStore.constructor` | web/app.js:149 | the store starts empty |
| `WebState.JsMemoryStore.Save` | web/app.js:150 | the key now maps to the value, which is recalled |
| `WebState.JsMemoryStore.Recall` | web/app.js:151 | own property value, else the default (null by default) |
| `WebState.JsMemoryStore.Clear` | web/app.js:152 | empty store; every recall returns its default |
| `WebState.JsChatHistory.constructor` | web/app.js:155-158 | the given store or a fresh empty one, with an empty buffer |
| `WebState.JsChatHistory.AddMessage` | web/app.js:159-162 | appends and saves under the decimal text of `length-1`; every other index recalls as before, since distinct integers have distinct decimal keys |
| `WebState.JsChatHistory.History` | web/app.js:163 | a copy equal to the buffer |
| `WebState.JsChatHistory.Recall` | web/app.js:164 | the value stored under the decimal key of the index, or null |
| `WebState.RecallUnknownIndex` | web/app.js:151-164 | a saved index recalls its message; an index nothing was saved under recalls null |
| `Text.IntToDecimal` | web/app.js:161 | `String(n)` for an integer: at least one character, a leading `-` exactly for negative numbers, and digits everywhere else |
| `Text.IntToDecimalInjective` | web/app.js:161 | distinct integers have distinct `String(n)` keys |

## Left out

- `ai_identity/mirror_test.py` is not part of this model. It depends on SHA-256 hashing and on floating-point norms and dot products.
- `ai_identity/psi_to_phi.py` and `psiToPhi` in the page are not modelled. They only evaluate a floating-point cubic.
- The page's DOM bindings are not modelled: they are user interface only. `JSON.parse` of weights and data, `parseFloat` with its `NaN` filter, and `parseInt` of the chat index are not modelled either. The model starts from the parsed values.
- The floating-point part of `embedSentence` is not modelled: `normalize`, `dot` and `mirrorScore`. Only its integer hash and bucket counting are.
- The page's `SabotageLogger` is not modelled separately: it is the Python logger again.
- The page's `xiMap` is not modelled. Its keys are sorted by `.sort()`, which compares UTF-16 code units, and are then stored in a new object. That object enumerates integer-like keys first, in ascending numeric order, so `{"b":1,"10":2,"9":3}` is sorted to `"10","9","b"` but enumerates as `9, 10, b`. Its output order is therefore not a sort, and `XiMapping.XiMap` does not describe it.
- `scripts/compute_xi.py`, `scripts/coherence_scalar.py`, `ai_identity/__init__.py` and `tests/conftest.py` are not modelled. They only parse arguments, print, re-export names or set up paths.
- Floating point: all numbers are exact reals. IEEE rounding is not modelled. `NaN` and `-Infinity` appear only where the page's consensus produces them, as `JsObjects.JsNumber`. A `pytest.approx` check becomes an exact equality on reals.
- EpistemicTension.Xi: the square root is an abstract parameter. The cosine distance is not shown to lie in [0, 2]; that would need the Cauchy–Schwarz inequality.
- RefusalCounts.RefusalCount: `str.lower()` is modelled on ASCII letters only. Unicode case mapping is not modelled.
- WebAnchors.JsRanked: strings are compared by Unicode code point. JavaScript compares strings by UTF-16 code unit. The two orders differ exactly when two strings first differ at a character above U+FFFF against one in U+E000–U+FFFF.
- WebAnchors.JsRankedMatchesPython: the agreement is proved for the model's code-point tie order. On the page it also needs that no two tied anchors first differ at a character above U+FFFF against one in U+E000–U+FFFF. For `"\uFF61,\uFF61,\u{10000},\u{10000}"` Python returns `["\uFF61", "\U00010000"]` and the page returns `["\u{10000}", "\uFF61"]` (see `WebAnchors.TieOrderDiffers`). `Object.keys` order is also not modelled, because the comparator fixes the result anyway.
- WebAnchors.JsAnchorStore.DetectAnchors: weights are always a map of reals. On the page, `JSON.parse(weightsStr)` can yield a non-object such as `null`. Then `weights[a]` throws inside the sort comparator as soon as there are two or more anchors. The model does not have that error.
- WebAnchors.JsRanked: a weight that parses to a non-number, such as a string or `NaN`, is not modelled. Weights are reals.
- WebEmbedding.CountBuckets: requires `dim > 0`. The page always passes a positive dimension (`selfVec.length || 32`), and a zero dimension would index the array with `NaN`.
- WebEmbedding.CountBuckets: the tokenisation `toLowerCase().split(/\s+/).filter(Boolean)` is not modelled. The method takes the tokens as given.
- WebState.JsCrossSystemConsensus.Register: system names that are inherited `Object.prototype` properties, such as `"constructor"`, are not modelled. For those the page's truthiness test finds an inherited value and `push` throws. Inherited names as outputs are modelled, in `Consensus`.
- WebState.JsMemoryStore.Save: keys that are `Object.prototype` names are stored like any other key. On the page, a key `"__proto__"` goes to the prototype setter, so it gets no own property and `recall` returns the default. A value saved under `"hasOwnProperty"` shadows the method that `recall` calls, so later recalls throw.
- SabotageLogs.SabotageLogger.constructor: the Python dataclass keeps a reference to the list it is given, so a caller that later changes that list changes the logger's events. The model copies the list as a value, so that aliasing is not modelled.
- AnchorDetection.Ranked: observations and weight keys are strings, so `str(a)` is the identity. Other hashable Python values, and a falsy custom mapping passed as weights, are not modelled.
- Memory.MemoryStore.Recall: keys are of one equality type and values of one type each. This stands in for Python's `Any`.
- The store is process-wide but single-threaded. No concurrency or locking exists in the code, so none is modelled.
