# RWR recommender: a Dafny model

This project models the core of the random-walk-with-restart recommender in
`JS/src/randomWalk.ts` and `JS/src/randomUtils.ts`:

- the two samplers: uniform pick and cumulative-weight pick;
- `computeMappings`, which indexes the rows of every node type by identifier;
- neighbour selection: `getNeighborRowIndices`, `softmax` and `getNeighborProbabilities`;
- the `rwrvee` walk loop, with its visit counting, random and forced restarts, and uniform and weighted hops;
- the aggregation after the walk: the target neighbourhood, the per-item tallies, the exclusion of items already linked to the target, and the ranking by average.

The walk is written as pure functions.
The seeded generator is replaced by the sequence of draws it would produce, and the walk state records how many draws it has used.
`Walk.Pass` is the loop body: `iteration++`, then `Walk.Step`. `Walk.Loop` drives it with bounded recursion, and `Walk.Iterate` runs a given number of passes.
A JavaScript `Map` is an insertion-ordered association list (module `Assoc`).
The `TypeError`s the walk can hit are `Err` values of `Config.WalkError`.
The caller-supplied strategies (`vectorSimilarity`, `activationFunction`, `neighborFilter`, `itemFilter`) are function-typed parameters.
`Math.exp` is a parameter whose values are all positive.

Modules, one per file:

| module | covers |
|---|---|
| `Wrappers` | `Option`, `Result` |
| `Seqs` | filtering, summing, a stable descending sort, top-k selection |
| `Assoc` | `Map.get` / `Map.set` on insertion-ordered entries |
| `RandomUtils` | `randomUniformItem`, `randomWeightedItem` |
| `Dataset` | rows, cells, node-type configuration, `computeMappings` |
| `Config` | walk configuration, target, errors, input assumptions |
| `Neighbors` | neighbour rows, softmax, neighbour probabilities |
| `Walk` | one loop pass and the loop |
| `Ranking` | neighbourhood, tallies, ranking |
| `Recommender` | `rwrvee` end to end |

Three behaviours of `rwrvee` are easy to misread. The model follows the code in each:

- `while (iteration <= maxIterations)` with a pre-increment runs the body `maxIterations + 1` times, not `maxIterations` times. A negative bound runs it zero times. This is `Walk.RunWalk`.
- The "target has no neighbors" error never fires, because an empty list is not falsy. A seed without neighbour rows picks `undefined`, reads no row, and is restarted. This is `Walk.SeedWithoutNeighborsRestarts`.
- A same-type hop uses two draws, one for the row and one for the node type. So a pass uses up to three draws: the restart check plus the hop.

When the recommendation type has no `ratingColumn`, line 382 reads `row[ratingColumn as string]`, which is the property named "undefined". `Ranking.RatingColumn` does the same, so ratings then come from a column literally named "undefined".

## Model

| member | source | states |
|---|---|---|
| RandomUtils.UniformIndexInRange | JS/src/randomUtils.ts:2 | For a non-empty array and a draw in [0, 1), `floor(length * r)` is a valid index. |
| RandomUtils.RandomUniformItem | JS/src/randomUtils.ts:1-4 | An element is returned exactly when `floor(length * r)` is a position of the array, and it is the element there; otherwise the result is `undefined`. So an empty array yields nothing, and a non-empty one with a draw in [0, 1) always yields an element. |
| RandomUtils.Cdf | JS/src/randomUtils.ts:25-32 | The cumulative array has one entry per weight, and entry `i` is the sum of weights `0..i`. |
| RandomUtils.CdfMonotone | JS/src/randomUtils.ts:25-32 | With non-negative weights the cumulative array never decreases. |
| RandomUtils.PrefixSumsGrow | JS/src/randomUtils.ts:25-32 | With non-negative weights a longer prefix never sums to less. |
| RandomUtils.FindIndexFrom | JS/src/randomUtils.ts:35 | The first position from `from` on whose value reaches the draw, or -1 exactly when no position does. |
| RandomUtils.FindIndex | JS/src/randomUtils.ts:35 | `findIndex(value => value >= r)`: -1 exactly when no entry reaches `r`; otherwise the entry reaches `r` and none before it does. |
| RandomUtils.RandomWeightedItem | JS/src/randomUtils.ts:7-43 | Lengths differ exactly when the length-mismatch error is raised. Both empty exactly when the empty error is raised. One element is returned without a draw. With two or more elements, the result is the element at the least index whose running sum reaches the draw, or the last element if none does. The result is always a member of the array. |
| Dataset.Find | JS/src/randomWalk.ts:300 | `nodeTypes[t]` is found exactly when `t` is configured. With distinct names it is the unique entry of that name. |
| Dataset.RowsWith | JS/src/randomWalk.ts:110-115 | The row indices below `n` whose column holds `id`: all of them, each below `n`, strictly increasing. |
| Dataset.IndexRows | JS/src/randomWalk.ts:108-115 | An identifier is a key exactly when some row holds it, and its entry is exactly the increasing list of those rows. |
| Dataset.ComputeMappings | JS/src/randomWalk.ts:104-120 | There is one mapping for each configured node type and no other, and each is the index of that type's id column over all rows. |
| Dataset.ComputeMappingsInRange | JS/src/randomWalk.ts:104-120 | Every row index stored in any built mapping is below `data.length`. |
| Dataset.RowNodeTypes | JS/src/randomWalk.ts:289-294 | A type is offered exactly when it is configured and the row has a non-null value in its id column. Every offered type is configured, and there are no more of them than configured types. |
| Dataset.RowNodeTypesInOrder | JS/src/randomWalk.ts:289-294 | The offered types follow the table's order: they are a subsequence of the configured names. With distinct type names none is offered twice. With the membership above, this fixes the list from the row alone. |
| Assoc.Lookup | JS/src/randomWalk.ts:151 | `Map.get`: nothing exactly when no entry has the key; otherwise the value of an entry with that key. |
| Dataset.RowNodeTypesCarryIds | JS/src/randomWalk.ts:289-294 | With distinct names, an offered type's own id column is non-null in the row. |
| Neighbors.NeighborRowIndices | JS/src/randomWalk.ts:150-153 | An unknown id has no neighbours. The result holds exactly the mapped rows other than the entrance row. |
| Neighbors.NeighborRowIndicesKeepCounts | JS/src/randomWalk.ts:150-153 | Every row other than the entrance row occurs in the result as often as in the mapping. |
| Neighbors.NeighborRowIndicesKeepOrder | JS/src/randomWalk.ts:152 | The remaining rows keep their order in the mapping. |
| Neighbors.Max | JS/src/randomWalk.ts:157 | The maximum is one of the values and no value exceeds it. |
| Neighbors.Softmax | JS/src/randomWalk.ts:156-161 | One probability per score, each in (0, 1], and for a non-empty input they sum to 1. |
| Neighbors.VectorAt | JS/src/randomWalk.ts:193-200 | The vector of a row is the row's value under each vector field, in field order; an absent row gives no values. |
| Neighbors.SimilarRows | JS/src/randomWalk.ts:207-208 | The candidates with positive similarity: exactly those, in the same order. |
| Neighbors.SimilarRowsKeepCounts | JS/src/randomWalk.ts:207-208 | Every candidate with positive similarity is kept as often as it occurs among the candidates. |
| Neighbors.WeighSimilar | JS/src/randomWalk.ts:191-218 | The weighted rows are exactly the candidates with positive similarity, in the same order. Each has a probability in (0, 1], and the probabilities sum to 1 when any row is kept. |
| Neighbors.WeighSimilarKeepsCounts | JS/src/randomWalk.ts:191-218 | Every candidate with positive similarity is weighted as often as it occurs among the candidates. |
| Neighbors.NeighborProbabilities | JS/src/randomWalk.ts:170-219 | No candidates give an empty result. One candidate gets probability 1. With two or more candidates, an error is raised exactly when the node type has no edge configuration or a vector read hits a missing row; otherwise the result is the similar candidates, weighted. A non-empty result's probabilities sum to 1. |
| Assoc.Put | JS/src/randomWalk.ts:253 | `Map.set`: the key reads the new value and every other key reads as before. An existing key keeps its position; a new key is appended. |
| Walk.IncrementCounts | JS/src/randomWalk.ts:253 | Counting a visit adds one to that identifier's count and changes no other count. |
| Walk.IncrementKeepsVisitsOk | JS/src/randomWalk.ts:250-254 | Counting a non-target identifier keeps the counts keyed once, positive, and free of the target. |
| Walk.CountVisit | JS/src/randomWalk.ts:250-254 | A count rises by one only for a target-type node whose id differs from the target's. Nothing else in the state changes. |
| Walk.UniformHop | JS/src/randomWalk.ts:266-307 | The first draw selects the neighbour row at `floor(length * r)`. If that is not a row of the table, the walk restarts at the seed after one draw. Otherwise the second draw selects, the same way, one of the node types the row carries, and the walk lands on that type's id in the selected row, entering through it, after two draws. If no type is selected, the error names the row. |
| Walk.WeightedHop | JS/src/randomWalk.ts:309-346 | An error from the neighbour probabilities is passed on. No weighted row restarts at the seed without a draw. Otherwise the row is the one `randomWeightedItem` picks from the weighted rows with the first draw, used only when there are two or more. The walk lands on that row's target-type id, entering through it, or restarts when the row is not in the table. |
| Walk.Move | JS/src/randomWalk.ts:264-347 | A target-type node hops uniformly and any other node hops by weight. The hop keeps the counts and the iteration, uses at most two draws, and lands as `Walk.Hop` describes. The missing-type error arises exactly on the uniform branch. |
| Walk.Step | JS/src/randomWalk.ts:242-347 | One pass keeps the state well formed and uses at most three draws. It raises exactly the current target-type node's count, when that node is not the target. Away from the target, a first draw below the restart probability returns to the seed after one draw, and any other first draw is followed by the hop on the remaining draws. At the target the pass is the hop alone. Every landing is the seed or a neighbour row's node. |
| Walk.StepFollowsEdge | JS/src/randomWalk.ts:266-343 | With mappings built by `computeMappings`, every pass that does not restart follows an edge: its entrance row holds the node left, in that node's id column, and the node reached, in its own. |
| Walk.SeedWithoutNeighborsRestarts | JS/src/randomWalk.ts:269-287 | A seed without neighbour rows raises no error: the pass restarts it after one draw and changes nothing else. |
| Walk.Pass | JS/src/randomWalk.ts:241-243 | The loop body, `iteration++` followed by `Step`: a pass that succeeds adds one to the counter, keeps the state well formed and uses at most three draws. |
| Walk.Loop | JS/src/randomWalk.ts:240-348 | The loop terminates and stops with the counter past the bound, after exactly `Passes` passes, having used at most three draws per pass. |
| Walk.Iterate | JS/src/randomWalk.ts:241-243 | A counted run of `k` passes, each incrementing the counter and running `Step` and stopping at the first error. When it succeeds it has added exactly `k` to the counter and used at most three draws per pass. |
| Walk.IteratePass | JS/src/randomWalk.ts:241-243 | The first of `k` counted passes: on success the counter has grown by exactly `k`, with at most three draws per pass. |
| Walk.IterateAfter | JS/src/randomWalk.ts:241-243 | The counted passes left after a pass's result: an error result is passed on unchanged; on success the counter has grown by exactly `k` from where the pass left it. |
| Walk.LoopPass | JS/src/randomWalk.ts:240-348 | A pass the loop admits and the rest of the loop: on success the counter ends at `maxIterations + 1`, with at most three draws per pass. |
| Walk.LoopAfter | JS/src/randomWalk.ts:240-348 | The loop after a pass's result: an error result ends the walk with that error; on success the counter ends past the bound after `Passes` more passes. |
| Walk.LoopPassIsIteratePass | JS/src/randomWalk.ts:241-348 | A pass the loop admits, followed by the rest of the loop, computes exactly what the same pass followed by the remaining counted passes computes. |
| Walk.LoopAfterIsIterateAfter | JS/src/randomWalk.ts:241-348 | After any pass result, error or state, the loop and the `Passes` counted passes it has left compute the same result. |
| Walk.LoopIsIterate | JS/src/randomWalk.ts:241-348 | The loop driven by `iteration <= maxIterations` computes exactly what `Passes` counted passes of `Step` compute, error or final state alike. |
| Walk.RunWalk | JS/src/randomWalk.ts:228-348 | The walk from the seed with no visits is exactly `maxIterations + 1` counted passes of `Step` (none for a negative bound), so the counter ends at that number, and the final counts never include the target. |
| Seqs.Top | JS/src/randomWalk.ts:360-361 | Sorting by descending key and keeping the first `n`: at most `n` elements, none more often than in the input, in descending key order. Nothing left out has a larger key than anything kept, and a list shorter than `n` keeps everything. |
| Ranking.TargetNeighbourhood | JS/src/randomWalk.ts:356-361 | At most `maxTargetNeighbours` entries. Each is a visit above the threshold that passes `neighborFilter`. They are in descending count order, no entry left out outranks one kept, and a short list keeps every eligible visit. Each neighbour appears once. |
| Ranking.EntryContributions | JS/src/randomWalk.ts:367-382 | One contribution per row of the neighbour, in row order. Each names the row's item in the recommendation id column, carries the neighbour's visit count, and carries the row's rating. |
| Ranking.NumericValue | JS/src/randomWalk.ts:382-388 | A rating used in `rating * count` reads a number as itself, a boolean as 1 or 0, and `null` as 0. |
| Ranking.Contributions | JS/src/randomWalk.ts:365-389 | There is one contribution for every row of every neighbourhood identifier, so as many as those rows in total. A contribution is listed exactly when it is the contribution of such a row. They come entry by entry and row by row: row `k` of entry `p` sits right after the rows of the entries before `p`, which fixes the list and how often each contribution occurs. |
| Ranking.InRowOrderCons | JS/src/randomWalk.ts:365-389 | Putting one entry's row contributions before the rest of the neighbourhood's, in row order, keeps the whole list in row order. |
| Ranking.ContributionCountsPositive | JS/src/randomWalk.ts:365-387 | Every contribution carries the visit count of the neighbour it comes from. So neighbours with positive counts give only contributions with positive counts. |
| Ranking.Accumulate | JS/src/randomWalk.ts:365-391 | The recommendations map has each item once. |
| Ranking.TallyOfSnoc | JS/src/randomWalk.ts:385-389 | Appending one row adds it to its own item's reference tally and leaves every other item's tally unchanged. |
| Ranking.AccumulateTallies | JS/src/randomWalk.ts:372-389 | An item is in the map exactly when some row names it. Its tally is then the number of those rows, the sum of their counts, and the sum of rating times count. |
| Ranking.NoMentionNoTally | JS/src/randomWalk.ts:373-377 | An item no row names has the zero tally. |
| Ranking.WeightedCountPositive | JS/src/randomWalk.ts:404-411 | With positive visit counts every tallied item has a positive weighted count, so `sum / weighted_count` never divides by zero. |
| Ranking.Eligible | JS/src/randomWalk.ts:399-402 | An entry is kept exactly when it is not already rated and passes `itemFilter`. |
| Ranking.Average | JS/src/randomWalk.ts:410 | With a positive weighted count, the average times the weighted count is the sum. |
| Ranking.Rank | JS/src/randomWalk.ts:399-414 | At most `maxRecommendations` identifiers, none listed twice when the map has each item once. |
| Ranking.RankedAreCandidates | JS/src/randomWalk.ts:399-402 | Every ranked item is tallied, not already rated, and accepted by `itemFilter`. |
| Ranking.RankedByAverage | JS/src/randomWalk.ts:404-412 | The ranked items are in descending order of average rating. |
| Ranking.RankedAreBest | JS/src/randomWalk.ts:412-413 | No candidate left out averages higher than any ranked item. |
| Ranking.ShortRankingIsComplete | JS/src/randomWalk.ts:412-413 | A ranking shorter than the limit holds every candidate. |
| Recommender.RecommendationType | JS/src/randomWalk.ts:370 | The configuration entry named by `recommendationType`. |
| Recommender.AlreadyRated | JS/src/randomWalk.ts:393-395 | An item is in the set exactly when one of the target's own rows names it in the recommendation id column. |
| Recommender.NeighbourhoodContributions | JS/src/randomWalk.ts:365-382 | One contribution for every row of the target type's mapping under each neighbourhood identifier. When the visit counts are those of a walk, each is positive, and so is every contribution's count. |
| Recommender.Tallies | JS/src/randomWalk.ts:350-391 | The recommendations map built from the neighbourhood has each item once. |
| Recommender.TalliedWeightsPositive | JS/src/randomWalk.ts:404-411 | With the positive visit counts a walk produces, every tallied item has a positive weighted count, so its average is a true quotient. |
| Recommender.Recommend | JS/src/randomWalk.ts:350-418 | At most `maxRecommendations` items, none twice. None is already linked to the target. Each is named by a neighbourhood row and accepted by `itemFilter`. They are sorted by descending average. No candidate left out averages higher than one listed, and a list shorter than the limit holds every candidate. |
| Recommender.Rwrvee | JS/src/randomWalk.ts:224-420 | `rwrvee` fails exactly when the walk fails, with the walk's error. Otherwise its list has every property `Recommender.Recommend` states, for the tallies built from the walk's own visit counts, and every listed item's average divides by a positive weighted count. |
| Recommender.ComputedMappingsFit | JS/src/randomWalk.ts:104-120 | Mappings built by `computeMappings` meet every assumption the walk and the ranking make of them. |

## Left out

- The `seedrandom` generator is not modelled. The walk takes the sequence of draws it would produce. `Recommender.Rwrvee` requires three draws per loop pass, an upper bound on what a pass uses.
- `console.log` calls are not modelled; they have no effect on the result.
- `Math.exp` and floating point are left out. Numbers are mathematical reals, `Math.exp` is a positive-valued parameter, and NaN, infinities and rounding are not modelled.
- The internals of `vectorSimilarity`, `activationFunction`, `neighborFilter` and `itemFilter` are not modelled. They are opaque function parameters.
- The commented-out `standardizeData` and the interface declarations are left out; they have no runtime behaviour.
- Ties in `Array.prototype.sort` are not modelled beyond stability. The model sorts stably, which recent JavaScript engines also do.
- Cells holding dates, nested objects or arrays are not modelled. A cell is text, number, boolean, `null` or `undefined`.
- Ranking.NumericValue: text and `undefined` ratings are read as 0. That is right for blank text, which JavaScript's `*` also reads as 0 (`"" * 3` and `" " * 3` are 0). It is wrong for numeric text, which `*` converts to its number (`"4" * 3` is 12), and for other non-blank text and `undefined`, which become NaN. Neither string-to-number parsing nor NaN is modelled.
- Ranking.Average: a zero weighted count gives 0 instead of NaN. `Recommender.TalliedWeightsPositive` shows that the visit counts of a walk never produce one.
- A node type's object key and its `type` field are modelled as one name.
- Recommender.Rwrvee: requires every configured type to have a mapping and the target and recommendation types to be configured. `computeMappings` output meets the first part, as `Recommender.ComputedMappingsFit` shows. With an unconfigured target type and no mapping for it (as with `computeMappings` output), JavaScript always throws a `TypeError`: on the first pass, which reads the type's mapping (line 269), or at line 393 when the loop runs no pass. When the mappings do hold an entry for that type, the uniform hop reads only that entry (line 269), and the type's own configuration is read only when a weighted hop lands on a row (line 340), which throws. A walk that never gets there, for instance one with `maxIterations = 0`, reads only that mapping at lines 393-395 and returns a list. With an unconfigured recommendation type, it throws only when the aggregation reads a row (lines 370 and 395); with no row to read it returns a list. The model does not cover that case.
- Recommender.Rwrvee: also requires `IndicesBelow`, which says every row index in every mapping addresses a row of the table. The walk does not rely on it, and `Walk.RunWalk` has no such requirement. A missing row restarts the walk in the uniform hop (lines 283-287), and in the weighted hop when it is the one row picked (lines 330-336). With two or more candidate rows and an edge with vector fields, `getNeighborProbabilities` reads every candidate row and the entrance row (lines 190-200). A missing row there throws a `TypeError`, and the model's walk fails with `Config.UndefinedRowRead`. With one candidate, or with no vector fields, nothing is read and nothing throws. So `IndicesBelow` is needed only for the aggregation. It reads `data[i]` for the rows of the target type's mapping under a neighbourhood identifier (lines 367-382) and under the target's own identifier (lines 393-395). JavaScript throws a `TypeError` when one of those rows is missing. The model covers neither that error nor mappings that would raise it. `Recommender.ComputedMappingsFit` shows that `computeMappings` output always meets `IndicesBelow`.
- Recommender.Recommend: requires `IndicesBelow` and the configuration requirements, for the same reasons as `Recommender.Rwrvee`. The source accepts more: an out-of-range index that the aggregation never reads, and an unconfigured recommendation type when there is no row to read.
- `maxRecommendations` and `maxTargetNeighbours` are natural numbers. The negative `slice` bounds JavaScript allows are not modelled.
- The source and destination fields of an edge configuration, and the `columns` list of the data configuration, are never read by the core, so they are not modelled.
- A row whose index is outside the table but whose vector has no fields is read as no values, as JavaScript's `map` over an empty key list does.
