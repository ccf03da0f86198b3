# Business topology excavation and query-route shapes: a verified model

This project models two self-contained parts of the repository and proves what they are for.

**The excavation engine** (`bench/business_topology/`). Sources are compared, grouped into
neighbourhoods, cut into bounded excavation units and turned into a graph of work items. A
selection of that work is executed against a store that must survive failures and restarts,
and model replies are cut to budget, expanded from aliases and validated.

**The query-shape scanner and route curve** (`bench/rvbbit_route_model.py`). Hand-written
scanners read a query character by character; a piecewise-linear latency model picks an engine.

Every operation that loops over mutable state in the source is a method with loop invariants,
proved against a specification; expressions and recursion are functions; stores and selection
state are classes. The main theorems, by module:

| module | what is proved |
|---|---|
| `BindingBudget`, `NeighborhoodResult` | the binding cap keeps a maximum-confidence cover; the repaired result passes the coverage rules |
| `CandidateQueue`, `PairKeys` | the review queue is a bounded, maximal b-matching, at least half as large as any other; exactly when a key names one pair |
| `EmbeddingBatches` | greedy batching is a minimal contiguous partition, and the only one closed only when full |
| `Frontier`, `FrontierQueues` | the prompt frontier has an exact size; which queues the motifs give; each id is given by a queue in its turn, and no queue is served twice before all are served once |
| `Components`, `MutualEdges`, `Neighborhoods`, `SourceProposals` | union-find is exactly connectivity; reciprocal edges are characterised; the proposal passes its validator; when tight edges are broad edges |
| `Sharding`, `ExcavationUnits`, `ExcavationLinks`, `PairPool`, `PlanWork`, `PlanNeeds`, `ScopeWork`, `ExcavationPlan` | the planner satisfies its own validator on every admitted input, and its work depends on exactly what feeds it |
| `WorkPlan`, `SelectWork` | selection is the least dependency closure and runs dependencies first |
| `Recovery`, `Execution` | across runs, failures and restarts, finished work stays finished, validated and uncalled; when a run succeeds |
| `Aliases` | aliases are injective; the alias round trip holds exactly when every text is admissible in its slot |
| `ParentGraph`, `Threshold` | the hierarchy check is exact; the lexicographic threshold search is a simple minimum |
| `SqlBlanking`, `QueryShape`, `TableRefs` | blanking keeps length, code and itself; splitting and joining are inverse; extraction terminates |
| `RouteCurve`, `RouteRules` | a bracket always exists, predictions are weighted averages of the anchors, the decision is the one the rules leave |

`Ordering` holds stable sorting and sets listed in order, `Numbers` rounding, medians and quantiles,
`Wrappers` `Option` and `Result`.

Conventions. Identifiers are integers numbered in the order of their strings, except in `Aliases`,
`PairKeys` and the pair ids of `PairPool`, where the text of an identifier matters. Stable hashes
are an arbitrary injective function. Confidences, similarities and latencies are reals. The chat
client is an arbitrary function from the work asked about, the results so far and the number of a
call to a reply. Whatever the code raises is an `Err`, a `None` or an error value.

Where the code does not have a property for all inputs, the exact condition is proved beside a
failing input. Tight edges are broad edges exactly when the bridge lift is no larger than the tight
lift, or the tight lift is out of reach (`SourceProposals.TightEdgesAreBroadExactlyWhen`). A text
comes back from the alias round trip exactly when it is admissible in its slot, which an identifier
that is both a population and a dependency is not (`Aliases.AliasRoundTrip`,
`Aliases.SharedIdentifierIsLost`). A pair key belongs to one pair exactly when it reads as an ordered
pair at one separator only (`PairKeys.KeyNamesThePairExactly`, `PairKeys.SeparatorCollides`), and
pair ids tell the pairs of one corpus apart exactly when no key reads as another pair of its ids
(`PairPool.PairIdsNamePairsExactly`). A queue bound below one is exceeded by one pair exactly in the
case `CandidateQueue.Build` names, as with one local-overlap pair and bound zero
(`CandidateQueue.ZeroBoundTakesOne`).

## Model

| member | source | states |
|---|---|---|
| BindingBudget.CheckBindings | bench/business_topology/worker.py:1085-1115 | A decoded list exists exactly when every listed binding is decodable, bounded and keyed apart; otherwise nothing is repaired |
| BindingBudget.BestFor | bench/business_topology/worker.py:1142-1148 | The candidate picked for a node precedes every other binding of that node by rank; none only if the node has no binding |
| BindingBudget.SelectBests | bench/business_topology/worker.py:1141-1148 | The selected indexes are exactly the best binding of every node, and they cover all nodes |
| BindingBudget.Prepare | bench/business_topology/worker.py:1061-1148 | The projection applies exactly when the overflow is otherwise well-formed and every node has a binding |
| BindingBudget.Choose | bench/business_topology/worker.py:1150-1154 | Filling up by rank reaches the cap and no rival choice has more total confidence |
| BindingBudget.Fit | bench/business_topology/worker.py:1049-1165 | Applies or leaves the payload alone; when it applies, the result lists the kept bindings at strictly rising positions, they are an optimal cover of the capped size, and only less preferred ones were dropped |
| BindingBudget.CoverSwap | bench/business_topology/worker.py:1141-1148 | A missing best binding can replace a rival's binding of its node without losing confidence or coverage |
| BindingBudget.FillSwap | bench/business_topology/worker.py:1150-1154 | A ranked filler can replace a dropped binding in any rival without losing confidence or coverage |
| BindingBudget.PrecisionFirstIsOptimal | bench/business_topology/worker.py:1131-1158 | No set of as many bindings covering every node has a larger total confidence (exchange argument) |
| BindingBudget.PrecisionFirstIsUnique | bench/business_topology/worker.py:1131-1158 | The rule determines the kept set |
| BindingBudget.ProjectionShape | bench/business_topology/worker.py:1155-1165 | The projected list has exactly the capped length and still binds every node |
| BindingBudget.RankIsPreference | bench/business_topology/worker.py:1118-1139 | The rank is the stated preference: confidence, then the listed order of roles, population, node and position |
| BindingBudget.PrecisionFirstKeepsPreferred | bench/business_topology/worker.py:1141-1154 | A dropped binding stands behind a kept one of its node and behind every kept one that is not the first of its node |
| BindingBudget.ProjectInOrder | bench/business_topology/worker.py:1155-1158 | The projected list picks exactly the kept positions, in rising order |
| NeighborhoodResult.ValidateCoverage | bench/business_topology/results.py:353-418 | Accepts exactly bounded, distinct, well-formed bindings of every node, bounded, distinct edges between different nodes, and every population bound or unbound and not both |
| NeighborhoodResult.NormalizedUnbound | bench/business_topology/worker.py:1192-1203 | The rebuilt unbound list holds exactly the unit's populations that no binding names, each once |
| NeighborhoodResult.NormalizationSettlesCoverage | bench/business_topology/worker.py:1192-1203 | The rebuilt list accounts for every population exactly when no binding names one outside the unit |
| NeighborhoodResult.RepairIsAccepted | bench/business_topology/worker.py:1512-1525 | Projecting an overflow and then normalising gives a result the validator's binding and coverage rules accept |
| CandidateQueue.Selection.Select | bench/business_topology/candidates.py:348-365 | Takes a candidate exactly when neither endpoint has reached the fanout bound, and counts it at both endpoints |
| CandidateQueue.FillQuota | bench/business_topology/candidates.py:376-387 | One stratum's pass stops at its target, at a full queue or when every candidate of the stratum is selected or saturated |
| CandidateQueue.FillQuotas | bench/business_topology/candidates.py:367-387 | After the quota phase every stratum met its target or ran out, or the queue is full |
| CandidateQueue.Redistribute | bench/business_topology/candidates.py:389-399 | Unused room goes to any unsaturated pair that is no hard negative; it ends full or with nothing left to take |
| CandidateQueue.Build | bench/business_topology/candidates.py:333-399 | Distinct pool pairs within the fanout bound; within the size bound exactly under the stated condition; if short, maximal and at least half of any rival; a better pair of a stratum is left out only when saturated, and what redistribution adds comes in order of rank and passes over saturated pairs only |
| CandidateQueue.ZeroBoundTakesOne | bench/business_topology/candidates.py:376-387 | With one local-overlap pair and a size bound of zero the queue takes that pair |
| CandidateQueue.FairIsRanked | bench/business_topology/candidates.py:333-387 | Within a stratum a pair of higher priority is passed over only when an endpoint is saturated |
| CandidateQueue.ServedIsQuotaPhase | bench/business_topology/candidates.py:367-387 | The strata are served in their order, none beyond its quota, each until its quota is met or its pairs run out |
| CandidateQueue.AddedIsRedistribution | bench/business_topology/candidates.py:389-399 | Redistribution adds no hard negative, goes by priority across strata and passes over saturated pairs only |
| CandidateQueue.QuotasFillTheQueue | bench/business_topology/candidates.py:369-378 | For a bound of twenty times n the quotas are 6n, 6n, 3n, 4n and n, which fill it |
| CandidateQueue.HalfOptimal | bench/business_topology/candidates.py:348-399 | Any fanout-respecting set blocked by a chosen set has at most twice as many pairs (charging argument) |
| CandidateQueue.MaximalIsHalfOptimal | bench/business_topology/candidates.py:389-399 | A maximal queue is within a factor two of every fanout-respecting choice from the same pool |
| PairKeys.PairKeySymmetric | bench/business_topology/candidates.py:28-30 | The key does not depend on the order in which the pair is named |
| PairKeys.KeyNamesThePairExactly | bench/business_topology/candidates.py:28-30 | A key belongs to its pair alone exactly when no other separator splits it into an ordered pair, for all ids |
| PairKeys.PairKeyNamesThePair | bench/business_topology/candidates.py:28-30 | The key of two separator-free ids is the key of no other pair, whatever the other ids contain |
| PairKeys.KeyNamesOnePairAmong | bench/business_topology/candidates.py:28-30 | Among given ids a key names one pair alone exactly when it reads as no other pair of those ids |
| PairKeys.SeparatorCollides | bench/business_topology/candidates.py:28-30 | Two different pairs that share a key, because an id contains the separator |
| EmbeddingBatches.Batch | bench/business_topology/embedding.py:85-122 | Succeeds exactly on positive budgets and inputs that fit alone; the batches concatenate to the inputs, fit both budgets and are fewest |
| EmbeddingBatches.StaysAhead | bench/business_topology/embedding.py:105-119 | After any number of batches no other grouping has consumed more inputs |
| EmbeddingBatches.GreedyIsMinimal | bench/business_topology/embedding.py:98-122 | No contiguous grouping within the budgets uses fewer batches |
| EmbeddingBatches.GreedyIsUnique | bench/business_topology/embedding.py:98-122 | There is one grouping whose batches close only when full |
| EmbeddingBatches.SizeAdds | bench/business_topology/embedding.py:98-119 | The size of a batch adds up the lengths of its texts |
| Frontier.TakeEvidence | bench/business_topology/worker.py:654-678 | Evidence is taken strongest first, as the allowed new populations of the sorted stream up to the evidence budget |
| Frontier.Round | bench/business_topology/worker.py:720-732 | In one round each queue gives its first new id in its turn or is spent, and the queues get shorter if any gave |
| Frontier.TakeInTurn | bench/business_topology/worker.py:720-757 | Terminates with a full frontier or all queues spent; every id added is the first new one of its queue, given while every queue due earlier was spent |
| Frontier.Choose | bench/business_topology/worker.py:627-761 | A sorted list of allowed ids of exactly the stated size: the strongest evidence up to half of it, then turns over the motif queues, then over the source queues, then the least ids left; nothing a motif or source stands for is passed over unless the frontier is full |
| Frontier.EvidenceIsStrongest | bench/business_topology/worker.py:654-678 | What the evidence stage takes comes from the strongest results; a result stronger than all that name a taken population has all of its own taken |
| Frontier.MotifStage | bench/business_topology/worker.py:683-732 | Unless the frontier is full, every allowed population of a source whose field a motif of that source names is taken by the motif stage |
| Frontier.SourceStage | bench/business_topology/worker.py:734-757 | Unless the frontier is full, every allowed population of a source is taken by the source stage |
| Frontier.FillStage | bench/business_topology/worker.py:759-761 | The rest is filled with the least ids |
| FrontierQueues.MotifQueueOrder | bench/business_topology/worker.py:713-718 | A motif's queue lists exactly the allowed populations of its fields, by field and then as the source lists them |
| FrontierQueues.MotifQueuesPlaced | bench/business_topology/worker.py:683-718 | There is one queue for every motif that stands for a population, by source, then confidence, key and position |
| Frontier.EvidenceLeavesRoom | bench/business_topology/worker.py:668-671 | Evidence gets at most half of a frontier of two or more |
| Frontier.OwnersGive | bench/business_topology/worker.py:720-757 | Every id added since the evidence stands in the queue of its owner and was new |
| Frontier.NoQueueIsStarved | bench/business_topology/worker.py:720-757 | A queue that has given less than another, or as much as a later one less its turn, has no id left that is not selected |
| Frontier.RoundsAreWhole | bench/business_topology/worker.py:720-757 | At every moment, once some queue has given more than r ids, every queue has given r ids or is spent, and earlier queues one more |
| Frontier.RoundRobinIsDetermined | bench/business_topology/worker.py:720-757 | Who gives which id in which order is determined by the queues |
| Components.Find | bench/business_topology/domains.py:203-207 | Terminates at the root of its index, and path halving moves no root |
| Components.HalvingKeepsRoots | bench/business_topology/domains.py:203-207 | Pointing an index at its grandparent keeps the forest and every root, with a higher rank above it |
| Components.ClimbEndsAtRoot | bench/business_topology/domains.py:203-207 | Climbing parents from any index ends at its recorded root and nowhere else |
| Components.MergeIsExact | bench/business_topology/domains.py:209-213 | Hanging one root under the other merges exactly the classes the edge joins |
| Components.Union | bench/business_topology/domains.py:209-213 | After one edge, sharing a root is still exactly being connected by the edges read |
| Components.UnionEdges | bench/business_topology/domains.py:200-213 | After all edges, sharing a root is exactly being connected |
| Components.GroupByRoot | bench/business_topology/domains.py:215-217 | Every root's group lists exactly its members, in index order |
| Components.ConnectedComponents | bench/business_topology/domains.py:199-221 | Non-empty groups, larger first and then by keys, that cover the sources; two sources share one exactly when a path of edges connects them |
| Components.GroupsAreListed | bench/business_topology/domains.py:218-221 | Larger groups come first, then the lesser list of keys; members are in ascending key order |
| MutualEdges.RankingCounts | bench/business_topology/domains.py:157-166 | A source's position in a ranking is the number of sources closer than it |
| MutualEdges.TopIsCut | bench/business_topology/domains.py:154-166 | Standing in the cut ranking is being among the k closest by counting |
| MutualEdges.Edges | bench/business_topology/domains.py:144-196 | Emits, once each and in order of the rounded similarity, exactly the pairs that rank each other in their top k and pass both floors |
| MutualEdges.EmittedJoins | bench/business_topology/domains.py:157-196 | An emitted edge is two sources each among the other's k closest by the matrix entries, similar enough and lifted enough above both baselines |
| MutualEdges.DegreeAtMostK | bench/business_topology/domains.py:168-188 | No source has more than k edges |
| MutualEdges.LooserGateAddsEdges | bench/business_topology/domains.py:341-356 | Raising k while lowering threshold and lift only adds edges, for any matrix |
| SourceProposals.ThresholdFalls | bench/business_topology/domains.py:331-338 | The bridge threshold is never above the tight one, because quantiles rise |
| SourceProposals.LiftAtMostTwo | bench/business_topology/domains.py:322-339 | No edge of a computed matrix lifts more than two above its median baselines |
| SourceProposals.TwoPairsAreComputed | bench/business_topology/domains.py:322-339 | A matrix with any wanted lift comes from unit vectors and their row medians |
| SourceProposals.StricterBridgeLiftLosesAnEdge | bench/business_topology/domains.py:246-268 | For all admitted settings with a larger bridge lift and a reachable tight one, a computed matrix has a tight edge that is no broad edge |
| SourceProposals.TightEdgesAreBroadExactlyWhen | bench/business_topology/domains.py:246-356 | Tight edges are broad edges of every computed matrix exactly when the bridge lift is no larger than the tight lift or the tight lift exceeds two |
| SourceProposals.Baselines | bench/business_topology/domains.py:339 | Every baseline is the median of the row without its diagonal |
| SourceProposals.ThresholdIs | bench/business_topology/domains.py:331-338 | A threshold is the larger of its floor and the quantile of all pair similarities, each pair once |
| SourceProposals.BaselinesAreRowMedians | bench/business_topology/domains.py:339 | A baseline is the median of the row without its diagonal, with the median told by counting |
| SourceProposals.ClippingIsIdle | bench/business_topology/domains.py:322-326 | Blended similarities of unit vectors stay between -1 and 1, so clipping changes nothing |
| SourceProposals.DotAdds | bench/business_topology/domains.py:322-324 | A product of vectors adds up over their parts |
| SourceProposals.BlendAdds | bench/business_topology/domains.py:322-324 | A blend adds up what the single channels say |
| SourceProposals.BlendOfOne | bench/business_topology/domains.py:322-324 | A single channel says its weight times the product of the two vectors |
| SourceProposals.ProposeFrom | bench/business_topology/domains.py:246-481 | For given similarities: refused exactly outside the written-out ranges of the settings; otherwise a valid proposal whose gates and baselines are those of the similarities, a single source alone |
| Numbers.QuantileRises | bench/business_topology/domains.py:331-338 | A quantile never falls when its share grows |
| Numbers.MedianBetween | bench/business_topology/domains.py:339 | A median lies between any bounds of its values |
| Numbers.MedianIsMiddle | bench/business_topology/domains.py:339 | A median has at most half of the values below and above it, or lies half way between the two middle ones |
| Numbers.QuantileIsBetween | bench/business_topology/domains.py:331-338 | A quantile lies between the two values around its position, in proportion |
| Numbers.RoundedIsNear | bench/business_topology/domains.py:182-186 | Rounding moves a value by half a unit of the last place at most, ties to even |
| Neighborhoods.ValidateSources | bench/business_topology/domains.py:501-518 | Accepts exactly a non-empty list of distinct sources the corpus has |
| Neighborhoods.ValidatePartition | bench/business_topology/domains.py:520-548 | Accepts exactly uniquely named, non-empty neighbourhoods that list every source once |
| Neighborhoods.ValidateBridges | bench/business_topology/domains.py:565-588 | Accepts exactly bridges between known, different neighbourhoods that are their sources' homes |
| Neighborhoods.Validate | bench/business_topology/domains.py:484-588 | Accepts a proposal exactly when it is a complete partition with known endpoints and agreeing bridges |
| Neighborhoods.DedupBridges | bench/business_topology/domains.py:402-419 | Exactly the crossed pairs of neighbourhoods get one bridge each, the first of the strongest broad edges, listed by similarity and ids |
| Neighborhoods.ComponentsArePartition | bench/business_topology/domains.py:358-369 | Named components partition the sources; sharing a neighbourhood is being connected by tight affinities |
| Neighborhoods.FindNearest | bench/business_topology/domains.py:421-433 | The neighbour listed for a source has no other source closer to it |
| Neighborhoods.Propose | bench/business_topology/domains.py:341-481 | For any similarities, baselines and gates the proposal is as specified and passes the validator |
| ParentGraph.Walk | bench/business_topology/results.py:126-132 | The walk ends; it succeeds exactly when the start reaches a root, and otherwise some node is its own ancestor |
| ParentGraph.CheckDeclared | bench/business_topology/results.py:123-125 | Accepts exactly when every declared parent is another known node |
| ParentGraph.Validate | bench/business_topology/results.py:117-132 | Accepts exactly when declared parents are known nodes and every chain of parents reaches a root |
| ParentGraph.OwnAncestorIsTrapped | bench/business_topology/results.py:126-132 | A node on a parent cycle never reaches a root |
| ParentGraph.DepthOfParent | bench/business_topology/results.py:126-132 | A node is one step further from its root than its parent |
| ParentGraph.AcceptedHasDepths | bench/business_topology/results.py:117-132 | An accepted hierarchy has depths falling by one towards the roots, which have depth zero |
| ParentGraph.RankedChainsEnd | bench/business_topology/results.py:117-132 | Depths are also enough: a hierarchy that has them is acyclic |
| Threshold.HigherReachesFewer | bench/business_topology/linear.py:34-38 | A higher threshold moves predictions from positive to negative and loses none |
| Threshold.RecallNeverRises | bench/business_topology/linear.py:40 | Recall never rises with the threshold |
| Threshold.ForPrecision | bench/business_topology/linear.py:27-45 | The lexicographic search returns the smallest grid threshold with a true positive and enough precision, or 0.99 |
| Threshold.StricterTargetIsHigher | bench/business_topology/linear.py:33-45 | Asking for more precision never lowers the threshold returned, the fallback included |
| Threshold.QualifiesWhen | bench/business_topology/linear.py:34-41 | A grid point qualifies when a positive reaches it and positives make up the wanted share of all that do, by counting |
| Threshold.GridIsEven | bench/business_topology/linear.py:34 | A hundred thresholds, evenly spaced from 0.50 to 0.99 |
| Sharding.AdjacentIsAffine | bench/business_topology/excavation.py:69-76 | Two members are adjacent exactly when an affinity inside the member set names them, in either direction |
| Sharding.ScoreIsLastSimilarity | bench/business_topology/excavation.py:69-76 | Two members score the similarity of the last affinity that joins them, and anything else nothing |
| Sharding.TotalScoreAdds | bench/business_topology/excavation.py:84 | A total adds up what the single peers score |
| Sharding.MaxScoreIsStrongest | bench/business_topology/excavation.py:108 | The strongest tie is a tie and no weaker than any |
| Sharding.DegreeCountsAffine | bench/business_topology/excavation.py:85 | The number of peers some affinity joins the source to |
| Sharding.LoadAdds | bench/business_topology/excavation.py:60-63 | A load adds up the positive weights |
| Sharding.ChooseSeed | bench/business_topology/excavation.py:81-88 | The seed precedes every other remaining source by total affinity, number of affine peers and key |
| Sharding.NextCandidate | bench/business_topology/excavation.py:93-111 | The next source is the first by its ties to the part among the affine ones that still fit; none only if there are none |
| Sharding.Grow | bench/business_topology/excavation.py:89-114 | A part is grown by that rule and closes only when full or when no affine source fits |
| Sharding.Split | bench/business_topology/excavation.py:78-116 | The parts exhaust the members, each grown out of what the earlier ones left |
| Sharding.Partition | bench/business_topology/excavation.py:49-116 | All members at once when they fit, else the greedy split; disjoint sorted parts within the bounds that cover the members |
| Sharding.GrownIsConnected | bench/business_topology/excavation.py:92-114 | Every source of a grown part is joined to its seed by affinities inside the part |
| Sharding.PartsDisjoint | bench/business_topology/excavation.py:78-116 | Two parts never share a source |
| Sharding.LocallyMaximal | bench/business_topology/excavation.py:92-103 | A source affine to an unfilled earlier part would have broken that part's population bound |
| Sharding.GrownWithinBounds | bench/business_topology/excavation.py:92-114 | A part never exceeds the source bound, and the population bound only as a single source |
| ExcavationUnits.GroupPopulations | bench/business_topology/excavation.py:320-329 | Fails exactly on a population without a source; otherwise files every non-context population under its source |
| ExcavationUnits.CountPopulations | bench/business_topology/excavation.py:657-666 | The validator's count fails exactly on a countable population without a source |
| ExcavationUnits.BuildUnits | bench/business_topology/excavation.py:331-375 | The units are the shards of every neighbourhood in order, with their counts, flags, kinds and numbers |
| ExcavationUnits.UnitsAreValid | bench/business_topology/excavation.py:331-375 | Whatever the neighbourhoods, the built units pass every rule of the unit validator |
| ExcavationUnits.UnitsAreApart | bench/business_topology/excavation.py:331-375 | The built units partition the members of the neighbourhoods |
| ExcavationUnits.UnitsAreOfShards | bench/business_topology/excavation.py:331-375 | One unit for every shard in order, with its sources, its counted populations, flag, kind and number |
| ExcavationUnits.ValidateCorpus | bench/business_topology/contracts.py:160-191 | Accepts exactly corpora in which no two populations and no two motifs share an id |
| ExcavationUnits.SortedPartition | bench/business_topology/excavation.py:334-337 | The neighbourhoods in strictly rising order of id are still a disjoint cover of the sources |
| ExcavationUnits.ValidateUnit | bench/business_topology/excavation.py:682-708 | Accepts exactly a unit within its source and population bounds with a true count and flag |
| ExcavationUnits.ValidateUnits | bench/business_topology/excavation.py:669-713 | Accepts exactly uniquely named valid units that partition the represented sources |
| ExcavationLinks.UnitOfSource | bench/business_topology/excavation.py:374-375 | The unit recorded for a source is the one that lists it |
| ExcavationLinks.Nominate | bench/business_topology/excavation.py:379-415 | Keeps one link per kind and pair of units, outranked by no nomination so far |
| ExcavationLinks.NominateAll | bench/business_topology/excavation.py:419-430 | Nominating a list of edges keeps that for all of them |
| ExcavationLinks.BuildLinks | bench/business_topology/excavation.py:377-438 | The sorted links answer all cut affinities and the strongest bridges up to the bound, and nothing else |
| ExcavationLinks.LinkOfNomination | bench/business_topology/excavation.py:407-415 | Every nomination between two units has a link of its kind between them that it does not outrank |
| ExcavationLinks.LinksAreTold | bench/business_topology/excavation.py:377-438 | One link per kind and two units that nominations join, carrying the strongest of them, listed by kind, similarity and id |
| ExcavationLinks.StrongestBridgesAre | bench/business_topology/excavation.py:421-428 | As many bridges as the bound allows, and none left out comes before one that is in |
| ExcavationLinks.LinksAnswer | bench/business_topology/excavation.py:417-430 | Every affinity between two units has a boundary link that holds against it; links carry affinities and bridges of the proposal only |
| ExcavationLinks.LinksAreValid | bench/business_topology/excavation.py:417-438 | Nominated links always pass the link validator |
| ExcavationLinks.ValidateLinks | bench/business_topology/excavation.py:715-739 | Accepts exactly uniquely named links between different known units whose sources agree |
| PlanWork.ValidateWork | bench/business_topology/excavation.py:741-768 | Accepts exactly non-empty work with unique ids, stages of its kinds and dependencies at strictly earlier stages |
| PlanWork.ValidWorkKeepsStageRule | bench/business_topology/excavation.py:760-768 | Accepted work keeps the stage rule that selection relies on |
| PlanWork.UnitTasksDistinct | bench/business_topology/excavation.py:466-520 | No two work items of the units share a name |
| PlanWork.LinkTasksDistinct | bench/business_topology/excavation.py:522-571 | No two work items of the links share a name |
| PlanWork.SynthesisDependencies | bench/business_topology/excavation.py:497-518 | Every dependency of a synthesis is planned work of an earlier stage |
| PlanWork.BridgeDependencies | bench/business_topology/excavation.py:543-568 | Every dependency of a bridge is planned work of an earlier stage |
| PlanWork.PlannedWorkIsValid | bench/business_topology/excavation.py:440-573 | Distinct, supported tasks make work the validator accepts |
| PlanWork.ReorderedWorkIsValid | bench/business_topology/excavation.py:573 | The work in rising order of stage and id is still valid and nothing is lost |
| PlanNeeds.SynthesisNeedsAll | bench/business_topology/excavation.py:497-518 | An id is a dependency of a synthesis exactly when it is of motif work of one of its sources or of a correspondence of its scope |
| PlanNeeds.BridgeNeedsAll | bench/business_topology/excavation.py:543-568 | An id is a dependency of a bridge exactly when it is of the synthesis of one of its link's units or of a correspondence of the link |
| PlanNeeds.PlannedWorkAccounts | bench/business_topology/excavation.py:440-573 | Every motif of a represented source, unit, link and chosen pair has its work, all work is one of these, and each item names the sources and populations it is about and needs exactly what feeds it |
| PairPool.BuildPool | bench/business_topology/candidates.py:283-331 | The loop collects exactly the candidates that are nominated, of different sources, in a requested stratum and scored high enough |
| PairPool.QueuedIs | bench/business_topology/candidates.py:264-268 | The populations that can be paired are those of the scope that are no context, in corpus order |
| PairPool.PoolHas | bench/business_topology/candidates.py:274-331 | The pool holds exactly the cross-source pairs put forward by blocking or evidence whose stratum is requested and whose exact priority reaches the minimum, listed with the priority rounded to six places |
| PairPool.PairIdsNamePairsExactly | bench/business_topology/candidates.py:28-35 | Pair ids, as digests of keys, tell the pairs of a corpus apart exactly when no key reads as another pair of its ids |
| PairPool.PlainNamesNamePairs | bench/business_topology/candidates.py:28-35 | Ids without the separator always have their pairs told apart |
| PairPool.PoolPairsDistinct | bench/business_topology/candidates.py:274-331 | Every pair is in the pool at most once and never pairs a population with itself |
| ScopeWork.PoolsAreGood | bench/business_topology/excavation.py:130-157 | In every scope of a valid corpus the pool pairs non-context populations of the scope across sources |
| ScopeWork.PoolForScope | bench/business_topology/excavation.py:130-157 | The pool of a scope holds exactly the candidates nominated among its populations |
| ScopeWork.ScopedCandidates | bench/business_topology/excavation.py:119-158 | Nothing for a narrow scope, refusal exactly for evidence naming a context population of the scope, otherwise a maximal bounded queue of its pool |
| ScopeWork.ChosenAreDistinct | bench/business_topology/excavation.py:119-158 | The pairs chosen for a scope are cross-source pairs of that scope, no two alike |
| ScopeWork.MotifWork | bench/business_topology/excavation.py:440-463 | Fails exactly on a motif without a source; one item for every motif of a represented source, filed under it |
| ScopeWork.CorrespondenceWork | bench/business_topology/excavation.py:161-184 | One stage-two item for every chosen pair, with the pair's sorted sources and populations |
| ScopeWork.UnitWork | bench/business_topology/excavation.py:466-520 | A unit's work is its evidence and one synthesis depending on exactly that evidence and its sources' motifs |
| ScopeWork.LinkWork | bench/business_topology/excavation.py:522-571 | A link's work is its evidence and one bridge depending on exactly that evidence and its two units' syntheses |
| ScopeWork.AllUnitWork | bench/business_topology/excavation.py:465-520 | The loop over the units makes the work of all of them, and fails exactly when some unit's evidence names a context population of it |
| ScopeWork.AllLinkWork | bench/business_topology/excavation.py:522-571 | The loop over the links makes the work of all of them, and fails exactly when some link's evidence names a context population of it |
| ExcavationPlan.Validate | bench/business_topology/excavation.py:629-768 | Accepts exactly valid corpora, proposals and plans |
| ExcavationPlan.TasksAreDistinct | bench/business_topology/excavation.py:440-573 | No two work items of a plan share a name |
| ExcavationPlan.PlanIsValid | bench/business_topology/excavation.py:320-615 | Every plan the builder can make satisfies the whole validator |
| ExcavationPlan.PlanAccounts | bench/business_topology/excavation.py:440-573 | In every plan built the work accounts for motifs, units, links and chosen pairs, with exactly the dependencies that feed each item |
| ExcavationPlan.Build | bench/business_topology/excavation.py:289-616 | Succeeds exactly on admitted input whose units and links all accept their evidence, so always when no evidence names a context population; the plan's closing validation never fails, its work is in order of stage and id, complete, and each item depends on exactly the items that feed it |
| ExcavationPlan.PlansCanBeSelected | bench/business_topology/excavation.py:760-768 | In a valid plan every resolvable request can be answered, and whatever is selected runs dependencies first |
| ExcavationPlan.EveryPopulationIsSynthesisedOnce | bench/business_topology/excavation.py:465-520 | Every non-context population of a represented source is in the scope of exactly one synthesis |
| ExcavationPlan.SynthesisIsBounded | bench/business_topology/excavation.py:501-520 | A synthesis reads at most the bounded number of sources, and too many populations only of a single source |
| ExcavationPlan.StrongestBridgesAreLinked | bench/business_topology/excavation.py:421-430 | Every bridge within the bound crosses two units and has a link at least as strong between them |
| WorkPlan.BuildIndex | bench/business_topology/worker.py:1248-1259 | Fails exactly when two items share an id; otherwise indexes every item by its id |
| SelectWork.ResolveScopes | bench/business_topology/worker.py:1280-1297 | Fails exactly when some scope has not exactly one terminal item; otherwise collects those items |
| SelectWork.ResolveTargets | bench/business_topology/worker.py:1272-1299 | Fails exactly on unknown or ambiguous requests and on an empty target set; otherwise collects exactly what was requested |
| SelectWork.AddWithDependencies | bench/business_topology/worker.py:1303-1313 | Terminates; adds the item and its dependencies, dependencies first, and fails only where a cycle or unknown id is reachable |
| SelectWork.Close | bench/business_topology/worker.py:1301-1323 | Fails exactly when a cycle or unknown id is reachable from a target; otherwise lists exactly the reachable ids |
| SelectWork.Select | bench/business_topology/worker.py:1262-1323 | The whole request: exact success condition, and the least dependency closure by stage and id |
| SelectWork.StageRuleNeverBreaks | bench/business_topology/excavation.py:767-768 | Under the stage rule no cycle or unknown id is reachable |
| SelectWork.ClosureIsTopological | bench/business_topology/worker.py:1317-1323 | Under the stage rule the listed order puts every dependency before what needs it |
| SelectWork.ClosureRunsDepsFirst | bench/business_topology/worker.py:1609-1615 | So the executor's missing-dependency error is unreachable for a planned selection |
| Recovery.SafeStep | bench/business_topology/worker.py:1381-1418 | Every write the executor makes keeps the store consistent and finished work finished with the same result |
| Recovery.SafeTraceKeeps | bench/business_topology/worker.py:1381-1430 | The same over any sequence of such writes |
| Recovery.HistoryIsSafe | bench/business_topology/worker.py:1326-1430 | Safe traces one after the other, each from the disk the one before left, are one safe trace |
| Recovery.FinishedForGood | bench/business_topology/worker.py:1366-1430 | At any two moments of such a history, finished work keeps its result and is neither written nor sent to the client |
| Recovery.SettledValidates | bench/business_topology/worker.py:1587-1594 | A finished result validates under any choice of finished neighbourhood results as its priors |
| Execution.ExecutionStore.Open | bench/business_topology/worker.py:1337-1357 | Loads the manifest found or writes an empty one; fails exactly when that write does, calling nobody and changing no finished work |
| Execution.ExecutionStore.RecordSuccess | bench/business_topology/worker.py:1381-1418 | Result file first, manifest second: on success the work is finished with that result, on a fault at either write it is not |
| Execution.ExecutionStore.RecordFailure | bench/business_topology/worker.py:1420-1430 | Marks unfinished work failed, adding its attempts to those recorded before, and keeps every finished entry |
| Execution.Generate | bench/business_topology/worker.py:1471-1535 | Asks at most `repair_attempts + 1` times, refuses every earlier reply, returns the first acceptable one and reports the calls made; when those replies are all refused it fails after exactly that many calls |
| Execution.AcceptedExactly | bench/business_topology/worker.py:1509-1527 | A reply is acceptable exactly when it is of the work's kind, valid by itself and refers only to nodes of finished syntheses the work depends on |
| Execution.PendingCounts | bench/business_topology/worker.py:1561-1564 | The pending calls are the selected turns whose work needs the client and is not finished |
| Execution.RunWork | bench/business_topology/worker.py:1627-1668 | Ends with the work finished exactly when a result that validates is produced and neither write fails, otherwise unfinished; within its call budget, with the attempts recorded exactly |
| Execution.Resume | bench/business_topology/worker.py:1587-1596 | Resuming finished work returns the stored result and cannot fail |
| Execution.Turn | bench/business_topology/worker.py:1585-1668 | One work item: finished work resumes without touching the store, the rest runs within the remaining budget |
| Execution.Begin | bench/business_topology/worker.py:1551-1571 | Admits exactly runs over known work within the item and call bounds, with a client if one is needed and a store that opens; calls nobody |
| Execution.CountedTurn | bench/business_topology/worker.py:1585-1668 | One turn counts itself as resumed exactly when its work was finished before the run or by an earlier turn |
| Execution.RunAll | bench/business_topology/worker.py:1573-1668 | Success leaves every selected item finished and the counters exact; calls stay within pending items times attempts; a dependency-first order never misses a dependency; work fails only at a turn that breaks |
| Execution.ExecutePlan | bench/business_topology/worker.py:1538-1703 | The whole run: finished work kept, resumed, completed, local and client counts exact, at most `max_llm_calls * (repair_attempts + 1)` calls, no resumption error, nothing done when all is finished; an admitted dependency-first run with an obliging client and no fault succeeds, and work fails only at a turn that breaks |
| Execution.PlainRepliesOblige | bench/business_topology/worker.py:1471-1535 | A client whose replies are valid by themselves and refer to no other result obliges every run |
| Execution.RunAgain | bench/business_topology/worker.py:1585-1608 | Running a finished selection again resumes everything with zero calls |
| Execution.CutRun | bench/business_topology/worker.py:1538-1703 | A run of the executor cut short after any event leaves a consistent disk, all finished work kept, untouched and uncalled |
| Execution.RunAcross | bench/business_topology/worker.py:1366-1668 | Over any number of runs with any selections, clients and faults, each cut short anywhere, what one run finished no later run loses, writes or asks the client for |
| Aliases.PaddedReads | bench/business_topology/worker.py:480-490 | A zero-padded numeral reads back as its number |
| Aliases.NumberedIs | bench/business_topology/worker.py:482-491 | The alias of an identifier is its prefix and the number of its last place in the list |
| Aliases.AliasesAreInjective | bench/business_topology/worker.py:477-491 | Different identifiers get different aliases of one width and prefix |
| Aliases.SortedIdsFacts | bench/business_topology/worker.py:478 | Populations are numbered in strictly ascending order, each once |
| Aliases.BeforeIsLess | bench/business_topology/worker.py:478 | One text precedes another where they first differ, or as its beginning |
| Aliases.SlotKeys | bench/business_topology/worker.py:563-573 | The keys under which a result names populations, and those under which it names work |
| Aliases.AliasesAreInverse | bench/business_topology/worker.py:464-474 | The reverse tables undo the forward ones and hold nothing else |
| Aliases.TextIsRestored | bench/business_topology/worker.py:558-575 | One text comes back exactly when it is admissible in its slot |
| Aliases.AliasRoundTrip | bench/business_topology/worker.py:494-503 | Expanding an aliased payload restores it, tuples as lists, exactly when every text is admissible in its slot |
| Aliases.IdentifiersComeBack | bench/business_topology/worker.py:549-580 | With no id in both roles, every population and dependency comes back in its slots, whatever ids look like |
| Aliases.SharedIdentifierIsLost | bench/business_topology/worker.py:464-466 | An id that is both a population and a dependency does not come back in a population slot |
| Aliases.OnlySlotsExpand | bench/business_topology/worker.py:552-575 | Expansion changes nothing but the texts of identifier slots |
| SqlBlanking.ReadOne | bench/rvbbit_route_model.py:66-112 | One turn of the loop is one step of the scanner, with at most one flag set |
| SqlBlanking.Stringless | bench/rvbbit_route_model.py:60-113 | The output has the input's length, no quote, `--` or `/*`, and is its own blanking |
| SqlBlanking.CodeKeepsPosition | bench/rvbbit_route_model.py:60-113 | Code characters keep their position; everything else is a space or a line end already there |
| SqlBlanking.BlankIsClean | bench/rvbbit_route_model.py:60-113 | Blanked text opens no literal or comment |
| SqlBlanking.CleanIsFixed | bench/rvbbit_route_model.py:60-113 | Text that opens nothing is left unchanged |
| SqlBlanking.LiteralToken | bench/rvbbit_route_model.py:86-95 | A string literal with doubled quotes becomes spaces and scanning goes on behind it |
| SqlBlanking.LineCommentToken | bench/rvbbit_route_model.py:69-76 | A line comment becomes spaces up to its line end, which stays |
| SqlBlanking.BlockCommentToken | bench/rvbbit_route_model.py:77-85 | A block comment becomes spaces and scanning goes on behind it |
| QueryShape.SplitTopLevelCommas | bench/rvbbit_route_model.py:171-191 | Joining the parts restores the input and every part splits into just itself |
| QueryShape.JoinOfSplit | bench/rvbbit_route_model.py:171-191 | Joining what was split restores the text, from any scanner state |
| QueryShape.PartsAreWhole | bench/rvbbit_route_model.py:171-191 | A part holds no top-level comma of its own |
| QueryShape.SplitOfJoin | bench/rvbbit_route_model.py:171-191 | Splitting what was joined from balanced whole parts restores the parts |
| QueryShape.ScanClause | bench/rvbbit_route_model.py:237-264 | The inner loop stops at the specified end of the clause |
| QueryShape.ClauseEndIsFirst | bench/rvbbit_route_model.py:241-264 | That end is the first unmatched parenthesis or end keyword at the clause's own level, or the end of the text |
| QueryShape.TopLevelFromClauses | bench/rvbbit_route_model.py:203-269 | Lists, for exactly the specified starts in order, what stands behind the keyword up to the end of its clause |
| QueryShape.StartsAreTopLevel | bench/rvbbit_route_model.py:216-268 | A clause starts at exactly the FROM keywords outside parentheses and quoted identifiers that lie in no earlier clause |
| QueryShape.StateAtClauseEnd | bench/rvbbit_route_model.py:237-267 | Restarting at the top level behind a clause agrees with the state of the whole text there |
| QueryShape.TopLevelIs | bench/rvbbit_route_model.py:216-235 | A position is at the top level after an even number of quotation marks, with nothing opened since that is not closed again |
| QueryShape.DepthIsHeight | bench/rvbbit_route_model.py:227-234 | The depth is how far the parentheses have risen since they were lowest |
| QueryShape.ParenthesesCount | bench/rvbbit_route_model.py:275-284 | A parenthesis counts where an even number of quotation marks stands in front of it |
| QueryShape.ClausesSit | bench/rvbbit_route_model.py:236-267 | There is one clause for each start, and it is what stands behind it |
| QueryShape.PairsAreMatched | bench/rvbbit_route_model.py:274-285 | The stack pairs exactly the parentheses that match by nesting height outside quoted identifiers |
| QueryShape.NestedAreMatched | bench/rvbbit_route_model.py:272-289 | The subqueries are exactly the stripped contents of matched parentheses that start like one |
| QueryShape.NestedIsShorter | bench/rvbbit_route_model.py:272-289 | A subquery is at least two characters shorter than its text |
| QueryShape.FindNestedSelects | bench/rvbbit_route_model.py:272-289 | The single pass with a stack finds exactly those subqueries |
| QueryShape.KeywordStandsAlone | bench/rvbbit_route_model.py:194-201 | A keyword stands where the text splits around it with no word character next to it |
| QueryShape.EndKeywords | bench/rvbbit_route_model.py:205-215 | The nine keywords that end a clause |
| QueryShape.WordChars | bench/rvbbit_route_model.py:199-201 | A word is made of letters, numerals and underscores |
| QueryShape.StripCutsSpaces | bench/rvbbit_route_model.py:286 | Stripping cuts white space off both ends and nothing else |
| QueryShape.SpaceIs | bench/rvbbit_route_model.py:286 | The white space of ASCII text |
| QueryShape.SubqueryWords | bench/rvbbit_route_model.py:287 | A subquery starts with one of two words standing alone |
| TableRefs.RefsAreNamed | bench/rvbbit_route_model.py:425-463 | A reference is found exactly when the patterns name it in a text the query reads: itself, a parenthesised FROM item or a subquery, and so on |
| TableRefs.LowerIs | bench/rvbbit_route_model.py:426 | Capital letters become the small ones, and every other character stays |
| TableRefs.ExtractTableRefs | bench/rvbbit_route_model.py:425-463 | The mutually recursive loops terminate, each call on a strictly shorter text, and return exactly those references |
| TableRefs.OnlyCodeIsRead | bench/rvbbit_route_model.py:426 | Queries with the same blanked text have the same references |
| TableRefs.BlankedHasSameRefs | bench/rvbbit_route_model.py:425-463 | Blanking a query first changes no reference found |
| RouteCurve.FastestFacts | bench/rvbbit_route_model.py:799-808 | The fastest and the runner-up are the least and next positive latencies, missing exactly when there are none |
| RouteCurve.ConfidenceFacts | bench/rvbbit_route_model.py:811-815 | The confidence lies in [0, 1) and is positive exactly for a strict winner |
| RouteCurve.GroupObservations | bench/rvbbit_route_model.py:844-858 | Files exactly the usable observations under their family and row count, in order |
| RouteCurve.BuildFamilies | bench/rvbbit_route_model.py:860-890 | Exactly the families with three row counts or more, with one median anchor per row count in rising order |
| RouteCurve.FamiliesAreCurves | bench/rvbbit_route_model.py:863-889 | Every family kept has rising anchors of at least two positive latencies |
| RouteCurve.FindBracket | bench/rvbbit_route_model.py:950-956 | Inside the anchor range a bracket exists and the first one is found |
| RouteCurve.ChooseFromCurve | bench/rvbbit_route_model.py:936-991 | Nothing outside the range; inside it the decision between the two bracketing anchors |
| RouteCurve.PredictionBetween | bench/rvbbit_route_model.py:963-971 | A prediction lies between the two anchors' values |
| RouteCurve.FasterThroughout | bench/rvbbit_route_model.py:966-971 | Faster at both anchors is faster at every row count between them |
| RouteCurve.CurveRespectsDominance | bench/rvbbit_route_model.py:958-991 | An engine other than the row store that is fastest at both anchors is the only possible choice, and is declined exactly under the stated confidence condition |
| RouteCurve.ChoiceIsFastestAllowed | bench/rvbbit_route_model.py:973-991 | Only the row store may be predicted faster than the choice, and then only by less than it needs |
| RouteRules.PredictionIsWeighted | bench/rvbbit_route_model.py:963-971 | A prediction is the average of the two anchors' values weighted by distance, and is the anchor's own value at an anchor |
| RouteRules.DecisionFollowsRules | bench/rvbbit_route_model.py:958-991 | The choice is the first enabled engine both anchors know, by prediction and then name, the row store dropped when it leads narrowly, if its margin is enough |
| RouteRules.RulesDecide | bench/rvbbit_route_model.py:958-991 | Those rules leave one decision |
| RouteRules.AnchorIsMedian | bench/rvbbit_route_model.py:860-890 | An anchor's latency of an engine is the median of all usable observations of it at that row count |
| RouteRules.AnchorRows | bench/rvbbit_route_model.py:844-858 | A family has an anchor at exactly the row counts it was usably observed at |

## Left out

- Ill-typed payloads: an entry of the wrong type is one "malformed" value; result envelopes are already unwrapped.
- ExcavationPlan.Validate: outbound-packet validation, the schema and corpus-id checks and the `split_group` scan are assumed to pass, because packets are not modelled.
- PairPool.BuildPool: which pairs blocking puts forward and how a pair is scored are arbitrary functions. The packets attached to the selected pairs are not modelled.
- PairPool.PoolPairsDistinct: the pair ids of the corpus' populations tell its pairs apart, exactly as `PairPool.PairIdsNamePairsExactly` says; a corpus where two pairs share an id, which the queue's closing validation refuses once both are selected, is not modelled.
- ScopeWork.PoolsAreGood: the same about pair ids.
- ExcavationPlan.Build: the same about pair ids.
- Frontier.Choose: the correspondence results and the motifs of a source's first motif result are inputs, as is the field a population stands for.
- CandidateQueue.Build: the pool is given, as distinct pairs of different populations; `PairPool` says when it is.
- SourceProposals.ProposeFrom: pooling population vectors into source vectors is left out, and arithmetic is exact, so floating-point ties and the rounding of reported thresholds are not modelled. The report of densities and means in a proposal is left out.
- Threshold.ForPrecision: the grid and the ratios are exact reals, so floating-point ties are not modelled.
- Execution.ExecutionStore.Open: the directory found is taken to belong to this plan; the refusals of a manifest with another schema, plan hash, worker or prompt version change nothing and are not modelled.
- Execution.ExecutionStore.RecordSuccess: a write either happens or leaves its file as it was; an error after the file is replaced, such as a failing change of its mode, is not modelled. One process at a time; callbacks do not raise; times and receipts' contents are left out.
- Execution.Generate: prompts, token limits and decoding are the client's; a reply is an arbitrary result or a failure, and which replies the other validators accept is a parameter.
- Execution.ExecutePlan: a bridge's neighbourhood results are taken to be the synthesis items among its dependencies.
- NeighborhoodResult.ValidateCoverage: names, node rules and the status rules of an abstained result are left out; each is settled by reading it.
- TableRefs.ExtractTableRefs: what the regular expressions recognise in one text or one FROM item is a parameter. Text is ASCII, and Python's recursion limit is not modelled.
- QueryShape.SplitTopLevelCommas: one character is read by a method of its own instead of a branch inside the loop.
- RouteCurve.ChooseFromCurve: the profile-entry fallback, the text of reasons and the environment behind enabled engines and minimum confidences are parameters or left out.
- RouteCurve.GroupObservations: merging the latency fields of one observation into positive latencies is given.
- ExcavationUnits.BuildUnits: summaries and the copied policy fields of a plan are left out, as are the ranks and lifts copied into a link and the scope kind, priority and stratum copied into a work item.
- Extraction from PostgreSQL, loaders, DuckDB, HTTP, reporting and the command line: I/O around the modelled logic.
