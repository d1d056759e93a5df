# A verified model of the memory engine's algorithms

This project models the algorithms and state machines at the heart of the memory engine and proves what
they are for. Each Dafny module follows one part of the source:

| module | what it models |
|---|---|
| `AssociationModel`, `ShortestPaths`, `Dependencies`, `BreadthFirstSearch`, `Betweenness` | the association graph and its depth-bounded betweenness centrality |
| `BoundedTraversal` | traversal of associations from one node, bounded by depth and node count |
| `ContradictionClusters` | connected groups of contradicting facts |
| `LabelPropagation`, `LabelConvergence`, `KnowledgeClusters` | communities of knowledge, why they settle, and their cohesion |
| `EditDistance`, `PairSearch`, `AliasDiscovery` | two-row edit distance and the filtered search for aliases |
| `BalancedJson` | the scanner that cuts a JSON value out of free text |
| `TemporalIds`, `TemporalReplay`, `Pagination`, `HistoricalReplay`, `MemorySync` | event ids, replay of the event log, reading it page by page, the two joined, and the change poller |
| `Compaction` | summarising and archiving turns while sessions go on inserting |
| `KnowledgeSelection`, `TokenTrimming` | choosing knowledge for a context and trimming the context to its budget |
| `EmbeddingCache`, `CircuitBreaker`, `BundleImport` | three small stateful machines |
| `AdjacencyMaps`, `FiniteSums`, `Sequences`, `Sorting`, `Wrappers` | adjacency maps built edge by edge, sums over finite sets, laws of filtering and totals, stable sorting, and the types for missing or failed results |

Loops of the source are loops here, proved against functions or predicates whose meaning is then proved by
lemmas. The storage adapter is represented by sequences and maps that follow the in-memory adapter
(`src/adapters/memory/index.ts`). Scores are real numbers, and text is a sequence of characters.

## What turned out to be false

Some things a reader would expect do not hold of the code. The code is kept as it is; each item names the
lemma that shows the failure and, where there is one, the lemma with the exact condition.

- The length filter of the alias search compares raw lengths, while similarity is computed on trimmed
  names. A name with surrounding space can be dropped although its similarity is 1
  (`AliasDiscovery.UntrimmedIsDropped`), and so can one name of white space beside a longer one
  (`AliasDiscovery.BlankIsDropped`). The filter is right about a pair exactly when its similarity is within
  the ratio of the raw lengths (`AliasDiscovery.PairTrustedIff`). Of two names that are trimmed or nothing
  but white space this fails exactly when both are white space of different length
  (`AliasDiscovery.CleanPairTrustedIff`). A name is safe with every trimmed one exactly when it is trimmed or
  nothing but white space, and safe with names of white space as well exactly when it is trimmed
  (`AliasDiscovery.FilterTrustedIffTrimmed`). A whole search is unharmed exactly when every pair is safe
  (`AliasDiscovery.FilterHarmlessIff`).
- Two different pairs of names can have one pair key (`AliasDiscovery.PairKeyCollision`). A key identifies
  its pair exactly when it cannot be read as an ordered pair at any other place
  (`AliasDiscovery.PairKeyInjective`); names without a bar always give such a key.
- The watermark of a replay is the id of the last event in the list it was given, not of the newest event
  (`TemporalReplay.WatermarkMayBeStale`). For a list in id order it is the newest
  (`TemporalReplay.WatermarkIsNewest`), and the lists the replay reads are of that kind
  (`HistoricalReplay.WatermarkOfCut`).
- Page sizes are not checked. With 0 or -1 the log reader returns nothing without an error
  (`Pagination.ZeroLimitSeesNothing`). A page is as it should be exactly when nothing is left, the size is
  positive, or it is at most -2 and more events are left than it cuts off at the back; any other is empty
  and final (`Pagination.PaginateEventsOk`).
- If the poller's first cursor request fails, the failed promise is kept, and over every later run no
  change is delivered (`MemorySync.Poller.CursorFails`, `MemorySync.Poller.Run`). That is the only way to
  get stuck: from every state in which it has not failed, answered requests alone bring the poller to where
  everything due is delivered (`MemorySync.Poller.CatchUp`).
- With a negative diversity penalty the recorded scores can rise along the selection
  (`KnowledgeSelection.NegativePenaltyRises`). They never rise exactly when the penalty is not negative, or
  the cap or the limit leaves no two picks (`KnowledgeSelection.NeverRisesIff`).
- A cached embedding can be evicted by the misses of the very call that asks for it
  (`EmbeddingCache.HitEvictedByMiss`). All answers are the generator's exactly when each text is among what
  is kept when its turn comes (`EmbeddingCache.AnsweredIffReady`), which for a cache within its bound means
  among the newest of the cached texts followed by the misses (`EmbeddingCache.AllAnsweredIff`).
- An empty text stops eviction, and the cache then grows by every further text
  (`EmbeddingCache.EmptyTextBlocksEviction`). The bound holds exactly when no empty text was touched, or
  fewer than the bound's number of different texts since (`EmbeddingCache.BoundKeptIff`).
- A half-open circuit admits every call until one of them finishes, so there is one probe exactly when at
  most one call starts (`CircuitBreaker.HalfOpenAdmitsAll`). From an open circuit the calls admitted before
  any finishes are exactly those that start after the timeout (`CircuitBreaker.OpenAdmitsTimedOut`).
- Overwriting on import can leave two active facts with the same normalised text
  (`BundleImport.TextRepeatedExample`). It does so exactly when another active fact already had the text
  (`BundleImport.OverwriteCanRepeatText`); no other outcome does (`BundleImport.OthersKeepTexts`).
- Importing the same bundle again with overwriting can import a fact anew (`BundleImport.OverwriteForgets`).
  Overwriting one fact loses another exactly when neither the new fact nor any other active one conflicts
  with it (`BundleImport.OverwriteKeepsRepresented`); over a chain of facts that overwrite each other the
  first comes back exactly when the last does not conflict with it (`BundleImport.OverwriteChain`). Where
  facts with one text are always in one slot it never happens (`BundleImport.SecondImport`).

## Model

| member | source | states |
|---|---|---|
| `ShortestPaths.DistUpToUnique` | src/core/discover.ts:144-183 | the bounded distance is pinned down by walk counts: it is the only level at which a walk exists and no shorter one does |
| `ShortestPaths.WalksAreWalks` | src/core/discover.ts:144-183 | the recursive set of walks of length k holds exactly the vertex sequences that step along edges |
| `ShortestPaths.SigmaRecurrence` | src/core/discover.ts:178-181 | the number of shortest paths to a node is the sum over its shortest-path predecessors |
| `BreadthFirstSearch.RelaxNeighbours` | src/core/discover.ts:172-183 | the inner loop relaxes every edge of the current node once, in order |
| `BreadthFirstSearch.VisitNext` | src/core/discover.ts:164-184 | one turn of the queue loop keeps every part of the search invariant |
| `BreadthFirstSearch.BoundedSearch` | src/core/discover.ts:145-184 | the forward pass ends exact: distances, predecessor lists, path counts and a stack of the reached nodes in distance order |
| `BreadthFirstSearch.DistIsExact` | src/core/discover.ts:169-177 | a finished search records the shortest distance, or -1 beyond the depth bound |
| `BreadthFirstSearch.PredIsExact` | src/core/discover.ts:178-181 | the predecessor list holds exactly the neighbours one level nearer the source |
| `BreadthFirstSearch.SigmaIsExact` | src/core/discover.ts:178-181 | the recorded count is the number of shortest paths |
| `Dependencies.ThroughBySuccessor` | src/core/discover.ts:186-192 | a shortest path through v to a deeper target passes through exactly one shortest-path successor of v |
| `Dependencies.DependencyRecurrence` | src/core/discover.ts:186-192 | Brandes' theorem: the sum over all targets of the fraction of shortest paths through v equals the sum of its successors' shares |
| `Dependencies.DependencyBounds` | src/core/discover.ts:186-192 | a node other than the source carries between nothing and every target but itself and the source |
| `Dependencies.LevelConservation` | src/core/discover.ts:186-192 | the dependencies of one level add up to the number of reached nodes that lie deeper |
| `Betweenness.PassBack` | src/core/discover.ts:189-192 | passing one node's dependency back credits each predecessor its share and nobody else |
| `Betweenness.Accumulate` | src/core/discover.ts:186-196 | the backward pass adds the true dependency of every node but the source to its score |
| `Betweenness.SumOverSources` | src/core/discover.ts:144-197 | after all sources the score of v is the sum over the other sources of v's dependency |
| `Betweenness.ComputeBetweennessCentrality` | src/core/discover.ts:136-206 | the whole computation returns the normalised sum of fractions of shortest paths within the depth bound |
| `Betweenness.CentralityRange` | src/core/discover.ts:198-204 | every normalised centrality lies between 0 and 1/2 |
| `Betweenness.HalfIffBetweenAll` | src/core/discover.ts:198-204 | of three or more nodes one scores 1/2 exactly when every two others are joined within the bound and all their shortest paths pass through it |
| `Betweenness.StarCentre` | src/core/discover.ts:198-204 | so the centre of a star with two or more leaves scores 1/2 |
| `Betweenness.BuildAdjacency` | src/core/discover.ts:114-131 | the nodes are the associations' ends, and neighbours are exactly the pairs some association joins, in both directions |
| `BoundedTraversal.BallIsPathDistance` | src/core/associations.ts:57-94 | the ball of radius k is exactly the nodes some path of at most k steps reaches |
| `BoundedTraversal.ExamineAll` | src/core/associations.ts:66-93 | all associations of the current node are followed in order, each recorded once, until the node bound is met |
| `BoundedTraversal.Visit` | src/core/associations.ts:57-94 | one turn of the outer loop keeps levels, closure of finished nodes and the edge rules, and makes progress |
| `BoundedTraversal.Traverse` | src/core/associations.ts:51-96 | the result is the exact ball with every association touching a node below the depth bound, or a closest-first cut at the node bound |
| `BoundedTraversal.TraverseAssociations` | src/core/associations.ts:26-110 | bad ids and bounds are errors, bounds not given are 2 and 20, a bound of 0 nodes gives nothing, and otherwise the traversal is the bounded ball |
| `BoundedTraversal.IsClosestFirst` | src/core/associations.ts:57-94 | no node left out is nearer to the start than a node taken in |
| `BoundedTraversal.IsComplete` | src/core/associations.ts:57-94 | below the node bound nothing within reach is missing |
| `ContradictionClusters.ConnectedIsEquivalence` | src/core/knowledge-lint.ts:146-160 | joined by a path of usable contradictions is an equivalence |
| `ContradictionClusters.BuildAdjacency` | src/core/knowledge-lint.ts:134-144 | the adjacency map is exactly the relation of usable contradictions, without repeats, with its keys in order of first appearance |
| `ContradictionClusters.Explore` | src/core/knowledge-lint.ts:151-160 | the stack loop ends although nodes are pushed repeatedly, and returns exactly the component of its root |
| `ContradictionClusters.CheckContradictionClusters` | src/core/knowledge-lint.ts:127-173 | two ids share a cluster exactly when they differ and a path joins them, and no id appears twice |
| `AdjacencyMaps.FirstAppearancesMeaning` | src/core/cluster.ts:80-86 | the nodes are listed in order of first appearance: none lost, none twice, and those that appear up to any place come first |
| `LabelPropagation.ToInt32` | src/core/cluster.ts:96-99 | the conversion to 32 bits of the shuffle's index: in range, and the same number modulo 2 to the power 32 |
| `LabelPropagation.SwapIndexMeaning` | src/core/cluster.ts:93-99 | the partner of position i is the size, modulo i + 1, of the 32-bit number congruent to the seeded sum |
| `LabelPropagation.ShuffleExample` | src/core/cluster.ts:93-101 | in the first round three nodes come out in reverse |
| `LabelPropagation.Shuffle` | src/core/cluster.ts:94-101 | the in-place shuffle performs exactly the seeded swaps |
| `LabelPropagation.ShuffledPermutes` | src/core/cluster.ts:94-101 | the shuffle loses and repeats nothing |
| `LabelPropagation.VisitsEveryNode` | src/core/cluster.ts:94-103 | every round visits each node as often as it is listed, although rounds shuffle the order of the round before |
| `LabelPropagation.ChooseLabel` | src/core/cluster.ts:107-122 | the label chosen is the smallest of the neighbours' most frequent labels |
| `LabelPropagation.Relabel` | src/core/cluster.ts:103-127 | a visit gives the node its best label and leaves all others, and reports a change exactly when there is one |
| `LabelPropagation.Sweep` | src/core/cluster.ts:103-128 | a sweep is the chain of its visits, and changes nothing only if every node held its best label |
| `LabelPropagation.Propagate` | src/core/cluster.ts:78-134 | the labels are those of the run that ends at the first unmoving round or after twenty; labels stay in their component, and an unmoving round leaves every node settled |
| `LabelPropagation.RunIsDeterministic` | src/core/cluster.ts:73-76 | a graph and an order of its nodes allow one outcome only |
| `LabelConvergence.AgreementChange` | src/core/cluster.ts:107-126 | changing a node's label changes the number of linked pairs that agree by the difference of the neighbours with the two labels |
| `LabelConvergence.VisitRises` | src/core/cluster.ts:107-126 | without loops every change of a label raises the number of agreeing pairs, or keeps it and lowers a label |
| `LabelConvergence.RoundsEnd` | src/core/cluster.ts:90-131 | the number of moving rounds is bounded by the graph and the spread of its ids, so the rounds would end without the limit of twenty |
| `LabelConvergence.LabelsNeverRepeat` | src/core/cluster.ts:90-131 | the labels before any two rounds differ, but for a last round that moves nothing |
| `LabelConvergence.SmallGraphsSettle` | src/core/cluster.ts:78-131 | a graph whose bound is below twenty always ends settled |
| `KnowledgeClusters.GroupByLabel` | src/core/cluster.ts:153-158 | the groups are the label classes, and the labels come in the order of their first appearance |
| `KnowledgeClusters.DegreeSumIsTwicePairs` | src/core/cluster.ts:179-193 | the degrees inside a group add up to twice the number of linked pairs |
| `KnowledgeClusters.BuildCluster` | src/core/cluster.ts:173-213 | the halved degree sum is the number of linked pairs, and cohesion lies between 0 and 1 |
| `KnowledgeClusters.CohesionMeaning` | src/core/cluster.ts:201-204 | cohesion is the share of possible pairs that are linked, 1 exactly when all are and 0 if there is none |
| `KnowledgeClusters.ComputeClusters` | src/core/cluster.ts:39-221 | two different nodes are neighbours exactly when a usable association joins them, loops counting for nothing, and the clusters are exactly the large enough label classes of the propagation over them, pairwise disjoint, each inside one component, with true link counts |
| `EditDistance.LevenshteinDistance` | src/core/aliases.ts:165-188 | the two swapped rows compute the full edit-distance table's last entry |
| `EditDistance.DistanceIsLeast` | src/core/aliases.ts:165-188 | the distance is the least number of single-character edits between the texts |
| `EditDistance.DistanceIsMetric` | src/core/aliases.ts:165-188 | identity, symmetry and the triangle inequality |
| `EditDistance.DistanceBounds` | src/core/aliases.ts:273-274 | the distance lies between the difference and the maximum of the lengths |
| `AliasDiscovery.NormalizedStringSimilarity` | src/core/aliases.ts:154-163 | similarity is 1 exactly for equal normalised names, 0 against an empty one, and else 1 minus the relative distance |
| `AliasDiscovery.SimilarityRange` | src/core/aliases.ts:149-163 | similarity lies between 0 and 1, and is 1 only for equal texts |
| `AliasDiscovery.SimilarityAtMostRatio` | src/core/aliases.ts:273-274 | similarity never exceeds the shorter length over the longer |
| `AliasDiscovery.FilterIsSafe` | src/core/aliases.ts:273-279 | for names whose length normalising keeps, the length filter drops no pair that reaches the threshold |
| `AliasDiscovery.UntrimmedIsDropped` | src/core/aliases.ts:273-276 | every untrimmed name that is more than white space has a non-empty partner of similarity 1 that the filter drops |
| `AliasDiscovery.BlankIsDropped` | src/core/aliases.ts:273-276 | every name of white space has a longer such partner of similarity 1 that the filter drops |
| `AliasDiscovery.PairTrustedIff` | src/core/aliases.ts:273-279 | no threshold makes the filter drop a wanted pair exactly when its similarity is within the ratio of the raw lengths |
| `AliasDiscovery.CleanPairTrustedIff` | src/core/aliases.ts:273-279 | for names that are trimmed or nothing but white space this holds exactly unless both are white space of different length |
| `AliasDiscovery.FilterTrustedIffTrimmed` | src/core/aliases.ts:273-276 | the filter never drops a wanted pair of this name and a non-empty trimmed one exactly when the name is trimmed or nothing but white space, and with partners of white space as well exactly when it is trimmed |
| `AliasDiscovery.FilterHarmlessIff` | src/core/aliases.ts:260-294 | filtered and unfiltered search return the same, whatever the options, exactly when the filter is right about every pair of the list |
| `AliasDiscovery.PairKeySymmetric` | src/core/aliases.ts:296-298 | the key of a pair does not depend on its order |
| `AliasDiscovery.PairKeyInjective` | src/core/aliases.ts:296-298 | a key identifies its unordered pair exactly when no other place in it holds the separator between two texts in order |
| `AliasDiscovery.NoBarOneReading` | src/core/aliases.ts:296-298 | names without a bar always give such a key |
| `AliasDiscovery.PairKeyCollision` | src/core/aliases.ts:296-298 | otherwise two different pairs can share a key, with the whole separator in a name or a single bar |
| `AliasDiscovery.DiscoverAliasCandidates` | src/core/aliases.ts:260-294 | the double loop, sort and cut return the best accepted pairs |
| `AliasDiscovery.CanonicalIsLonger` | src/core/aliases.ts:194-197 | the suggested name is the longer one, of two of one length the one lower in lower case, whatever their order |
| `AliasDiscovery.CandidateMeaning` | src/core/aliases.ts:260-294 | every candidate is a pair of the names that differ in lower case, are not known as aliases and reach the threshold, with its true similarity and the longer of the two |
| `AliasDiscovery.PairIsFound` | src/core/aliases.ts:260-294 | and every such pair is found if there is room for all and the length filter lets it through |
| `AliasDiscovery.FilteredSearchAgrees` | src/core/aliases.ts:260-294 | for names that are trimmed or nothing but white space the filtered search returns what an unfiltered one would, exactly when those of white space have one length |
| `PairSearch.BestIsTop` | src/core/aliases.ts:291-293 | results fall in similarity, and an accepted pair is missing only when the result is full of pairs at least as similar |
| `BalancedJson.ExtractBalancedJson` | src/core/playbook.ts:62-114 | the two loops return what the bracket-counting machine accepts first, or nothing |
| `BalancedJson.ScannerInvertsPrinter` | src/core/playbook.ts:62-114 | for every JSON object or array, any text before it without brackets and any text after it, scanning gives back exactly the printed value |
| `BalancedJson.PrintedText` | src/core/playbook.ts:62-114 | what the printer prints for a string with a bracket, an escaped quote and a code in it |
| `BalancedJson.PrintedItem` | src/core/playbook.ts:62-114 | the printer puts a comma before each item but the first |
| `BalancedJson.PrintedMember` | src/core/playbook.ts:62-114 | and prints each member with its quoted name and a colon |
| `BalancedJson.ValueNeutral` | src/core/playbook.ts:81-112 | any printed value leaves the scanner's depth and string state as they were |
| `BalancedJson.TruncatedYieldsNothing` | src/core/playbook.ts:81-113 | a value cut short is never returned |
| `BalancedJson.OtherKindIgnored` | src/core/playbook.ts:102-107 | put anywhere after the first bracket, not straight after a backslash in a string, a bracket of the other kind leaves the value found the same but for itself |
| `BalancedJson.MismatchAccepted` | src/core/playbook.ts:102-107 | so a text that is not JSON can be accepted |
| `TemporalIds.NormalFormIsCanonical` | src/contracts/temporal.ts:85-104 | normalising twice changes nothing, and one integer has one normal form |
| `TemporalIds.CanonicalTextKept` | src/contracts/temporal.ts:96-102 | text that is already canonical is left alone |
| `TemporalIds.SpaceCodes` | src/contracts/temporal.ts:97-97 | the white space that is trimmed, code by code |
| `TemporalIds.TrimMeaning` | src/contracts/temporal.ts:96-101 | trimming takes away the white space at both ends and nothing else |
| `TemporalIds.ComparisonIsNumeric` | src/contracts/temporal.ts:106-112 | comparing ids is comparing the integers they stand for, and fails only where one stands for none |
| `TemporalReplay.FoldTemporalState` | src/core/temporal.ts:221-331 | the fold goes over the events in id order with the effect each kind has; each of the nine fields holds exactly the rows of its own kind that the session admits, in its own order, and the watermark is the last event's id |
| `TemporalReplay.StepRefines` | src/core/temporal.ts:244-298 | if the tables agree with the live store before a write, they agree with it after the fold has taken the write's event |
| `TemporalReplay.EventStore.Put` | src/contracts/temporal.ts:37-42 | a write stores the row, logs its full snapshot under a new id and extends the history |
| `TemporalReplay.EventStore.Remove` | src/contracts/temporal.ts:37-42 | a deletion removes the row and logs the deletion |
| `TemporalReplay.EventStore.Audit` | src/contracts/temporal.ts:49-65 | an audit event changes no table |
| `TemporalReplay.ReplayRefinesLive` | src/contracts/temporal.ts:25-47 | after any number of writes, replaying the log so far gives the live tables of that moment |
| `TemporalReplay.ReplayAtWatermark` | src/core/manager.ts:1503-1512 | whatever order the events arrive in, folding those up to an id gives the live tables right after it |
| `TemporalReplay.FoldIsLive` | src/core/temporal.ts:221-331 | for the events of a store, in whatever order, each field holds the live rows of its kind |
| `TemporalReplay.ReplayedListing` | src/core/temporal.ts:300-330 | each listing of such a replay holds exactly the wanted live rows of that moment, in order |
| `TemporalReplay.ListIsExact` | src/core/temporal.ts:300-330 | a listing is sorted and holds each wanted row once for every key that has it |
| `TemporalReplay.OrderIrrelevant` | src/core/temporal.ts:237-240 | the order of the input list never matters to what is rebuilt |
| `TemporalReplay.UnknownKindsIgnored` | src/contracts/temporal.ts:74-79 | dropping all events of kinds replay does not know changes no table |
| `TemporalReplay.WatermarkMayBeStale` | src/core/temporal.ts:329-329 | an input whose watermark is not the newest id |
| `TemporalReplay.WatermarkIsNewest` | src/core/temporal.ts:329-329 | for a list in id order the watermark is the newest id |
| `TemporalReplay.NormalizeTwice` | src/core/temporal.ts:333-346 | normalising at one moment and then another is normalising at the later one |
| `TemporalReplay.ClaimAsOf` | src/core/temporal.ts:78-88 | a claim comes out expired exactly if it was, or was active and its time is not later than the moment; what else changes |
| `TemporalReplay.HandoffAsOf` | src/core/temporal.ts:90-99 | a handoff comes out expired exactly if it was, or was pending with a time not later than the moment; what else changes |
| `TemporalReplay.NormalizedFields` | src/core/temporal.ts:333-346 | normalising changes the claims and handoffs so, puts them back in order and leaves the other fields |
| `TemporalReplay.PlaybooksCounted` | src/core/temporal.ts:280-293 | every replayed playbook has a revision count |
| `TemporalReplay.OldPlaybook` | src/core/temporal.ts:280-293 | a playbook logged without a count is replayed with 0, and any other as logged |
| `HistoricalReplay.BuildReplayedState` | src/core/manager.ts:1493-1516 | whatever the page size, the replay of a log within the cap is that of its events up to the given id, field by field, with claims and handoffs as they stand at the moment, and a longer log is an error |
| `HistoricalReplay.ReplayedIsLive` | src/core/manager.ts:1493-1516 | the tables so rebuilt are the live tables right after the last write the cut lets through |
| `HistoricalReplay.ListingIsLive` | src/core/manager.ts:1493-1516 | each listing so rebuilt holds exactly the wanted live rows of that moment, in order |
| `HistoricalReplay.RebuiltIsLive` | src/core/manager.ts:1493-1516 | so each field of the rebuilt state holds the live rows of its kind right after the last write the cut lets through |
| `HistoricalReplay.WatermarkOfCut` | src/core/manager.ts:1503-1512 | for lists read page by page and cut at an id the watermark is the newest id the cut lets through |
| `Pagination.AccumulateMemoryEvents` | src/core/temporal.ts:119-142 | against any server keeping the page contract the loop ends with every matching event once and in order exactly when there are at most the cap, and else with an error |
| `Pagination.PaginateEventsOk` | src/adapters/memory/index.ts:316-333 | for any page size, negative ones too, the in-memory server keeps the page contract exactly when none is left or the size leaves an event on the page, and else answers an empty final page; with a positive size the page holds the next events up to it, and names a cursor exactly when more are left |
| `Pagination.ZeroLimitSeesNothing` | src/adapters/memory/index.ts:325-331 | with a page size of 0 or -1 the first page is empty and final |
| `MemorySync.MaterializeKnowledgeChanges` | src/core/manager.ts:1370-1397 | the loop keeps exactly the knowledge changes that resolve to a record, in order |
| `MemorySync.MaterializeSnapshots` | src/core/manager.ts:1370-1397 | a change with a snapshot goes out as that snapshot, with the id and type of its event |
| `MemorySync.DueIsSnapshots` | src/core/manager.ts:1353-1397 | what is due are the logged snapshots of the knowledge events other than touches, in id order, if each has one |
| `MemorySync.DueIgnoresLookup` | src/core/manager.ts:1381-1385 | so the records as they are by now make no difference to what is due |
| `MemorySync.WithoutSnapshot` | src/core/manager.ts:1381-1386 | a change without snapshot goes out with the record as it is now, or not at all |
| `MemorySync.Poller.Append` | src/core/sync.ts:17-36 | log writes at any moment neither change what was delivered nor unsettle a page on its way |
| `MemorySync.Poller.Tick` | src/core/sync.ts:17-23 | a tick during a poll does nothing, and after a failed first cursor neither does any later one |
| `MemorySync.Poller.CursorResolves` | src/core/sync.ts:21-24 | the first cursor starts the stream |
| `MemorySync.Poller.CursorFails` | src/core/sync.ts:21-35 | the failed promise is kept |
| `MemorySync.Poller.PageServed` | src/core/manager.ts:1418-1432 | the server answers from the log as it is then |
| `MemorySync.Poller.PageFails` | src/core/sync.ts:33-35 | a failed fetch delivers nothing and leaves the cursor |
| `MemorySync.Poller.PageArrives` | src/core/sync.ts:25-32 | one batch with exactly the page's changes goes out, and everything delivered so far is exactly what was due between the first and the current cursor |
| `MemorySync.Poller.Run` | src/core/sync.ts:17-36 | over any run of writes, ticks, answers and failures what was delivered is exactly what was due, and after a failed first cursor nothing ever is |
| `MemorySync.Poller.CatchUp` | src/core/sync.ts:17-36 | unless the first cursor has failed, from any state ticks and answers alone, with any positive page size, end with everything delivered that was due from the first cursor to the newest entry |
| `MemorySync.DueGrows` | src/core/manager.ts:1418-1447 | moving the cursor over a page adds exactly the page's changes to what is due |
| `MemorySync.CaughtUp` | src/core/manager.ts:1434-1447 | after a page that names no next cursor nothing in the log it was read from is left to deliver |
| `Compaction.TurnStore.InsertTurn` | src/adapters/memory/index.ts:431-461 | an insert appends a turn with a new id, whatever compactions are running |
| `Compaction.TurnStore.Begin` | src/core/manager.ts:1790-1798 | a compaction is given the session's active turns |
| `Compaction.TurnStore.Abandon` | src/core/manager.ts:1566-1593 | a failing summariser leaves everything as it was |
| `Compaction.TurnStore.ArchiveTurn` | src/adapters/memory/index.ts:514-521 | archiving marks exactly the turn with that id |
| `Compaction.TurnStore.Commit` | src/core/orchestrator.ts:880-922 | all but the newest retained turns of those given are archived under one summary; too few is an error that changes nothing |
| `Compaction.TurnStore.CommitCompaction` | src/core/orchestrator.ts:749-878 | summary, log entry and archive marks are written together and describe the same turns |
| `Compaction.TurnStore.MakeSummary` | src/core/orchestrator.ts:775-823 | the range, counts and token sum are those of the turns given |
| `Compaction.RangeReadsBack` | src/core/orchestrator.ts:1042-1047 | in every reachable store, reading archived turns by a summary's range gives exactly the turns it summarised |
| `Compaction.ArchivedBelowActive` | src/core/orchestrator.ts:897-917 | every archived turn of a session is older than every active one |
| `Compaction.RangesFollow` | src/core/orchestrator.ts:775-780 | the ranges of one session never overlap and follow each other |
| `Compaction.NothingLost` | src/core/orchestrator.ts:781-784 | compacted plus active is everything ever inserted, in turns and in tokens |
| `Compaction.CommitConsistent` | src/core/orchestrator.ts:749-878 | committing keeps every session's transcript equal to its summaries' turns followed by its active turns |
| `KnowledgeSelection.SelectKnowledge` | src/core/context.ts:792-865 | the selection is the greedy run: each pick is the first of the best eligible candidates, up to the limit, with its true penalty and score recorded |
| `KnowledgeSelection.FindBest` | src/core/context.ts:807-837 | the inner loop finds the first best eligible candidate, or that there is none |
| `KnowledgeSelection.DiversityPenalty` | src/core/context.ts:814-828 | the penalty counts the selected candidates of the same type and of the same slot |
| `KnowledgeSelection.PenaltyMeaning` | src/core/context.ts:814-828 | the penalty is due once for each one selected of the same type and once for each with the same slot key, if there is one |
| `KnowledgeSelection.SelectionSize` | src/core/context.ts:806-841 | the size is the smaller of the limit and the sum over types of the capped counts |
| `KnowledgeSelection.ScoresNeverRise` | src/core/context.ts:830-856 | with a penalty that is not negative the recorded scores never rise |
| `KnowledgeSelection.NegativePenaltyRises` | src/core/context.ts:814-830 | under every negative penalty, with a cap of at least 1 and a limit of at least 2, two equal candidates of one slot come out rising |
| `KnowledgeSelection.NeverRisesIff` | src/core/context.ts:806-856 | no candidates give rising scores exactly when the penalty is not negative, the cap is below 1 or the limit below 2 |
| `KnowledgeSelection.PicksAndRest` | src/core/context.ts:843-845 | picks and rest together are always the candidates |
| `TokenTrimming.LowestIndex` | src/core/context.ts:726-731 | the turn dropped is the first of the lowest by priority, then by age |
| `TokenTrimming.DroppedTurnIsLowest` | src/core/context.ts:726-731 | no turn kept has a smaller priority than the one dropped, or the same and a smaller time, or the same of both and an earlier place |
| `TokenTrimming.DroppedPlaybookIsLargest` | src/core/context.ts:1219-1239 | no playbook kept has a larger estimate of title, description and instructions, and one as large stands later |
| `TokenTrimming.TrimContext` | src/core/context.ts:1171-1266 | the six loops end at the first context of the drop order that fits, with its true estimate |
| `TokenTrimming.FirstThatFits` | src/core/context.ts:1185-1266 | no earlier context along the drop order fits, and only the end of the order may not fit |
| `TokenTrimming.FitsIfAnyDoes` | src/core/context.ts:1185-1266 | if any context along the order fits, the result does |
| `TokenTrimming.OrderRespected` | src/core/context.ts:1185-1266 | a category loses something only when all categories before it have nothing left to lose |
| `TokenTrimming.CriticalsSurvive` | src/core/context.ts:1205-1218 | critical invariants survive whatever the budget, in their order |
| `TokenTrimming.NoCriticalDropped` | src/core/context.ts:1205-1218 | no invariant whose severity is critical is dropped |
| `TokenTrimming.DroppedInvariantIsLast` | src/core/context.ts:1205-1218 | the invariant dropped is the last whose severity is not critical |
| `TokenTrimming.KeptPlusDropped` | src/core/context.ts:1185-1239 | every turn, invariant and playbook is either kept or named as dropped |
| `TokenTrimming.TailsDropped` | src/core/context.ts:1198-1262 | summaries and knowledge keep a prefix, and the trace names what followed it, last first |
| `TokenTrimming.RelevantIsCoreThenTask` | src/core/context.ts:1250-1262 | relevant knowledge stays the trusted core and then the knowledge chosen for relevance |
| `TokenTrimming.DropSavesItsTokens` | src/core/context.ts:691-724 | a drop lowers the estimate by exactly the tokens of what it drops |
| `TokenTrimming.EstimateCountsEachText` | src/core/context.ts:691-724 | the estimate is the turns' own estimates and the estimate of every other text shown, each counted once |
| `TokenTrimming.TrimmingNeverAdds` | src/core/context.ts:1171-1266 | with estimates that are never negative, trimming never raises the total |
| `TokenTrimming.BudgetMetIff` | src/core/context.ts:1171-1266 | with such estimates the budget is met exactly when it holds the working memory and the critical invariants |
| `EmbeddingCache.BatchedGenerate` | src/embeddings/resilience.ts:27-41 | batches of any size give what one call would have given |
| `EmbeddingCache.CachedGenerator.TouchText` | src/embeddings/resilience.ts:49-57 | a touch moves the text to the newest place and evicts from the oldest |
| `EmbeddingCache.CachedGenerator.Generate` | src/embeddings/resilience.ts:59-75 | a call inserts its distinct misses in order, then reads and touches every text in order |
| `EmbeddingCache.AnswersAreSound` | src/embeddings/resilience.ts:59-75 | an answer is the generator's vector or empty, whatever was cached before |
| `EmbeddingCache.AnsweredIffReady` | src/embeddings/resilience.ts:59-75 | the first n answers of a call are the generator's exactly when each text is, at its turn, among what is kept of the cached texts, the misses and the texts read before |
| `EmbeddingCache.AllAnsweredIff` | src/embeddings/resilience.ts:59-75 | while reading evicts nothing, all answers are the generator's exactly when each text is among the newest of the cached texts followed by the misses |
| `EmbeddingCache.RoomForAll` | src/embeddings/resilience.ts:60-74 | so they all are if the cached texts and the misses fit together |
| `EmbeddingCache.HitEvictedByMiss` | src/embeddings/resilience.ts:60-74 | room for the texts of one call is not enough |
| `EmbeddingCache.CallKeepsRecent` | src/embeddings/resilience.ts:43-76 | over any calls the cache holds exactly the most recently touched texts: the newest maxEntries, and all down to an empty text if that lies further back |
| `EmbeddingCache.NewCacheHoldsRecent` | src/embeddings/resilience.ts:43-47 | as the empty cache does at first |
| `EmbeddingCache.RecentIsSettled` | src/embeddings/resilience.ts:43-76 | a cache that holds the most recent texts keeps all it holds, as the exact conditions on answers ask |
| `EmbeddingCache.BoundKeptIff` | src/embeddings/resilience.ts:52-56 | the cache is within its bound exactly when no empty text was touched, or its place from the newest is within the bound |
| `EmbeddingCache.EmptyTextBlocksEviction` | src/embeddings/resilience.ts:53-54 | after an empty text any number of different texts are all kept, whatever the bound |
| `CircuitBreaker.CircuitBreaker.Start` | src/core/circuit-breaker.ts:41-47 | a call is refused exactly while the circuit is open and the timeout has not passed, and otherwise may turn it half open |
| `CircuitBreaker.CircuitBreaker.Succeed` | src/core/circuit-breaker.ts:49-53 | success closes the circuit and clears the count |
| `CircuitBreaker.CircuitBreaker.Fail` | src/core/circuit-breaker.ts:54-61 | failure counts, and opens the circuit at the threshold or when half open |
| `CircuitBreaker.ClosedExactlyBelowThreshold` | src/core/circuit-breaker.ts:25-62 | over every interleaving the circuit is closed exactly while failures are below the threshold, if and only if the threshold is at least 1 |
| `CircuitBreaker.HalfOpenIsBeyondThreshold` | src/core/circuit-breaker.ts:54-61 | so in every run a failure while half open reaches the threshold by its count alone |
| `CircuitBreaker.HalfOpenAdmitsAll` | src/core/circuit-breaker.ts:41-47 | once half open, every call is admitted until one finishes: one probe exactly when at most one starts |
| `CircuitBreaker.OpenAdmitsTimedOut` | src/core/circuit-breaker.ts:32-47 | from an open circuit, before any call finishes, exactly the calls that start after the timeout are admitted |
| `CircuitBreaker.ShownPredictsAdmission` | src/core/circuit-breaker.ts:36-47 | in every run the state shown is closed while failures are below the threshold, half open when a call would be admitted as a probe, and open when it would be refused |
| `CircuitBreaker.ProbeRate` | src/core/circuit-breaker.ts:32-61 | with failing calls one by one at most span over timeout of them run within the span after opening |
| `BundleImport.ImportBundle` | src/core/bundles.ts:168-242 | the loops leave the table and counts that importing fact by fact gives, and add exactly the playbooks with new titles |
| `BundleImport.ConflictMeaning` | src/core/bundles.ts:82-101 | a conflict is an active fact in the same slot, or with the same text when no one is in the slot |
| `BundleImport.OutcomeMeaning` | src/core/bundles.ts:103-116 | a fact is imported exactly when nothing is in conflict; trust_higher overwrites exactly a fact of less trust, and else skips |
| `BundleImport.ImportedRow` | src/core/bundles.ts:118-145 | an imported or overwriting fact becomes the newest active row, with its content, and trust and state as the option says |
| `BundleImport.ConflictingRow` | src/core/bundles.ts:194-222 | only the conflicting row changes: overwriting retires it, merging lifts its trust to the higher of the two |
| `BundleImport.AddedMeaning` | src/core/bundles.ts:225-239 | a title of the bundle is added, once, exactly when no draft or active playbook of the store has it |
| `BundleImport.CountsAddUp` | src/core/bundles.ts:175-224 | each fact of the bundle has exactly one outcome |
| `BundleImport.ImportKeepsSlots` | src/core/bundles.ts:180-224 | no import leaves two active facts in one slot |
| `BundleImport.ActiveGrowsByImported` | src/core/bundles.ts:180-224 | the number of active facts grows by exactly the number reported as imported |
| `BundleImport.SecondImport` | src/core/bundles.ts:180-222 | importing again with skip or merge, or in any way where slots follow texts, imports exactly the facts without slot key and text |
| `BundleImport.OverwriteKeepsRepresented` | src/core/bundles.ts:203-212 | overwriting leaves a fact in conflict with the table exactly when the new fact or another active one conflicts with it |
| `BundleImport.OverwriteChain` | src/core/bundles.ts:203-212 | after a chain of facts that overwrite each other the first would be imported again exactly when the last does not conflict with it |
| `BundleImport.OverwriteForgets` | src/core/bundles.ts:203-212 | a bundle whose second import does so |
| `BundleImport.SecondSkipChangesNothing` | src/core/bundles.ts:196-202 | with skip the second import of keyed facts changes nothing |
| `BundleImport.SecondPlaybooks` | src/core/bundles.ts:225-239 | the second import adds no playbook exactly when each title of the bundle was listed before or has a draft or active playbook first, as when all are draft or active |
| `BundleImport.OverwriteCanRepeatText` | src/core/bundles.ts:203-212 | overwriting repeats a text exactly when another active fact already had it |
| `BundleImport.OthersKeepTexts` | src/core/bundles.ts:184-222 | importing, skipping and merging never repeat a text |
| `BundleImport.TextRepeatedExample` | src/core/bundles.ts:200-212 | a table where overwriting repeats one |

## Left out

- Storage adapters beyond the in-memory one, SQL, full-text and vector search: stores are sequences and maps here.
- Scope and tenant filtering, visibility classes: every model works on the records one scope sees.
- Summarisers, extractors, embedding providers, servers and the command line: their results are parameters.
- Floating-point rounding: scores, similarities and centralities are real numbers.
- Sorting routines: `sort` is modelled by a stable insertion sort with the same comparison.
- AliasDiscovery.DiscoverAliasCandidates: does not model the collection of names from facts or the reverse lookup of known aliases; both are inputs. Lower-casing and white space are parameters that work character by character, so case changes that alter a text's length are not covered.
- BreadthFirstSearch.BoundedSearch: an infinite depth bound is any bound of at least the number of nodes.
- Surprise scores, bridge classification and explanations of discovery: weighted sums and text.
- KnowledgeClusters.ComputeClusters: does not model the top facts of a cluster, the ordering of members and clusters, or the relationships between clusters.
- LabelPropagation.SwapIndex: exact integers; the source's double arithmetic agrees while positions stay below about two million.
- BalancedJson.ScannerInvertsPrinter: the printer may use any white space and any escapes; parsing of the extracted text is not modelled.
- TemporalIds.NormalizeTemporalId: ids given as JavaScript numbers are not modelled (from 10 to the power 21 on their text has an exponent and can no longer be compared); big integers and text are.
- TemporalReplay.FoldTemporalState: payloads are records with the fields replay reads.
- HistoricalReplay.BuildReplayedState: the events served are all those of the log; the selection by creation time that the query adds is not modelled.
- MemorySync.Poller.PageArrives: handlers do not throw and the live lookup for events without snapshot is a fixed function; normalising the delivered scope fields is not modelled. Ids become visible in increasing order.
- Change listing without a cursor but with a start time, which reads several pages.
- Compaction.TurnStore.Commit: one compaction at a time per session, as the source assumes without guarding it; the transaction is one step. Turns given are already in id order, so the source's sorting of them changes nothing.
- The choice between soft, hard and gap compaction and the monitor scores.
- KnowledgeSelection.SelectKnowledge: base scores are inputs; ranking is not modelled.
- TokenTrimming.TrimContext: excluded-knowledge records and the filtering of selection reasons while trimming are not modelled; invariants arrive sorted.
- EmbeddingCache.CachedGenerator.Generate: calls do not overlap; a generator that returns fewer vectors than texts is covered by Insert but not by the lemmas about pointwise generators.
- Retrying with growing delays (`withRetry`).
- CircuitBreaker.CircuitBreaker.Start: the clock is a pair of readings that does not run backwards; the snapshot is not modelled.
- BundleImport.ImportBundle: field validation of inserted facts is not modelled, and an update to the trust score always succeeds.
- Policy presets, retention tables, trust thresholds and formatting.
