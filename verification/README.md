# A verified model of the memory engine

This project models the logic of an agent-memory engine above its storage port and proves what that
logic keeps over every input and every run. Facts are rows with scores, validity times and marks;
edges between facts are committed rows mirrored into an in-memory graph; a "dream cycle" clusters or
merges facts and returns a report that is validated and applied in one transaction; expired facts move
to archive files.

| file | component |
|---|---|
| `Dbscan.dfy` | density clustering: the worklist over `labels`, `queued`, `seeds`, its declarative specification, uniqueness and order independence |
| `DefaultCycle.dfy`, `LlmCycle.dfy` | the two shipped dream cycles: percentile, medoid, rescoring; clamping and claiming of proposed merge groups |
| `CycleReport.dfy`, `CycleRows.dfy` | validation and application of a report, invariant M; the rows and edges it leaves and what its refusals say |
| `GuardProtocol.dfy`, `GuardRefinement.dfy` | cursor, watermark and marks as a step system with any number of interleaved guards; applying a report is a step of it |
| `MemoryGraph.dfy`, `MemoryStore.dfy`, `GraphSync.dfy` | the swap-remove graph cache, the committed store, and their agreement over runs of operations |
| `Forget.dfy` | importance scoring, the prune sweep and what repeating it converges to |
| `ArchiveSearch.dfy`, `PakArchive.dfy`, `ArchiveOverlap.dfy` | the bounded min-heap search; archiving as fault-injected file, manifest and store steps; archive calls that overlap |
| `Hybrid.dfy` | rank fusion, assembly, reranking, post-filters |
| `Upcaster.dfy`, `Ingest.dfy`, `Snapshot.dfy` | the upcaster chain, batch ingest, the snapshot byte layout |
| `Collections.dfy` | sets, sequences and multiset counting shared by the others |

Code that updates state in place is a class or a method with loops, proved against a specification
function or predicate; the theorems are lemmas about those. Numbers that are floating point in the
source are `real`; `ln`, `exp2`, `sqrt`, hashing, encoders, embedders and classifiers are function
parameters with the laws that are used stated as predicates. Port calls (`get_facts`, the SQL
queries) are taken at the contracts written in `crates/me-storage/src/graph.rs` and
`crates/me-storage/src/cold_storage.rs`, with the SQLite bodies deciding details. The attribute
`{:induction false}` on a lemma means that its body is the whole proof.

`dafny verify dfyconfig.toml` checks everything.

## What the proofs found

Eleven things that documentation, comments or names lead one to expect do not hold of the code as
written. Each has a witness or an exact condition, most have both.

- A cycle report that supersedes or synthesizes makes the cache drop the superseded fact's edges
  (`crates/me-cognitive/src/apply.rs:64-65`), but the transaction expires no edge, so cache and store
  part (`SupersedeBreaksMirror`). They also part on a store without any edge when one report chains
  replacements, since the second cut takes the edge the first added (`ChainBreaksMirror`). An accepted
  report keeps them together exactly when no active edge touches a fact it replaces and no successor it
  names is replaced by a later delta (`CycleMirrors`).
- An insert that commits behind a stale-index error returns before the mirror step, so the new edge is
  missing from the cache (`ResolveMirrors` says exactly when).
- Consolidation commits its plan and then lists the edges to rebuild from
  (`crates/me-consolidate/src/lib.rs:138-142`). If the listing fails after facts with active edges were
  expired, the cache keeps those edges (`ListingFailureBreaksMirror`); exactly when an active edge touches
  a loser that is active, with an active survivor, at the start (`ConsolidateMirrors`).
- `add_facts_batch` is documented as all-or-nothing with a rollback on any insert failure, but the port
  reports a stale index after the whole batch is committed (`crates/me-storage/src/graph.rs:305-314`).
  An error leaves the store alone exactly when it is not that one (`AddFactsBatch`,
  `AddFactsBatchPartial`); every batch that can be stored can be stored by a failing call
  (`FailedCallStores`), and a retry stores it twice (`RetryDuplicates`).
- An adjustment is meant to stay within two quanta, but the guard is `adjustment.abs() > 2` on 16 bits
  (`crates/me-backend-sqlite/src/sqlite/consolidation.rs:259`, `crates/me-types/src/types/cycle_report.rs:81`).
  In a build without overflow checks, as the release profile has it, -32768 is its own absolute value,
  passes, and takes any base to 0 (`ExtremeAdjustmentAccepted`); nothing else outside the range does
  (`AdjustAcceptedIff`). A build with overflow checks panics there instead.
- A period search on the text or vector path passes the far future as the instant of validity
  (`crates/me-query/src/execute.rs:376-377`) and so loses every fact that has an end of validity, also
  those that overlap the period (`PeriodKeepsIff`, `PeriodMisses`).
- A guard's cursor can move back when two guards overlap (`CursorCanRetreat`), exactly when another guard
  has last stored a higher maximum since this one read the cursor (`StoreLowersIff`); it is monotone for
  one guard at a time (`CursorMonotone`), and never exceeds the highest id for any number.
- Windows select by valid time, so a fact recorded after the watermark with a validity that ended
  before it is never selected (`LapsedFactIsMissed`, `ReachableIff`); every fact that was valid at an
  instant after its commit and before the watermark has been processed, or a cycle that was given it left
  it out of its processed ids (`DeferralIsNotLoss`). Only an empty list is refused, so such a cycle can
  lose facts (`OmittedFactIsMissed`); the shipped cycles report their whole window
  (`WholeWindowsLoseNothing`).
- Two archive calls in the same nanosecond share a file name; the second overwrites the first pak, is
  refused for the duplicate path, and the facts of the first are lost whether or not its clean-up then
  succeeds (`CollisionLoses`; `StepKeepsIff` is exact). An edge with one archived end goes to neither
  side (`EdgeKeptIff`).
- An archive commit deletes rows by id and does not look at them again. Overlapping calls put the same fact
  into two listed paks (`OverlapDoubles`; `DoubledIff` says exactly which facts), and an edit between
  selection and commit, a pin say, is lost (`EditLostIff`). Nothing is ever in no place (`NothingLost`).
- `prune` is not idempotent (`PruneNotIdempotent`); a second sweep expires nothing exactly when the facts
  the first keeps hold each other above threshold (`PruneAgainIff`), and repeated it reaches the largest
  self-supporting set (`PruneConverges`).

The comment at `crates/me-index/src/graph/memory_graph.rs:177-181` gives as reason for the descending
removal order that each removed edge is the last one; that is not so in general. What makes the loop
right is that the entry moved into the freed slot is never one still to be removed (`NextPending`).

## Model

| member | source | states |
|---|---|---|
| Dbscan.CosineSymmetric | crates/me-types/src/math.rs:26-35 | cosine similarity is symmetric, which the partition theorem needs |
| Dbscan.CosineSimilarity | crates/me-types/src/math.rs:26-35 | the one-pass accumulation is dot product over magnitudes on the common prefix, 0 when a magnitude is 0 |
| Dbscan.CosineBounds | crates/me-types/src/math.rs:26-35 | the similarity lies between -1 and 1, and is 1 for a vector with itself unless its magnitude is 0 |
| Dbscan.CauchySchwarz | crates/me-types/src/math.rs:26-35 | the squared dot product is at most the product of the squared magnitudes, which bounds it |
| Dbscan.Neighbours | crates/me-cognitive/src/dbscan.rs:47-53 | exactly the other points within the threshold, ascending |
| Dbscan.Expand | crates/me-cognitive/src/dbscan.rs:76-97 | the worklist loop terminates with all indices in range and leaves the labels settled up to and including the new cluster |
| Dbscan.Visit | crates/me-cognitive/src/dbscan.rs:78-96 | one popped seed: noise is reclaimed, an unvisited point is stamped and, if core, its neighbours join the frontier |
| Dbscan.Enqueue | crates/me-cognitive/src/dbscan.rs:90-95 | appends exactly the neighbours not yet queued, keeping the seeds duplicate-free and without the start point |
| Dbscan.SeedsFit | crates/me-cognitive/src/dbscan.rs:70-97 | duplicate-free seeds without the start point number fewer than the points, so the expansion ends |
| Dbscan.GrownIsSettled | crates/me-cognitive/src/dbscan.rs:58-99 | a finished expansion turns the settled labelling before it into a settled labelling with one more cluster |
| Dbscan.Label | crates/me-cognitive/src/dbscan.rs:55-99 | the labelling loop returns a labelling: cores share a label iff a core chain links them, border points take the smallest adjacent label, the rest is noise, clusters are numbered by smallest core index |
| Dbscan.SettledIsLabelling | crates/me-cognitive/src/dbscan.rs:58-99 | the loop invariant at the end is that declarative specification, chains included |
| Dbscan.LabellingUnique | crates/me-cognitive/src/dbscan.rs:28-31 | the specification admits one labelling only, cluster numbers included |
| Dbscan.Group | crates/me-cognitive/src/dbscan.rs:101-112 | one list per label, members in input order, noise omitted |
| Dbscan.Run | crates/me-cognitive/src/dbscan.rs:33-113 | the clustering of the cloud; nothing for an empty, oversized or `min_pts == 0` input |
| Dbscan.ClusteringUnique | crates/me-cognitive/src/dbscan.rs:9-31 | the output is a function of the input |
| Dbscan.ClustersCover | crates/me-cognitive/src/dbscan.rs:101-112 | clusters are non-empty, duplicate-free, pairwise disjoint and hold exactly the points that are core or next to one |
| Dbscan.MembersInOrder | crates/me-cognitive/src/dbscan.rs:27-28 | a cluster's members are a subsequence of the input |
| Dbscan.OrderIndependent | crates/me-cognitive/src/dbscan.rs:47-99 | reordering the points keeps which points are core, which cores share a cluster, which points are noise, and the number of clusters |
| DefaultCycle.RankIsNearest | crates/me-cognitive/src/default_impl.rs:97-107 | the index is the integer nearest to percentile times last index, halves going up, the percentile cut off at 0 and 1 |
| DefaultCycle.PercentileIs | crates/me-cognitive/src/default_impl.rs:93-109 | 0 for no values; else, for the nearest integer `k` to `p * (n - 1)`, or the first or last index outside [0, 1], the entry with at most `k` entries below it and more than `k` not above it |
| DefaultCycle.PercentileOrderFree | crates/me-cognitive/src/default_impl.rs:93-109 | the percentile depends on the multiset of values only |
| DefaultCycle.Medoid | crates/me-cognitive/src/default_impl.rs:175-183 | the member of highest importance, the smallest id among equals |
| DefaultCycle.BestUnique | crates/me-cognitive/src/default_impl.rs:172-183 | there is one such member |
| DefaultCycle.Promote | crates/me-cognitive/src/default_impl.rs:171-191 | per cluster its best member exactly when it reaches the bar, in cluster order |
| DefaultCycle.RescoreAll | crates/me-cognitive/src/default_impl.rs:204-225 | the rescoring loop gives the log that `RescoredIff` and `RescoreOrder` characterise, for any outcome counts |
| DefaultCycle.RescoredIff | crates/me-cognitive/src/default_impl.rs:204-225 | over a whole report: quarantined iff in the window, not promoted, no positive and at least three negative outcomes; adjusted by `a` iff in the window, neither promoted nor quarantined, and `a` is the non-zero surplus cut off at two |
| DefaultCycle.RescoreOrder | crates/me-cognitive/src/default_impl.rs:204-225 | the rescoring deltas come in window order |
| DefaultCycle.Run | crates/me-cognitive/src/default_impl.rs:149-225 | promotions of the three types in order, then rescoring of the rest, over the unique clusterings of the buckets |
| DefaultCycle.PromotedIff | crates/me-cognitive/src/default_impl.rs:158-192 | a promotion is in the report iff the fact leads some cluster: highest base, smallest id among equals, and at or above the bar of its own type, stated as an order statistic over the facts of that type |
| DefaultCycle.ClusteredIff | crates/me-cognitive/src/default_impl.rs:158-171 | a window fact of any of the three types is in a cluster iff it has two others of its type within similarity 0.85, or one of those has, and its type has at most 10000 facts in the window |
| DefaultCycle.BarIs | crates/me-cognitive/src/default_impl.rs:163-164 | the bar of a type is the base of one of its window facts, with at most `k` of them lower and more than `k` no higher, for the index nearest to the percentile |
| DefaultCycle.BarUnique | crates/me-cognitive/src/default_impl.rs:93-109 | there is one such bar |
| DefaultCycle.ReportNamesOnce | crates/me-cognitive/src/default_impl.rs:158-225 | each fact is named at most once, only facts of the window, every adjustment non-zero and within two |
| DefaultCycle.ReportApplies | crates/me-cognitive/src/default_impl.rs:149-246 | on an active window the report is always accepted |
| LlmCycle.ClampGroup | crates/me-cognitive/src/llm_impl.rs:135-143 | the loop keeps the first occurrence of each allowed id, in order |
| LlmCycle.MergeGroup | crates/me-cognitive/src/llm_impl.rs:129-160 | one group: skipped when empty or cross-scope, else merged with its scope and importance |
| LlmCycle.Run | crates/me-cognitive/src/llm_impl.rs:120-182 | over any proposal, each delta is a synthesis of a group: distinct window facts it names, all of one scope, merged into an unpinned, unmarked, active Semantic fact of that scope made now, with the group's summary, the vector embedded for it, and the highest base of the sources (at least 0); a group gives one iff the ids it can still claim are not none and of one scope, and takes all of them; the run fails iff the embedding of an emitted group fails |
| LlmCycle.RenderedConsolidates | crates/me-cognitive/src/llm_impl.rs:129-181 | the same of any deltas that render the plan |
| LlmCycle.MergesAreSafe | crates/me-cognitive/src/llm_impl.rs:120-182 | for any proposal: merges are non-empty, duplicate-free, inside window and group, single-scope, with the sources' maximum importance, and pairwise disjoint |
| LlmCycle.MergedIff | crates/me-cognitive/src/llm_impl.rs:129-181 | a group is emitted iff its ids not claimed before are non-empty and of one scope, and then takes exactly those; a skipped group claims nothing |
| LlmCycle.AcceptedIff | crates/me-cognitive/src/llm_impl.rs:122-128 | on an active window the report is refused only for a new fact's own dimension, importance or size, never as unknown, already expired or without sources |
| LlmCycle.NoLivelock | crates/me-cognitive/src/llm_impl.rs:103-106 | with admissible inputs every proposal is accepted and applying it leaves no fact of the window for the guard to defer to |
| CycleReports.Validate | crates/me-backend-sqlite/src/sqlite/consolidation.rs:204-337 | the two validation loops over one mutable set give the functional verdict, first error included, with the 16-bit guard as a release build computes it |
| CycleReports.AcceptsIff | crates/me-backend-sqlite/src/sqlite/consolidation.rs:204-337 | without the walk: accepted iff every new fact has the engine's dimension, a base in [0, 1] and content that fits, every adjustment is within two or -32768, sources are non-empty and distinct, every delta needs only active facts and none an earlier delta expires, and the processed ids exist |
| CycleReports.AdjustAcceptedIff | crates/me-backend-sqlite/src/sqlite/consolidation.rs:258-262 | a lone adjustment of an active fact is accepted iff it lies within two quanta or is -32768, and else refused as out of range |
| CycleReports.ExtremeAdjustmentAccepted | crates/me-types/src/types/cycle_report.rs:32-81 | the report with the adjustment -32768 is accepted and leaves the fact with base 0 |
| CycleReports.AppliesCleanly | crates/me-backend-sqlite/src/sqlite/consolidation.rs:338-570 | an accepted report never fails half-way; it expires exactly the named facts and its new active edges are the ones handed back |
| CycleReports.InvariantM | crates/me-backend-sqlite/src/sqlite/consolidation.rs:557-575 | afterwards no processed, expired or output fact looks caller-written, and no other fact stops doing so |
| CycleReports.UnnamedUntouched | crates/me-backend-sqlite/src/sqlite/consolidation.rs:364-570 | a fact no delta names comes through unchanged but for the dream mark, which it gets iff it was processed or left active as a successor |
| CycleReports.AdjustMoves | crates/me-types/src/types/cycle_report.rs:21-32 | an adjustment moves the base by its quanta of 0.05 and stops at 0 and 1 |
| CycleReports.PromoteCopies | crates/me-backend-sqlite/src/sqlite/consolidation.rs:397-465 | every promotion of an accepted report: its copy has the key the creations before it determine, survives the rest of the report, is pinned, active, open-ended, marked and carries the importance as adjusted so far; the original stays but for mark, base and expiry |
| CycleRows.ReportRows | crates/me-backend-sqlite/src/sqlite/consolidation.rs:364-575 | every row an accepted report leaves, from the rows before and the deltas alone: adjusted base, expiry and mark of the rows that were there, nothing else of them changed; content, scope, pin, dates, base and score of each inserted row, at the key that counts the insertions before it |
| CycleRows.ReportEdges | crates/me-backend-sqlite/src/sqlite/consolidation.rs:470-530 | edges are only added, one active "supersedes" row of weight 1 for each edge handed back, at consecutive keys |
| CycleRows.ReportVerdict | crates/me-backend-sqlite/src/sqlite/consolidation.rs:204-350 | exactly which reports are applied, and what the error of a refused one says of its first delta that cannot be applied or its first unknown processed id; only an otherwise good report that inserts something lacks an embedding identity |
| CycleRows.MisfitRollsBack | crates/me-backend-sqlite/src/sqlite/consolidation.rs:407-416 | promoting a fact whose stored vector has the wrong length rolls an otherwise accepted report back |
| GuardProtocol.BoundedRun | crates/me-cognitive/src/cognitive.rs:119-139 | any number of guards: no id, cursor or probed maximum passes the highest id ever allocated |
| GuardProtocol.LateWriteStaysAbove | crates/me-cognitive/src/cognitive.rs:119-124 | a write after a guard's probe gets an id above the cursor that guard leaves |
| GuardProtocol.CursorCanRetreat | crates/me-cognitive/src/cognitive.rs:119-139 | a run of two guards after which the cursor is lower |
| GuardProtocol.CursorMonotone | crates/me-cognitive/src/cognitive.rs:125-139 | one guard at a time: the cursor never decreases |
| GuardProtocol.StoreLowersIff | crates/me-cognitive/src/cognitive.rs:119-139 | any number of guards: a guard that stands down lowers the cursor iff the last store since it read the cursor, which is another guard's, was of a higher maximum |
| GuardProtocol.DecisionStarts | crates/me-cognitive/src/cognitive.rs:119 | in every run a deciding guard has read the cursor at some step and decides on it ever since |
| GuardProtocol.SkipsBounded | crates/me-cognitive/src/cognitive.rs:128-144 | one guard at a time: guards stand down at most as often as a caller made a fact eligible |
| GuardProtocol.NoSecondSkip | crates/me-cognitive/src/cognitive.rs:125-144 | two guarded calls with no newly eligible fact between them cannot both stand down |
| GuardProtocol.DeferralIsNotLoss | crates/me-cognitive/src/cognitive.rs:145-207 | every reachable state, out-of-order applies included, for cycles that process whatever they like: applied windows cover the past up to the watermark, and every active fact valid after its commit and before the watermark is marked, or some report whose window selected it left it out |
| GuardProtocol.WholeWindowsLoseNothing | crates/me-cognitive/src/default_impl.rs:152 | when every report processes its whole selection, as both shipped cycles do, all such facts are marked |
| GuardProtocol.OmittedAre | crates/me-cognitive/src/cognitive.rs:145-157 | the ids on record as left out are exactly those some emitted report omitted from its window's selection |
| GuardProtocol.OmittedFactIsMissed | crates/me-cognitive/src/cognitive.rs:145-157 | a run in which a cycle leaves out the fact it was given, its report is applied, and no later window selects the fact |
| GuardProtocol.LosslessStep | crates/me-cognitive/src/cognitive.rs:125-207 | each protocol step keeps the invariant behind it, for the open windows and reports too |
| GuardProtocol.ReachableIff | crates/me-backend-sqlite/src/store/facts.rs:1474-1492 | an active unmarked fact can be selected by a window from `t` on iff its validity reaches past `t` |
| GuardProtocol.SelectsIff | crates/me-backend-sqlite/src/store/facts.rs:1484-1492 | a window selects an active unmarked row iff the row is valid at some instant of the window |
| GuardProtocol.LapsedFactIsMissed | crates/me-backend-sqlite/src/store/facts.rs:1474-1492 | a run ending with an eligible fact that no later window selects |
| GuardRefinement.ReportIsStep | crates/me-backend-sqlite/src/sqlite/consolidation.rs:338-600 | applying any accepted report to a store is an enabled apply step of the protocol on its rows: same columns, next ids, new rows marked, watermark at the window's end |
| GuardRefinement.AppliedStoreIsSettled | crates/me-cognitive/src/cognitive.rs:176-207 | so the guarantee reaches the facts: from a state that has lost nothing, every fact the transaction leaves active that was valid after its commit and before the window's end carries the mark or is on record as left out |
| GuardRefinement.InsertIsStep | crates/me-ingest/src/lib.rs:163-240 | a caller's insert into the store is a write step of the protocol |
| GuardRefinement.EditsAreSteps | crates/me-backend-sqlite/src/store/facts.rs:559-585 | so are an expiry, a change of pin and the purge of an expired row |
| GuardRefinement.SelectionIs | crates/me-backend-sqlite/src/store/facts.rs:1484-1492 | what a window selects is the active, unmarked facts of the store whose validity overlaps it |
| GuardRefinement.EligibleAfter | crates/me-backend-sqlite/src/sqlite/consolidation.rs:557-575 | after the step the eligible ids are those before without the processed, the expired and the outputs |
| GuardRefinement.ProbeAgrees | crates/me-backend-sqlite/src/store/facts.rs:1190-1201 | what the cursor probe counts is the caller-written facts of the store |
| GuardProtocol.Engine.MaxCallerWritten | crates/me-backend-sqlite/src/store/facts.rs:1190-1201 | the highest id among active, unpinned, unmarked rows |
| GuardProtocol.Engine.RunGuarded | crates/me-cognitive/src/cognitive.rs:107-159 | an uninterrupted call is a run of the step system; it stands down iff an eligible id lies above the cursor, moving only the cursor, else reports watermark to now |
| MemoryGraphs.MemoryGraph.AddEdge | crates/me-index/src/graph/memory_graph.rs:90-94 | one more edge, both ends present, map still an exact bijection |
| MemoryGraphs.MemoryGraph.RemoveEdgeById | crates/me-index/src/graph/memory_graph.rs:117-125 | at most one edge with that id goes, none stays if there was one |
| MemoryGraphs.MemoryGraph.RemoveEdgesByFact | crates/me-index/src/graph/memory_graph.rs:162-193 | exactly the edges touching the fact are cut, self-loops and multi-edges included |
| MemoryGraphs.NextPending | crates/me-index/src/graph/memory_graph.rs:180-192 | after a swap-remove the edges still to be removed are exactly at the remaining recorded indices |
| MemoryGraphs.MemoryGraph.RemoveNode | crates/me-index/src/graph/memory_graph.rs:144-156 | the node and its edges go; the moved node is re-indexed, so the map stays a bijection |
| MemoryGraphs.ReindexedBijects | crates/me-index/src/graph/memory_graph.rs:144-156 | that re-indexing keeps the bijection whatever node is removed |
| MemoryGraphs.MemoryGraph.FromActiveEdges | crates/me-index/src/graph/memory_graph.rs:307-320 | the rebuilt cache stands for exactly the listed edges |
| MemoryGraphs.MemoryGraph.Degree | crates/me-index/src/graph/memory_graph.rs:244-254 | in plus out over the edge multiset, a self-loop twice |
| MemoryStore.HardDeleteCuts | crates/me-backend-sqlite/src/store/edges.rs:410-425 | hard-deleting facts leaves the active edges that touch none of them |
| MemoryStore.ExpireEdgesCuts | crates/me-backend-sqlite/src/store/edges.rs:117-128 | expiring a fact's edges cuts exactly those from the active set |
| GraphSync.StepMirrors | crates/me-storage/src/graph.rs:357-456 | from a mirroring cache, one operation leaves a mirroring cache iff it is faithful, for every modelled operation and outcome, the commits behind an error and the failed listing included |
| GraphSync.StepKeepsStore | crates/me-backend-sqlite/src/store/facts.rs:155-160 | every operation and outcome leaves a well-formed store whose vectors have the engine's dimension; a vector of another length is refused |
| GraphSync.RunMirrors | crates/me-cognitive/src/apply.rs:58-76 | over every sequential run of faithful operations the cache's edge multiset is the committed active edges throughout |
| GraphSync.ResolveMirrors | crates/me-resolve/src/lib.rs:84-132 | a resolution keeps the mirror unless its insert committed behind a stale-index error |
| GraphSync.PruneMirrors | crates/me-forget/src/policy.rs:248-259 | prune keeps the mirror |
| GraphSync.ArchiveMirrors | crates/me-archive/src/manage.rs:136-157 | archive keeps the mirror through its per-fact loop |
| GraphSync.ConsolidateMirrors | crates/me-consolidate/src/lib.rs:138-145 | consolidate keeps the mirror iff the plan failed, or the listing worked, or no active edge touches a loser that is active with an active survivor when it begins |
| GraphSync.DedupLosers | crates/me-backend-sqlite/src/consolidation/dedup.rs:53-108 | the loop expires exactly those losers, whatever the order and repetition of the merges |
| GraphSync.ListingFailureBreaksMirror | crates/me-consolidate/src/lib.rs:138-142 | a consolidation that commits and cannot list, after which cache and store disagree |
| GraphSync.CycleMirrors | crates/me-cognitive/src/apply.rs:53-76 | in terms of store and report: an accepted, mirrored report keeps the mirror iff no active edge touches a fact it replaces and no supersede's successor is replaced by a later delta; behind a stale-index error, iff it replaces nothing |
| GraphSync.ApplyLogEnds | crates/me-backend-sqlite/src/sqlite/consolidation.rs:484-530 | the edges handed back for mirroring join, in report order, each successor to what it replaces |
| GraphSync.NoEdgeLostIff | crates/me-cognitive/src/apply.rs:62-76 | for distinct superseded facts the mirror loop drops no edge the store keeps iff no edge of the start touches one of them and no new edge starts at a later one |
| GraphSync.ReportLosesIff | crates/me-cognitive/src/apply.rs:62-76 | for an applicable report that is the condition on its deltas and on the active edges |
| GraphSync.SupersedeBreaksMirror | crates/me-cognitive/src/apply.rs:62-76 | an accepted one-delta report after which cache and store disagree |
| GraphSync.ChainBreaksMirror | crates/me-cognitive/src/apply.rs:62-76 | on any store without active edges, superseding a by b and then b by c is accepted and leaves cache and store different |
| GraphSync.Engine.ResolveConflict | crates/me-resolve/src/lib.rs:84-132 | the four decisions, commit then mirror, have the specified effect on store and cache; the committed rows are those of `ResolveRows` |
| GraphSync.ResolveRows | crates/me-backend-sqlite/src/sqlite/graph.rs:926-999 | row by row: replacing or deleting expires and invalidates the old fact now and its edges with it; adding or replacing stores the new fact, scored at its base, under the next key with one active edge of weight 1 to the old fact, "supplements" or "contradicts"; every other row stays; nothing changes if the old fact is not active, the vector has the wrong length or the port rolls back |
| GraphSync.ResolvedReading | crates/me-resolve/src/lib.rs:84-132 | after it the old fact is active iff it was neither replaced nor deleted, the new one iff one was made, no other fact's activity changes, and every active edge at the new fact leads to the old one |
| GraphSync.IngestRow | crates/me-ingest/src/lib.rs:163-240 | a fact that is stored gets the next key and starts with its base as its score; otherwise the store stays |
| GraphSync.ArchiveRows | crates/me-backend-sqlite/src/store/facts.rs:1602-1620 | an archive run deletes exactly the unpinned facts expired before the cutoff and every edge at one of them, if there are enough |
| GraphSync.ConsolidateRows | crates/me-backend-sqlite/src/consolidation/dedup.rs:53-108 | a consolidation expires now exactly the losers that are active, with an active survivor, at its start, deactivates the edges there and touches nothing else |
| GraphSync.PruneIsSweep | crates/me-forget/src/policy.rs:191-262 | on a mirrored store a prune is one sweep if half-lives are positive, the threshold is in [0, 1] and no weight is negative, and nothing otherwise |
| GraphSync.Engine.Prune | crates/me-forget/src/policy.rs:191-262 | score on degrees, expire, then cut the expired facts' edges from the cache |
| GraphSync.Engine.Archive | crates/me-archive/src/manage.rs:98-157 | hard-delete the candidates, then drop edges and node of each, the map staying exact |
| GraphSync.Engine.Consolidate | crates/me-consolidate/src/lib.rs:138-145 | the plan is applied, and the cache rebuilt from the committed edges exactly when something expired and the listing worked |
| GraphSync.Engine.ApplyCycleReport | crates/me-cognitive/src/apply.rs:53-76 | per superseding edge: cut the old fact's edges, add the new one |
| Forget.DecayHalves | crates/me-forget/src/policy.rs:20-35 | retention is 1 at age 0 and halves with every half-life |
| Forget.ScoreBounds | crates/me-forget/src/policy.rs:94-97 | the score lies between 0 and the sum of the weights |
| Forget.ScoreAtCorners | crates/me-forget/src/policy.rs:86-92 | for exempt types, at no or full marks: each weight scales its own signal, 100 accesses and 50 edges being full marks |
| Forget.ExemptNeverAges | crates/me-forget/src/policy.rs:116-121 | a type that is exempt and has no override scores the full recency weight plus frequency, connectivity and base terms, written out, at any instant |
| Forget.ScoreAges | crates/me-forget/src/policy.rs:122-146 | any other fact scores those terms plus the recency weight times one half to the power of its age in days since the last access, none before it, over its type's override or else the policy half-life |
| Forget.ScoreHalves | crates/me-forget/src/policy.rs:122-146 | the recency part is the full weight up to the last access and is halved by every half-life of 86400 seconds a day after it |
| Forget.ScoreFalls | crates/me-forget/src/policy.rs:108-146 | a score never rises as time passes |
| Forget.ScoreDominance | crates/me-forget/src/policy.rs:108-146 | a fact used no earlier and no less, connected no less and seeded no lower scores no lower |
| Forget.ScoreMonotone | crates/me-forget/src/policy.rs:135-146 | more edges never lower a score |
| Forget.PruneOnceDoes | crates/me-forget/src/policy.rs:215-259 | one sweep leaves exactly the survivors of the scores, with the edges among what is left; `PruneRows` says who they are |
| Forget.PruneRows | crates/me-forget/src/policy.rs:215-259 | every row a sweep leaves: active facts carry their score on in plus out active edge rows, and expire now unless pinned, of an exempt type without override, or at or above the threshold; others stay as they were |
| Forget.PruneConverges | crates/me-forget/src/policy.rs:215-259 | within as many sweeps as active facts: the largest set whose members keep each other above threshold, and then nothing changes |
| Forget.PruneShrinks | crates/me-forget/src/policy.rs:224-259 | each sweep of a run keeps a subset |
| Forget.PruneNotIdempotent | crates/me-forget/src/policy.rs:224-259 | two linked facts of which the second falls only in the second sweep |
| Forget.PruneAgainIff | crates/me-forget/src/policy.rs:215-259 | a second sweep at the same instant expires nothing iff every fact the first keeps is protected or at threshold on the edges among the kept facts |
| ArchiveSearch.MinHeap.Push | crates/me-archive/src/search.rs:254-261 | sift-up on the array: the multiset gains the hit and the heap order holds |
| ArchiveSearch.MinHeap.Pop | crates/me-archive/src/search.rs:256-261 | a hit of least score goes, the rest stays, the heap order holds |
| ArchiveSearch.MinHeap.IntoSortedVec | crates/me-archive/src/search.rs:218-222 | heapsort in place: the same hits, best first |
| ArchiveSearch.PushBounded | crates/me-archive/src/search.rs:245-262 | the kept hits stay the best `limit` of everything seen |
| ArchiveSearch.ScanPak | crates/me-archive/src/search.rs:171-215 | so they do over all facts of a pak that match |
| ArchiveSearch.SearchArchives | crates/me-archive/src/search.rs:134-231 | over the listed, present paks whose path has only plain segments and `.`, the first unreadable one failing the search: each result is found in one, answers the query with its score (type, text, positive cosine on a vector of equal length, each case written out) and is returned at most as often as found; a find that is not returned gives way to `limit` results that score no lower; descending |
| ArchiveSearch.HitsAtPlaces | crates/me-archive/src/search.rs:171-215 | a match is collected exactly as often as there are places in the read paks where a fact answers the query with that score |
| ArchiveSearch.ReadIff | crates/me-archive/src/search.rs:86-91 | a path is inside iff it has no parent, root or prefix component |
| ArchiveSearch.TopScoresRefine | crates/me-archive/src/search.rs:57-64 | the bounded scan returns, score for score, sort-then-truncate |
| ArchiveSearch.SortTruncateIsTop | crates/me-archive/src/search.rs:239-244 | sort-then-truncate itself is a best-`limit` selection |
| PakArchive.Vault.WritePakAndHash | crates/me-archive/src/pak.rs:23-73 | temp file, encode, rename, clean-up on error, for every fault |
| PakArchive.Vault.Archive | crates/me-archive/src/manage.rs:98-166 | the call with every step failing or not has exactly the specified effect on files, manifest and store |
| PakArchive.AllOrNothing | crates/me-archive/src/manage.rs:117-134 | for every fault, clean-up included, unless a listed pak is overwritten: exactly which calls answer with an error, a call that does not archive moves nothing that is listed, and changes nothing at all iff it could delete what it should |
| PakArchive.StepKeepsIff | crates/me-archive/src/manage.rs:274-304 | for every fault: every listed pak stays as recorded, and every fact held in one place, iff the call does not rename its pak onto a listed one that differs |
| PakArchive.StepTidyIff | crates/me-archive/src/manage.rs:117-134 | a directory without temp files and orphans stays so iff the call can delete what it should |
| PakArchive.CollisionLoses | crates/me-archive/src/manage.rs:282-285 | after renaming onto a listed pak, every fact of the earlier one is gone from store and directory, whether or not the clean-up works |
| PakArchive.RunConserves | crates/me-archive/src/manage.rs:98-157 | over every run of inserts, expiries and archive calls with arbitrary faults, failing deletes included, that overwrites no listed pak: every row's pak is there as recorded and each fact ever added is in exactly one place; no temp file or orphan if the deletes succeed |
| PakArchive.EdgeKeptIff | crates/me-backend-sqlite/src/store/edges.rs:319-339 | an edge survives unchanged, in the pak iff both ends are archived and live iff neither is |
| PakArchive.ArchivedAre | crates/me-backend-sqlite/src/store/facts.rs:1602-1620 | a call that archives moves to its pak, unchanged, exactly the unpinned facts expired before its cutoff, and keeps the others live |
| PakArchive.RowRecorded | crates/me-archive/src/manage.rs:112-136 | the manifest gains one row, which counts the new pak's facts and edges and has the digest of its file; the others stay |
| PakArchive.ErrorNames | crates/me-archive/src/manage.rs:98-140 | an error names the first of directory, temp file, encoding, rename, size and commit that fails |
| PakArchive.ExpiredThenArchived | crates/me-archive/src/manage.rs:98-140 | an active unpinned fact that expires before the cutoff of the next archiving call ends in its pak alone |
| ArchiveOverlap.UninterruptedIsStep | crates/me-archive/src/manage.rs:98-140 | selection, write and commit without anything between are the one step of the sequential model |
| ArchiveOverlap.StoresAgree | crates/me-archive/src/manage.rs:126-136 | the store after the call is that of the engine's archive operation |
| ArchiveOverlap.NothingLost | crates/me-archive/src/manage.rs:98-140 | over every interleaving of inserts, expiries, edits and the steps of any number of calls, with any faults, that overwrites no pak in use: listed paks are as recorded and every fact ever added is somewhere |
| ArchiveOverlap.DoubledIff | crates/me-backend-sqlite/src/store/facts.rs:1558-1575 | after such a run a fact is in two places iff some commit took it although it had gone since its call selected it |
| ArchiveOverlap.SerialDoublesNone | crates/me-archive/src/manage.rs:98-140 | calls begun only when none is in flight leave no fact in two places |
| ArchiveOverlap.OverlapDoubles | crates/me-archive/src/manage.rs:98-140 | from any state, every archivable fact ends in two listed paks when two calls select before either commits |
| ArchiveOverlap.EditLostIff | crates/me-backend-sqlite/src/store/facts.rs:1558-1575 | at a commit the current row of a fact survives iff the pak has it, so an edit since selection is lost |
| ArchiveOverlap.EditThenCommit | crates/me-archive/src/manage.rs:98-140 | an edit between the write of the pak and the commit is stored, and after the commit is nowhere unless it changed nothing |
| ArchiveOverlap.StepKeepsAll | crates/me-archive/src/manage.rs:98-140 | each step keeps that invariant and changes which facts are doubled only by such a commit |
| PakArchive.VerifyArchives | crates/me-archive/src/manage.rs:190-226 | one verdict per row in order: traversal, not found, unreadable, mismatch or good, nothing outside the directory looked up, and good iff the file is the one that was hashed, for a digest that tells the two apart |
| PakArchive.VerifiesIff | crates/me-archive/src/manage.rs:353-377 | each row has one verdict only, and it is good iff the row's file is what was hashed |
| PakArchive.AuditIsExact | crates/me-archive/src/manage.rs:190-226 | whatever happened to the directory since, verification of a sound manifest finds exactly the paks that are missing, unreadable or changed |
| Hybrid.RrfMerge | crates/me-query/src/hybrid.rs:30-45 | every input id once, descending, scored by the sum of its rank shares with saturating `u32` arithmetic |
| Hybrid.ShareIsCapped | crates/me-query/src/hybrid.rs:26-35 | the nested saturations give the documented share of rank, with the denominator capped at the largest `u32` |
| Hybrid.FusionSymmetric | crates/me-query/src/hybrid.rs:24-28 | swapping the lists changes no score |
| Hybrid.DominanceKept | crates/me-query/src/hybrid.rs:30-45 | on duplicate-free lists an id ranked no worse in both never scores lower, saturation included |
| Hybrid.Assemble | crates/me-query/src/hybrid.rs:61-103 | the remove-and-stop loop gives the first `limit` of: first occurrences of loaded ids whose fact is valid at the cutoff |
| Hybrid.KeptDetermined | crates/me-query/src/hybrid.rs:69-89 | those positions are determined by the list, the facts and the cutoff |
| Hybrid.WidenedThenCut | crates/me-query/src/hybrid.rs:61-72 | over one ranked list, widening by `rerank_depth` and cutting to the limit is the unwidened run |
| Hybrid.ValidateRerankerOutput | crates/me-query/src/execute.rs:80-110 | accepts exactly partial permutations with finite scores; otherwise the first fault in output order |
| Hybrid.MoveOut | crates/me-query/src/execute.rs:190-200 | every `take` finds its slot full; the result is the chosen candidates in output order, rescored |
| Hybrid.FinishQuery | crates/me-query/src/execute.rs:178-206 | the page or its valid reranking, cut to the limit |
| Hybrid.SearchPath | crates/me-query/src/execute.rs:361-410 | returns, in rank order and each once, exactly the hits of the assembled page that overlap the period, reach the floor and are pinned if asked; the page is of facts in force at the instant asked for, else at the last representable one under a period, else now |
| Hybrid.SelectionUnique | crates/me-query/src/execute.rs:395-408 | a filter in page order admits one result only |
| Hybrid.PortHybridSearch | crates/me-query/src/hybrid.rs:126-191 | ranks the open channel, or fuses both with constant 60; each is asked for three times the page, capped at 64 bits, a page being the limit or the rerank depth if larger; returns the first page of loaded and valid hits, and each hit's kind names exactly the channels that found it |
| Hybrid.PeriodKeepsIff | crates/me-query/src/execute.rs:370-380 | under a period, a ranked loaded fact survives the cutoff iff it has no end of validity |
| Hybrid.PeriodMisses | crates/me-query/src/execute.rs:370-397 | a fact valid throughout the period that is lost |
| Hybrid.ChannelsHaveInputs | crates/me-query/src/execute.rs:293-351 | an accepted search never opens a channel without its input, inference closes none that has one and keeps a chosen mode; a period has both ends and excludes an instant |
| Hybrid.StorePath | crates/me-query/src/execute.rs:448-517 | every result meets every filter, best first; a fetched fact that meets them and was cut off scores no more than any returned |
| Hybrid.ImportanceSorts | crates/me-query/src/execute.rs:498-504 | the sort keeps the facts and orders them by score |
| Hybrid.FilterIs | crates/me-query/src/execute.rs:468-496 | a `retain` keeps exactly the facts that pass, with their multiplicity |
| Upcaster.LatestIs | crates/me-storage/src/upcaster.rs:66-88 | after any registrations the latest revision is the saturating maximum of the type's steps, at least 1 |
| Upcaster.OtherTypesApart | crates/me-storage/src/upcaster.rs:71-130 | however registrations of other types are interleaved, the type's latest revision, its steps and every upcast depend on its own registrations in order |
| Upcaster.Registry.Register | crates/me-storage/src/upcaster.rs:71-81 | the two maps keep saying what the history of registrations says |
| Upcaster.Registry.Upcast | crates/me-storage/src/upcaster.rs:102-130 | the loop climbs from the payload's revision to the latest, or returns it unchanged |
| Upcaster.UpcastIff | crates/me-storage/src/upcaster.rs:102-130 | an older payload is upcast iff every step up to the latest is registered and succeeds in turn |
| Upcaster.ClimbIff | crates/me-storage/src/upcaster.rs:118-129 | the result is the ascending composition of the steps |
| Upcaster.ClimbSplits | crates/me-storage/src/upcaster.rs:118-129 | a climb can be cut at any revision on the way, failures included |
| Upcaster.ClimbFails | crates/me-storage/src/upcaster.rs:119-125 | the error names the first revision without a step or whose step fails |
| Ingest.ComputeBatchPins | crates/me-ingest/src/lib.rs:491-543 | the stitched pins are the per-entry rule and the classified list never runs out |
| Ingest.Partition | crates/me-ingest/src/lib.rs:331-341 | the validation verdict of each entry and the valid ones in order |
| Ingest.Rethread | crates/me-ingest/src/lib.rs:357-379 | each valid slot takes the next id, each other keeps its error; the fallback error is unreachable |
| Ingest.Engine.AddFactsBatch | crates/me-ingest/src/lib.rs:264-290 | the first inadmissible entry rejects the batch; accepted iff all are admissible and nothing faults, and then exactly the rows of the entries are added, every field and default written out, under the next ids; an error leaves the store alone iff it is not the stale-index error, which leaves the whole batch stored; each error says what of entry, provider or store it blames |
| Ingest.StoredAdds | crates/me-ingest/src/lib.rs:416-440 | a batch that lands stores each entry's content, vector, type, pin and dates, importance one half and both dates now by default, in the root scope, and changes no other row |
| Ingest.ThreadedRows | crates/me-ingest/src/lib.rs:331-381 | the re-threaded results name for each admitted entry the key of its own row |
| Ingest.Engine.AddFactsBatchPartial | crates/me-ingest/src/lib.rs:312-381 | one result per entry: its own validation error, or the id under which its row stands, ids ascending with none between; an outer error iff the valid part faults, with the store unchanged iff it is not the stale-index error; with a pointwise embedder, results and store are those of adding one by one |
| Ingest.FailedCallStores | crates/me-backend-sqlite/src/sqlite/graph.rs:807-835 | every batch that can be stored is stored just so by a call that fails with the stale-index error |
| Ingest.RetryDuplicates | crates/me-storage/src/graph.rs:309-314 | retrying after that error stores every entry again under a new id |
| Ingest.BatchIsEach | crates/me-ingest/src/lib.rs:242-250 | adding the entries one by one leaves the store and the results of the batch, when the vectors have the engine's dimension |
| Snapshot.LeRoundTrip | crates/me-backend-sqlite/src/snapshot.rs:218-225 | the little-endian length reads back |
| Snapshot.WriteToFile | crates/me-backend-sqlite/src/snapshot.rs:206-230 | length as four bytes, lowest first, then header, payload and hash; refused exactly when the header length does not fit in 32 bits |
| Snapshot.LoadFromFile | crates/me-backend-sqlite/src/snapshot.rs:288-395 | every slice is in range and exactly the files that split and check are accepted |
| Snapshot.SplitIff | crates/me-backend-sqlite/src/snapshot.rs:309-327 | a file splits iff its header length leaves room for a payload byte, and then at one place only |
| Snapshot.LayoutUnique | crates/me-backend-sqlite/src/snapshot.rs:309-394 | what an accepted file loads as is unique |
| Snapshot.LoadsWrittenIff | crates/me-backend-sqlite/src/snapshot.rs:206-230 | a file written from a header and payload its codec recovers comes back, unchanged, iff it is within the cap, of this version and dimension, and all its vectors have that dimension |
| Snapshot.LoadsSections | crates/me-backend-sqlite/src/snapshot.rs:206-230 | whatever the codec does, a written file loads as the decodings of its own two sections, or not at all |
| Snapshot.RoundTripExists | crates/me-backend-sqlite/src/snapshot.rs:206-230 | for every header and payload some codec meets those conditions, so the round trip excludes none |

## Left out

- Floating-point rounding and NaN: scores, embeddings and thresholds are reals, so orderings the source makes total with `total_cmp` are the usual ones.
- Interleaving of a commit with its mirror step: runs in `GraphSync` are sequential; two operations between commit and mirror at once can part cache and store.
- petgraph, `BinaryHeap` and `HashMap` internals: the graph's swap-remove and the heap's sift-up and sift-down follow their documented behaviour; map iteration order is arbitrary.
- Ties in ranking and eviction: equal scores may come in any order, as documented at `crates/me-archive/src/search.rs:242-244`.
- Faults of the single inserts a batch is compared with: there the embedder answers and the port commits; a vector of the wrong length fails the single entry, and the batch as a whole.
- Hybrid.StorePath: speaks of the fetched facts only; the fetch is bounded to three times the limit, so a match beyond it can be missed.
- Consolidation's summaries and importance inheritance: only which facts and edges it expires matters to the cache.
- `cluster_provenance`: the descriptive envelope of a promotion (counts, date range, first five ids) is not carried by the promotion delta.
- Outcome tagging, cycle history and identity output of a report: they touch neither facts, marks nor edges.
- Scope resolution and the scope cache in ingest: facts land in the root scope.
- GuardProtocol: callers that change a fact's validity or remove its mark through metadata edits, reports refused by validation, and reports whose window is not the one the cycle was given, are not steps of the system.
- GuardProtocol.Engine.RunGuarded: it runs a cycle that processes its whole window; the read-only and reopen gates, a malformed cursor string and the malformed-report check are one-branch facts that are not modelled.
- Ingest.Engine.AddFactsBatch: a backend that commits and then returns the wrong number of ids; the source reports an error after the commit there, although its comment says the batch is rolled back.
- SQL, codecs, compression, hashing, async scheduling, locks, providers, arbiters and rerankers: abstract functions or arbitrary inputs.
- HNSW index maintenance, migrations, configuration, command line and server: outside the logic modelled here.
