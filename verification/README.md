# Cordial Miners: a verified model of the consensus core

This project models four connected parts of the Cordial Miners implementation in Dafny and proves
their laws for all inputs, all runs and all interleavings.

1. **The blocklace and its ancestor index.** The store is a DAG of blocks named by (hash, creator,
   signature). References resolve without their signature, a bounded view records what it is
   missing, a checkpoint cuts the past, and a counter marks every mutation. On top of it sit a bit
   matrix filled by a depth-first search with an explicit stack, a sort-based chain test, a sparse
   conflict table and approval. (`Reachability`, `Words`, `Closure`, `Sorting`, `ChainTest`, `Lace`,
   `AncestorIndex`, `Approval`, `Dag`, `Rounds`, `Blocklace`, `StrictLace`)
2. **The live mirror and the finalized-output cache.** Blocks that arrive too early wait; a poll
   reuses, extends or recomputes the published order. The cache invariant holds across trusted,
   window and native ingest, bond and weight changes, epoch installs and polls. (`Mirror`,
   `Boundaries`, `Confluence`, `OrderedOutput`, `PrefixReuse`, `PrefixCheckpoints`, `PorActivation`,
   `LiveIngress`, `IngressRuns`, `SingleValidator`)
3. **Native backfill.** A two-way identity index and an explicit-stack walk that fetches missing
   ancestry within a budget and applies it in dependency order. (`Native`, `BackfillWalk`,
   `BackfillRuns`, `Backfill`)
4. **Reputation arithmetic and codecs.** Integer square root, clamping, normalization, Liquid Rank,
   a projection onto consensus weights, a canonical binary codec and injective hash preimages. (`Por`,
   `Arithmetic`, `Clamp`, `Chunks`,
   `Normalization`, `LiquidRank`, `WeightProjection`, `Wire`, `ReputationBlocks`, `ReputationCodec`, `ByteOrder`,
   `BlockHash`, `Ratings`, `Commitments`)

Verify the whole project with `dafny verify dfyconfig.toml`.

## How the code is represented

- Objects whose methods update fields are classes: `Blocklace`, `LiveBlocklaceMirror`,
  `SharedOrderedOutput`, `LiveIngress`, `ReputationBlockDecoder`. Each method states its whole new
  state as a function of the old one, and the laws are proved about those functions.
- Iteration over hash maps and hash sets is an arbitrary choice, so every result holds for every order.
- Hash functions, signature checks, the field translation of native messages, the adapter's and the
  database's verdicts, the clock and the block source are parameters or arbitrary values.
- The weighted ordering (`Ordering.full`), the final leader of a wave (`Ordering.finalLeader`), the
  suffix form behind the guarded helper (`Ordering.suffix`, called through `VerifiedPrefix`) and the
  replay of an epoch are functions taken as given. `SuffixContract` is the contract of that helper
  documented at `crates/cordial-f1r3node-adapter/src/snapshot.rs` lines 518 to 530: if the published
  blocks up to the anchor are the ordering of an earlier closed lace, and the lace has since changed only
  by strict insertions past the anchor's wave, an answer is the full ordering. That the lace changed only
  in that way is proved outright, for every call sequence and whatever these functions return
  (`Ingress.GuardsKeepShallow`). The contract enters only where the text says so: that a published
  output is the full ordering. Append-only publication and unchanged state on errors need it nowhere.
- These functions depend on their arguments only. In the code they also take a cache that the ingress keeps
  across polls and drops with every weight change; it is assumed not to change what they return.
- Unsigned 64-bit and 128-bit limits are written out wherever the code checks them.

## What the code does differently from its own description

- `ancestors` of an unsigned reference to the checkpoint expands past the checkpoint although
  `observe` does not; `BlocklaceStore.ReferenceAncestors` gives the exact condition and
  `BlocklaceStore.UnsignedCheckpointExpands` an instance.
- A bounded-view insert of a new block that names itself as a predecessor records its own reference
  as missing although it resolves from then on; `Dags.BoundedKeepsIff` gives the exact condition and
  `Dags.SelfNamingBlockBreaksMetadata` an instance.
- The ancestor matrix misses paths when the graph has a cycle through two or more nodes, and only then
  (`ClosureMatrix.Build`, `ClosureMatrix.TwoNodeCycleIsIncomplete`). Such a lace cannot arise from strict
  inserts.
- For a lone validator the latest complete wave is lost when the last round of the wave of the highest
  round does not fit 64 bits (`SingleValidator.NeverBackwards`, `SingleValidator.TopRoundLosesTheAnswer`).
- The backfill limit is reported as "needs more than N backfilled blocks", but fetches are counted, and a
  block that several missing blocks depend on is fetched once for each of them. A limit of N can be
  reported when N blocks are missing (`BackfillWalk.DiamondExceedsItsBudget`); it is never reported when N
  covers the dependency edges of the missing ancestry (`BackfillWalk.BudgetSuffices`), and when nothing is
  shared the message is right (`BackfillWalk.LimitCountsBlocks`).
- Of the failure checks in the native path and the backfill walk, "indexed block absent", "resolved
  parent absent", "not applied after preflight" and the cycle check on entry cannot fire. A mirror
  refusal after preflight can: a waiting variant of the same block with a different signature causes it, and
  nothing else does (`Ingress.OnlyWaitingClashes`, `Ingress.WaitingVariantBlocksGenesis`).

## Model

| member | source | states |
|---|---|---|
| `ClosureMatrix.Build` | crates/cordial-miners-core/src/ancestor_index.rs:38-86 | the explicit-stack DFS terminates on every graph; each set bit is a real path that does not expand a `stop` node, and the matrix holds every such path if and only if the graph has no cycle apart from self-loops |
| `ClosureMatrix.Search` | crates/cordial-miners-core/src/ancestor_index.rs:44-83 | one root of the DFS: finished rows stay sound, and a row is complete whenever no back edge was met, across word boundaries |
| `ClosureMatrix.CompleteRow` | crates/cordial-miners-core/src/ancestor_index.rs:62-75 | on leaving a node, its row becomes itself, its children and the rows of the finished children, and no other row changes |
| `ClosureMatrix.TwoNodeCycleIsIncomplete` | crates/cordial-miners-core/src/ancestor_index.rs:44-83 | on two nodes that point at each other, whatever matrix the build returns misses one of the paths |
| `ChainTest.CountIsRowSize` | crates/cordial-miners-core/src/ancestor_index.rs:93-95 | the pop count of the words of a row is the number of nodes the row observes |
| `ChainTest.AncestorIsSmaller` | crates/cordial-miners-core/src/ancestor_index.rs:97-102 | a proper ancestor observes strictly fewer nodes than its descendant |
| `ChainTest.IsChain` | crates/cordial-miners-core/src/ancestor_index.rs:103-110 | sorting by closure size and checking neighbours only: `true` always means pairwise comparable, and for distinct members of an acyclic graph it is `true` exactly when all pairs are comparable |
| `ChainTest.IncomparablePairs` | crates/cordial-miners-core/src/ancestor_index.rs:112-125 | every member with a sibling conflict is listed with exactly the members it conflicts with |
| `AncestorIndexing.Build` | crates/cordial-miners-core/src/ancestor_index.rs:143-206 | the index built for a store has a position for every stored block and only true paths of the resolved predecessor graph cut at the checkpoint; when that graph has no cycle through two or more blocks, the closure holds every path and the table lists exactly the conflicting siblings of every block |
| `AncestorIndexing.ResolveAtAgrees` | crates/cordial-miners-core/src/ancestor_index.rs:150-176 | looking a reference up by position, or by the table of unsigned forms, gives the block that the store resolves it to, and nothing when the store does not resolve it |
| `Approval.ObservationIsReachability` | crates/cordial-miners-core/src/ancestor_index.rs:89-91 | a set bit between two stored blocks is a path in the lace; without cycles the bit is set exactly when there is a path |
| `Approval.ApprovalIsDefinition18` | crates/cordial-miners-core/src/ancestor_index.rs:217-230 | approval through the sparse conflict table equals the full pairwise test: the target is observed and no incomparable sibling of it is |
| `Approval.IndexesAgree` | crates/cordial-miners-core/src/ancestor_index.rs:143-230 | two indexes of the same store answer observation and approval alike, whatever positions they assign |
| `Approval.NoDoubleApproval` | crates/cordial-miners-core/src/ancestor_index.rs:217-230 | two blocks of a creator whose blocks are all comparable never approve two incomparable blocks of one creator |
| `Approval.ApproversOfForkIntersectInEquivocators` | crates/cordial-miners-core/src/ancestor_index.rs:217-230 | the creators that approve one side of a fork and those that approve the other share only equivocators |
| `Approval.ConflictsIffEquivocates` | crates/cordial-miners-core/src/blocklace.rs:568-574 | a creator has an entry in the conflict table exactly when it has two incomparable blocks, which is when the equivocator scan reports it |
| `StrictLace.IndexAnswers` | crates/cordial-miners-core/src/ancestor_index.rs:143-230 | end to end: for the index of a lace built by strict inserts, observation is reachability and equals what a traversal finds, and approval is Definition 18, with no further assumption |
| `Lace.ResolveWhenUnique` | crates/cordial-miners-core/src/blocklace.rs:214-240 | when no two stored ids share hash and creator, a reference resolves exactly when it is stored or is unsigned with a stored match |
| `BlocklaceStore.Blocklace.CommitValidated` | crates/cordial-miners-core/src/blocklace.rs:105-152 | a commit is refused exactly when another stored id has the same hash and creator; otherwise it stores the block, drops boundary entries that now resolve and counts one mutation |
| `BlocklaceStore.Blocklace.ForgetBlock` | crates/cordial-miners-core/src/blocklace.rs:155-163 | removes the block and its own boundary entry, and counts a mutation only when something was removed |
| `BlocklaceStore.Blocklace.SetCheckpointState` | crates/cordial-miners-core/src/blocklace.rs:165-178 | replaces the four checkpoint fields and counts one mutation |
| `BlocklaceStore.Blocklace.CurrentIndex` | crates/cordial-miners-core/src/blocklace.rs:84-102 | the returned index is an index of the present store, and a cached one with the present generation is reused |
| `BlocklaceStore.Blocklace.Insert` | crates/cordial-miners-core/src/blocklace.rs:307-360 | the refusals in their order, and the new store when none applies |
| `BlocklaceStore.Blocklace.InsertWithTrustedBoundary` | crates/cordial-miners-core/src/blocklace.rs:366-400 | the refusals in their order; otherwise the block is stored with exactly the predecessors that did not resolve before it, which are also returned |
| `BlocklaceStore.Blocklace.Observe` | crates/cordial-miners-core/src/blocklace.rs:462-491 | the visited set is exactly what the resolved start reaches in the lace cut at the checkpoint, and empty when the start does not resolve |
| `BlocklaceStore.Blocklace.Ancestors` | crates/cordial-miners-core/src/blocklace.rs:440-456 | the visited set is exactly what is reachable through the first-hop predecessors |
| `BlocklaceStore.Blocklace.Precedes` | crates/cordial-miners-core/src/blocklace.rs:511-518 | true exactly when the resolved first argument is among the ancestors of the second |
| `BlocklaceStore.Blocklace.SatisfiesChainAxiom` | crates/cordial-miners-core/src/blocklace.rs:546-559 | true exactly when no two blocks of the node are incomparable |
| `BlocklaceStore.Blocklace.FindEquivocators` | crates/cordial-miners-core/src/blocklace.rs:568-574 | returns exactly the creators with two incomparable blocks |
| `BlocklaceStore.PrecedesIsReaches` | crates/cordial-miners-core/src/blocklace.rs:511-518 | for two distinct stored blocks, preceding is reachability |
| `BlocklaceStore.AncestorsPlusSelfIsObserve` | crates/cordial-miners-core/src/blocklace.rs:440-491 | for a stored block of an acyclic lace, what it observes is itself and its ancestors, and it is never its own ancestor |
| `BlocklaceStore.ReferenceAncestors` | crates/cordial-miners-core/src/blocklace.rs:440-456 | exact condition under which an unsigned reference has the same ancestors as the block it resolves to: it fails exactly when that block is the checkpoint (or the reference itself equals it) and has a resolving predecessor |
| `BlocklaceStore.UnsignedCheckpointExpands` | crates/cordial-miners-core/src/blocklace.rs:440-456 | a lace in which it fails: the unsigned reference to the checkpoint has an ancestor, the checkpoint itself has none |
| `Dags.ResolutionStable` | crates/cordial-miners-core/src/blocklace.rs:214-251 | inserting a block with no stored variant never changes what an already resolving reference resolves to |
| `Dags.InsertKeepsUnique` | crates/cordial-miners-core/src/blocklace.rs:105-121 | such an insertion keeps ids unique per hash and creator |
| `Dags.StrictKeeps` | crates/cordial-miners-core/src/blocklace.rs:307-360 | a strict insert keeps ids unique and the boundary metadata equal to the unresolved predecessors, self-references included |
| `Dags.BoundedKeepsIff` | crates/cordial-miners-core/src/blocklace.rs:366-400 | a bounded-view insert keeps the metadata exact if and only if the block is already stored or does not name itself as a predecessor |
| `Dags.SelfNamingBlockBreaksMetadata` | crates/cordial-miners-core/src/blocklace.rs:366-400 | a block that names itself, inserted into the empty store by the bounded-view insert, leaves a recorded predecessor that resolves |
| `Dags.RunKeeps` | crates/cordial-miners-core/src/blocklace.rs:307-400 | over any run of the two insert methods without such self-references: ids stay unique, every resolved reference keeps its block, and the metadata is exactly the unresolved predecessors |
| `Dags.ClosedIffNoBoundary` | crates/cordial-miners-core/src/blocklace.rs:413-425 | without a checkpoint, a store with exact metadata is closed if and only if it records no trusted boundary |
| `Dags.StrictRunIsAcyclic` | crates/cordial-miners-core/src/blocklace.rs:307-360 | any run of strict inserts in which an identity always carries the same content yields a fully resolved acyclic lace |
| `Rounds.DepthEquation` | crates/cordial-miners-core/src/consensus/round.rs:41-86 | the depth of a stored block is the checkpoint depth at the checkpoint, zero without predecessors, otherwise one more than the deepest predecessor, and none when a predecessor has none |
| `Rounds.DepthIsFinal` | crates/cordial-miners-core/src/consensus/round.rs:41-86 | unfolding the recursion once per stored block is enough: more unfolding never changes a depth |
| `Rounds.GrowthKeepsDepth` | crates/cordial-miners-core/src/consensus/round.rs:29-31 | inserting a new block whose predecessors resolve into a closed store changes no existing depth |
| `Rounds.KnownDepthSurvives` | crates/cordial-miners-core/src/consensus/round.rs:29-31 | in any store, bounded view or not, a depth that is known stays the same under such an insertion |
| `Mirror.LiveBlocklaceMirror.Ingest` | crates/cordial-f1r3node-adapter/src/live_ingress.rs:301-323 | for any verifier: duplicate, conflict, buffered, applied or rejected, each exactly when it should be; only accepted blocks are inserted, strictly and one mutation each; after an applied block no pending block is ready; a rejected waiting block is gone from the buffer and the release stops there |
| `Mirror.LiveBlocklaceMirror.ReleasePending` | crates/cordial-f1r3node-adapter/src/live_ingress.rs:352-378 | releases blocks batch by batch until none is ready or the verifier rejects one; the order is a strict insertion order and the buffer loses exactly the released blocks and the rejected one |
| `Mirror.LiveBlocklaceMirror.IngestWithTrustedBoundary` | crates/cordial-f1r3node-adapter/src/live_ingress.rs:326-342 | the same decisions without buffering: missing predecessors are recorded, what becomes ready is released, and a rejection leaves what was done before it |
| `Confluence.IngestAll` | crates/cordial-f1r3node-adapter/src/live_ingress.rs:301-378 | for arrivals that the verifier accepts, with one block per hash and creator, every arrival order ends with the least set of blocks closed under "all predecessors resolve", and exactly the rest is pending |
| `Confluence.LeastClosedUnique` | crates/cordial-f1r3node-adapter/src/live_ingress.rs:301-378 | that set is unique, so the result does not depend on the order |
| `Confluence.SameUniverse` | crates/cordial-f1r3node-adapter/src/live_ingress.rs:301-378 | two arrival orders of the same blocks are judged against the same universe |
| `Boundaries.StrictOrderIsAcyclic` | crates/cordial-f1r3node-adapter/src/live_ingress.rs:301-378 | whatever the mirror inserts strictly into an empty lace is closed and acyclic, because a duplicate is dropped before it is inserted |
| `OrderedOutput.SignaturesDoNotMatter` | crates/cordial-f1r3node-adapter/src/ordered_output.rs:116-142 | signature variants of the same ordered blocks give the same output |
| `OrderedOutput.SharedOrderedOutput.Update` | crates/cordial-f1r3node-adapter/src/shared_ordered_output.rs:76-88 | an output is published exactly when it extends the published blocks; a refused one changes nothing |
| `Boundaries.NoBoundaryIsFullyResolved` | crates/cordial-miners-core/src/blocklace.rs:299-301 | a lace whose metadata covers what is missing and records nothing is fully resolved |
| `Boundaries.BoundaryCovers` | crates/cordial-miners-core/src/blocklace.rs:366-400 | a bounded-window insertion keeps every missing predecessor recorded |
| `Boundaries.GrowthCovers` | crates/cordial-f1r3node-adapter/src/live_ingress.rs:352-378 | strict growth keeps the metadata covering and adds no boundary |
| `PrefixReuse.ExtendsPastKeepsShallow` | crates/cordial-f1r3node-adapter/src/snapshot.rs:518-530 | strict insertions deeper than a round leave every block up to that round, its content and every old depth unchanged |
| `Ingress.ObservedStaysSound` | crates/cordial-f1r3node-adapter/src/live_ingress.rs:1305-1341 | the record update after a strict ingest keeps a safe record meaning: the lace differs from the saved one only by strict insertions past the anchor wave |
| `Ingress.StrictKeepsRecord` | crates/cordial-f1r3node-adapter/src/live_ingress.rs:1305-1341 | that holds for every outcome of a strict ingest: duplicate, buffered, applied alone, applied with releases, and with stale stamps; nothing is assumed of the ordering functions |
| `Ingress.UntrackedKeepsRecord` | crates/cordial-f1r3node-adapter/src/live_ingress.rs:1477-1562 | growth that is never reported to the record cannot make a stale record usable, because the mutation counter has moved on |
| `Ingress.GuardsJustifyExtension` | crates/cordial-f1r3node-adapter/src/live_ingress.rs:1213-1263 | in a valid state, under the documented contract of the verified-prefix helper, the guards also discharge its whole obligation |
| `Ingress.GuardsKeepShallow` | crates/cordial-f1r3node-adapter/src/live_ingress.rs:1213-1263 | in every valid state in which all guards pass, whatever the ordering functions do: the blocks up to the anchor wave end, their contents and depths, the weights and the wavelength are exactly those of the saved lace, which the contracts of publication and poll tie to the published output |
| `Ingress.PublishKeepsRecord` | crates/cordial-f1r3node-adapter/src/live_ingress.rs:1267-1297 | a publication leaves a sound record that belongs to the published output |
| `Ingress.PublishKeepsOrder` | crates/cordial-f1r3node-adapter/src/live_ingress.rs:1267-1297 | and, for an output that is the full ordering, a fingerprint and a record that vouch for it |
| `Ingress.LiveIngress.RecordStrictMirrorUpdate` | crates/cordial-f1r3node-adapter/src/live_ingress.rs:1305-1341 | the record afterwards, for every update and every pair of stamps |
| `Ingress.LiveIngress.MirrorStrict` | crates/cordial-f1r3node-adapter/src/live_ingress.rs:1569-1600 | mirror, then record: both caches stay sound, and a mirror conflict ends prefix reuse |
| `Ingress.LiveIngress.IngestTrustedBlock` | crates/cordial-f1r3node-adapter/src/live_ingress.rs:1373-1403 | a block refused by the adapter changes nothing; otherwise the strict path and its effect on the record |
| `Ingress.LiveIngress.IngestTrustedWindowBlock` | crates/cordial-f1r3node-adapter/src/live_ingress.rs:1410-1440 | everything but a duplicate or an adapter refusal ends prefix reuse; the lace grows by the boundary insertion and what it releases |
| `Ingress.LiveIngress.SetBonds` | crates/cordial-f1r3node-adapter/src/live_ingress.rs:987-993 | different bonds end prefix reuse, equal bonds change nothing |
| `WeightProjection.AuthorizedValidatorWeights` | crates/cordial-por/src/weights.rs:33-72 | the result has exactly the authorized validators, each under the weight that the list exports for it, not all zero; each refusal is justified, and only more than 2^64 validators can overflow the total |
| `WeightProjection.ProjectionIsExact` | crates/cordial-por/src/weights.rs:27-72 | over a canonical list a projection exists exactly when every validator is listed and one of them weighs something; it is then unique and never refused |
| `PrefixCheckpoints.FinalizedPrefixCheckpoint` | crates/cordial-f1r3node-adapter/src/por/finality.rs:149-177 | the checkpoint of a round is the rolling hash and the last block of its fixed part of the published prefix |
| `PrefixCheckpoints.CheckpointIsStable` | crates/cordial-f1r3node-adapter/src/por/finality.rs:149-177 | a checkpoint is the same in every later publication that extends the prefix, however many windows arrive at once |
| `PrefixCheckpoints.PrefixHashBinds` | crates/cordial-f1r3node-adapter/src/por/finality.rs:179-202 | prefixes of one length with one rolling hash are equal, or show two different links at one place that the hash function maps to one hash |
| `PrefixCheckpoints.CheckpointBindsPrefix` | crates/cordial-f1r3node-adapter/src/por/finality.rs:149-202 | so one checkpoint means one prefix |
| `PorActivation.CheckSource` | crates/cordial-f1r3node-adapter/src/live_ingress.rs:891-938 | succeeds exactly when the publication covers what the reputation was computed from: its sealed checkpoint, or its wave |
| `PorActivation.SourceStaysReached` | crates/cordial-f1r3node-adapter/src/live_ingress.rs:891-938 | a checkpoint source that was reached stays reached when the publication is extended |
| `PorActivation.CheckedWeights` | crates/cordial-f1r3node-adapter/src/live_ingress.rs:883-980 | the weights are the projection onto the present validators, their source is final here and they rewrite nothing final; each refusal names the check that failed |
| `PorActivation.RefusedMeansNone` | crates/cordial-f1r3node-adapter/src/live_ingress.rs:883-980 | over a canonical list a refusal means that no weights may be activated |
| `PorActivation.ActivatedIsUnique` | crates/cordial-f1r3node-adapter/src/live_ingress.rs:883-980 | and there is never a choice of weights |
| `Ingress.LiveIngress.ApplyPorWeights` | crates/cordial-f1r3node-adapter/src/live_ingress.rs:752-765 | success installs such weights and ends prefix reuse; inside a future epoch or on a refusal nothing changes |
| `PorActivation.CheckFinality` | crates/cordial-f1r3node-adapter/src/live_ingress.rs:940-980 | succeeds exactly when the final leader of the published wave is kept and the full ordering under the new weights extends the published blocks |
| `Ingress.LiveIngress.RestoreActivatedPorWeights` | crates/cordial-f1r3node-adapter/src/live_ingress.rs:718-742 | succeeds exactly outside a future epoch with the same validators |
| `Ingress.LiveIngress.InstallFutureEpoch` | crates/cordial-f1r3node-adapter/src/live_ingress.rs:631-672 | the exact conditions for success and for each error; success publishes the verified replay as an extension of the published blocks and switches weights, an error changes nothing, and repeating it is harmless |
| `Ingress.LiveIngress.TryExtendFinalizedPrefix` | crates/cordial-f1r3node-adapter/src/live_ingress.rs:1213-1263 | exactly the answer of the helper when every guard passes and the answer extends the published blocks, and no answer otherwise; whenever the guards pass, everything up to the anchor wave end is unchanged since the lace of the last ordinary publication, with no assumption on the ordering functions |
| `Ingress.LiveIngress.Publish` | crates/cordial-f1r3node-adapter/src/live_ingress.rs:1155-1177 | publication, fingerprint, record and the lace they were computed from move together, or none of them does |
| `Ingress.LiveIngress.LatestFinalizedOrderedOutput` | crates/cordial-f1r3node-adapter/src/live_ingress.rs:1077-1211 | outside an epoch exactly the published output on a fingerprint hit, and otherwise the extension or the full ordering, refused as failed or as not extending the published blocks; the whole state afterwards, the saved lace included; under the helper contract every success is the full ordering of the present lace, bonds and wavelength |
| `Ingress.CachesAreTransparent` | crates/cordial-f1r3node-adapter/src/live_ingress.rs:1077-1263 | under the helper contract a poll with its three paths answers, or fails with the same error, exactly like one that always computes the full ordering, unless the helper itself fails |
| `Ingress.LiveIngress.PollEpoch` | crates/cordial-f1r3node-adapter/src/live_ingress.rs:674-693 | inside an epoch the exact conditions for each error; otherwise the answer is the verified replay and both caches are dropped |
| `IngressRuns.Perform` | crates/cordial-f1r3node-adapter/src/live_ingress.rs:395-1600 | one call of any kind keeps the invariant, never shortens the published list, and answers a poll exactly |
| `IngressRuns.AttemptBacked` | crates/cordial-f1r3node-adapter/src/live_ingress.rs:1213-1341 | when the guards pass at a poll, some earlier poll published the present list with the same weights and wavelength, and nothing up to the end of its anchor wave has changed since the lace of that poll |
| `IngressRuns.RunCalls` | crates/cordial-f1r3node-adapter/src/live_ingress.rs:395-1600 | along any run of ingests, bond and weight changes, epoch installs and polls every published list is a prefix of every later one, every poll answer is exact, and the guards pass only over the lace of the poll that published what they extend |
| `Native.RecordedIsInverse` | crates/cordial-f1r3node-adapter/src/grpc_ingest.rs:126-167 | recording a checked candidate keeps the two maps mutual inverses, and changes nothing for one already recorded |
| `Native.ResolveParents` | crates/cordial-f1r3node-adapter/src/grpc_ingest.rs:270-306 | succeeds exactly when no parent is refused, and then maps every dependency to its accepted identity; a missing-parent error names a dependency that is not indexed |
| `Native.FromProtobufWithParents` | crates/cordial-f1r3node-adapter/src/grpc_ingest.rs:251-328 | the exact conditions under which a native message is accepted, and the block it is translated to |
| `Native.FromTrustedUnsignedGenesis` | crates/cordial-f1r3node-adapter/src/grpc_ingest.rs:210-246 | the exact conditions for the unsigned genesis exception |
| `Ingress.NativeSurvivesGrowth` | crates/cordial-f1r3node-adapter/src/live_ingress.rs:1477-1562 | growth of the lace keeps every indexed identity stored |
| `Ingress.NativeAccepts` | crates/cordial-f1r3node-adapter/src/grpc_ingest.rs:149-157 | indexing a stored candidate keeps the index inverse, its identities stored and its dependencies indexed |
| `Ingress.CandidateIsAvailable` | crates/cordial-f1r3node-adapter/src/live_ingress.rs:1518-1529 | the accepted identities of any dependencies resolve in the mirror, so the "resolved parent absent" error cannot occur |
| `Ingress.IndexedIsStored` | crates/cordial-f1r3node-adapter/src/live_ingress.rs:1503-1508 | an indexed identity is in the mirror, so the "indexed block absent" error cannot occur |
| `Ingress.LiveIngress.Preflight` | crates/cordial-f1r3node-adapter/src/live_ingress.rs:1483-1529 | passes exactly on the stated conditions, and a block that passes has all its predecessors in the mirror |
| `Ingress.OnlyWaitingClashes` | crates/cordial-miners-core/src/blocklace.rs:214-240 | an unsigned identity can clash only with a waiting variant, because a stored one would make it known |
| `Ingress.WaitingVariantBlocksGenesis` | crates/cordial-f1r3node-adapter/src/live_ingress.rs:1483-1552 | an instance: a signed variant that waits for a predecessor makes the mirror refuse a genesis message that passes every other check |
| `Ingress.LiveIngress.AcceptNative` | crates/cordial-f1r3node-adapter/src/live_ingress.rs:1538-1552 | a block that passed preflight is applied, never buffered, and then indexed; the mirror refuses exactly on a clash, and then a variant with another signature is waiting |
| `Ingress.LiveIngress.IngestNative` | crates/cordial-f1r3node-adapter/src/live_ingress.rs:1477-1562 | the exact conditions for success, and for each error the check that failed; a failure leaves mirror and index alone, and neither cache is told |
| `Ingress.OutcomeGrows` | crates/cordial-f1r3node-adapter/src/live_ingress.rs:1477-1562 | the index never forgets, and a message taken in is indexed |
| `BackfillWalk.SortedDependenciesAre` | crates/cordial-f1r3node-adapter/src/native_live_runner.rs:143-152 | the sorted and deduplicated dependency list holds exactly the parents and justifications, each once |
| `BackfillWalk.CycleThrough` | crates/cordial-f1r3node-adapter/src/native_live_runner.rs:157-159 | a dependency found among the waiting blocks closes a genuine dependency cycle of sourced blocks |
| `BackfillWalk.TurnKeeps` | crates/cordial-f1r3node-adapter/src/native_live_runner.rs:139-153 | a block being entered is never among the waiting ones, so the check on entry is never the one that fires, and it was never expanded before |
| `BackfillWalk.PushAllKeeps` | crates/cordial-f1r3node-adapter/src/native_live_runner.rs:154-165 | pushing dependencies keeps every dependency of a waiting block indexed or above it on the stack and adds one new missing dependency edge per fetch; a refusal names a genuine cycle, a missing edge more than the budget, or a wanted block that the source lacks |
| `BackfillWalk.EnterKeeps` | crates/cordial-f1r3node-adapter/src/native_live_runner.rs:136-166 | one visit keeps the walk sound with less left to do, or is refused for such a reason; a hash of the wrong length is that of the target or of a dependency of a missing block |
| `BackfillWalk.BudgetSuffices` | crates/cordial-f1r3node-adapter/src/native_live_runner.rs:160-162 | a budget that covers the dependency edges of the missing ancestry is never exceeded |
| `BackfillWalk.LimitCountsBlocks` | crates/cordial-f1r3node-adapter/src/native_live_runner.rs:160-162 | when no block is a dependency of two blocks of the missing ancestry, a limit of n means what it says: more than n blocks are missing |
| `BackfillWalk.DiamondExceedsItsBudget` | crates/cordial-f1r3node-adapter/src/native_live_runner.rs:160-165 | a budget equal to the number of missing blocks can be exceeded: a shared ancestor is fetched once for each block that depends on it |
| `BackfillRuns.RunIsSound` | crates/cordial-f1r3node-adapter/src/native_live_runner.rs:117-181 | over every run, the fetches stay within the budget and follow distinct missing dependency edges, and a run takes at most three steps per block of the budget and two for the target |
| `BackfillRuns.AppliedInOrder` | crates/cordial-f1r3node-adapter/src/native_live_runner.rs:167-178 | every block a run takes in is new, sourced, and has all its dependencies indexed at that moment |
| `BackfillRuns.AppliedCount` | crates/cordial-f1r3node-adapter/src/native_live_runner.rs:167-178 | a run adds exactly as many hashes to the index as it takes in blocks |
| `BackfillRuns.RunsAgree` | crates/cordial-f1r3node-adapter/src/native_live_runner.rs:117-181 | the request and the index decide the run: of two runs one continues the other |
| `BackfillRuns.FinishedRun` | crates/cordial-f1r3node-adapter/src/native_live_runner.rs:117-181 | a finished run has indexed the target and every block it fetched a dependency for |
| `BackfillRuns.RefusedRun` | crates/cordial-f1r3node-adapter/src/native_live_runner.rs:117-181 | when the walk itself refuses, a genuine cycle, a limit, a bad hash or a wanted block the source lacks explains it, whatever was done before; the ingress never refuses for a missing parent |
| `Backfill.EnterBlock` | crates/cordial-f1r3node-adapter/src/native_live_runner.rs:136-166 | visiting a block is the visit of the walk, refusals included |
| `Backfill.PushDependencies` | crates/cordial-f1r3node-adapter/src/native_live_runner.rs:154-166 | the loop over the dependencies, largest first, pushes exactly what the walk pushes: the fetched block of each dependency that is not indexed, or the first refusal |
| `Backfill.Step` | crates/cordial-f1r3node-adapter/src/native_live_runner.rs:134-178 | one turn of the loop over the ingress is one step of the walk; when a block is to be taken in, the turn fails exactly when adapter, database or admission turn it away, with the index unchanged |
| `Backfill.IngestWithNativeBackfill` | crates/cordial-f1r3node-adapter/src/native_live_runner.rs:117-181 | what the method did is a run of the walk that ends in the present index: success means that run is finished, the target is indexed and the count is the number of blocks taken in; a refusal is the one that run ends with, and a refusal by the ingress names a check that the block on top fails as things stand |
| `Backfill.AncestryIsIndexed` | crates/cordial-f1r3node-adapter/src/native_live_runner.rs:117-181 | the whole native ancestry of an indexed block is indexed and stored |
| `BackfillWalk.Read` | crates/cordial-f1r3node-adapter/src/native_block_source.rs:46-65 | a block read by hash has that hash |
| `Backfill.CheckWindow` | crates/cordial-f1r3node-adapter/src/native_live_runner.rs:82-99 | a window passes exactly when it holds every height and nothing else |
| `Backfill.ReplayNativeHeightWindow` | crates/cordial-f1r3node-adapter/src/native_live_runner.rs:70-115 | a bad window is refused before anything is ingested: index, lace and buffer are unchanged; on a complete one success means every block of it is indexed and the count is the number of newly indexed blocks, and a failure is the genuine refusal of the run over one block, everything below it being indexed |
| `SingleValidator.HasSameRoundFork` | crates/cordial-f1r3node-adapter/src/snapshot.rs:642-658 | true exactly when the validator has two blocks in one round |
| `SingleValidator.WaveLeader` | crates/cordial-f1r3node-adapter/src/snapshot.rs:682-709 | a leader is found exactly when the validator has one block in every round of the wave, and it is the block of the first round |
| `SingleValidator.LatestCompleteWave` | crates/cordial-f1r3node-adapter/src/snapshot.rs:664-713 | finds the greatest complete wave, or the reason there is none |
| `SingleValidator.SingleValidatorLeader` | crates/cordial-f1r3node-adapter/src/snapshot.rs:625-640 | a fork is terminal and reported exactly when there is one |
| `SingleValidator.CompleteSurvives` | crates/cordial-f1r3node-adapter/src/snapshot.rs:664-713 | more depths of an unforked validator keep complete waves complete |
| `SingleValidator.NeverBackwards` | crates/cordial-f1r3node-adapter/src/snapshot.rs:664-713 | more depths never move the latest complete wave backwards as long as the last round of the new top wave fits 64 bits; if it does not, and only then, the answer is lost |
| `SingleValidator.TopRoundLosesTheAnswer` | crates/cordial-f1r3node-adapter/src/snapshot.rs:664-713 | a validator with a complete wave whose answer is lost once it has a block in the last 64-bit round |
| `SingleValidator.GrowthExtendsDepths` | crates/cordial-miners-core/src/consensus/round.rs:95-101 | insertion of blocks whose predecessors resolve only adds depths |
| `Clamp.IntegerSqrt` | crates/cordial-por/src/clamp.rs:24-82 | the exact floor of the square root for every 128-bit input; the binary search alone is exact |
| `Clamp.ClampReputationValue` | crates/cordial-por/src/clamp.rs:89-132 | fails with a zero scale, overflows exactly when value and scale are nonzero and the sum of their squares reaches 2^128, and otherwise returns the rounded clamp, at most the value and at most the scale; no other checked step or saturation is reachable |
| `Clamp.ClampBounds` | crates/cordial-por/src/clamp.rs:84-132 | the clamp never exceeds the value or the scale |
| `Clamp.ClampMonotone` | crates/cordial-por/src/clamp.rs:84-132 | a larger value never clamps to a smaller one |
| `Clamp.RootIsLipschitz` | crates/cordial-por/src/clamp.rs:109-113 | the denominator grows no faster than the value |
| `Clamp.ClampReputationVector` | crates/cordial-por/src/clamp.rs:143-161 | clamps every entry under the same ids, and overflows exactly when some entry does |
| `Clamp.CursorFinds` | crates/cordial-por/src/clamp.rs:216-227 | in a canonical vector the advanced cursor stands on the target exactly when the vector has it |
| `Clamp.ClampReputationTransition` | crates/cordial-por/src/clamp.rs:176-214 | for all inputs: ids and order are kept, and every entry is clamped or carries over a previous reputation of its node; for vectors in canonical order, exactly a known node that nobody rated keeps its previous reputation, and overflow occurs exactly when an entry that is not carried over overflows |
| `Clamp.CarryForward` | crates/cordial-por/src/clamp.rs:186-210 | the pass over all entries with its two advancing cursors, exact on canonical vectors |
| `Normalization.TopMapsToScale` | crates/cordial-por/src/normalization.rs:80-87 | the top score maps exactly to the scale |
| `Normalization.OnlyTopMapsToScale` | crates/cordial-por/src/normalization.rs:80-87 | and no lower score does |
| `Normalization.NormalizedOrder` | crates/cordial-por/src/normalization.rs:80-87 | order is preserved and nothing exceeds the scale |
| `Normalization.GroupKeepsOrder` | crates/cordial-por/src/normalization.rs:42-78 | within a recipient group the order of the scores is kept |
| `Normalization.TopGetsScale` | crates/cordial-por/src/normalization.rs:42-78 | within a recipient group exactly the highest scores get the scale |
| `Normalization.NumeratorFits` | crates/cordial-por/src/normalization.rs:57-63 | past the overflow check no numerator overflows |
| `Normalization.NormalizeRecipientGroup` | crates/cordial-por/src/normalization.rs:42-78 | an empty group adds nothing; any other fails exactly when the denominator times the scale overflows, and otherwise its normalized scores are appended |
| `Normalization.NormalizeRatingMatrix` | crates/cordial-por/src/normalization.rs:19-40 | fails exactly on a zero scale or an overflowing group; otherwise the groups normalized in order |
| `Normalization.NormalizedMatrix` | crates/cordial-por/src/normalization.rs:19-40 | the result has one entry per rating, in order, under the same rater and recipient, none above the scale |
| `Chunking.ChunksAreRuns` | crates/cordial-por/src/normalization.rs:29-34 | the groups make up the input, each has one recipient, and neighbouring groups differ |
| `LiquidRank.ValidatePreviousReputationOrder` | crates/cordial-por/src/liquid_rank.rs:52-64 | accepts exactly the strictly ordered vectors, and names the fault of any other |
| `LiquidRank.ReputationOf` | crates/cordial-por/src/liquid_rank.rs:104-114 | the answer is one the vector records for the node; in a strictly ordered vector every recorded node is found |
| `LiquidRank.PushRecipientContribution` | crates/cordial-por/src/liquid_rank.rs:73-102 | an empty group adds nothing; over an ordered previous vector the floored weighted sum is appended, exactly when every rater is known and neither the sum nor the quotient overflows |
| `LiquidRank.ContributionBound` | crates/cordial-por/src/liquid_rank.rs:73-102 | scores within the scale make a contribution at most the previous reputation of its raters together |
| `LiquidRank.ComputeLiquidRankContribution` | crates/cordial-por/src/liquid_rank.rs:26-50 | one entry per recipient group in order, exactly when the previous vector is canonical and every group can be ranked |
| `LiquidRank.ContributionsAreOrdered` | crates/cordial-por/src/liquid_rank.rs:26-50 | over ratings sorted by recipient the contributions are in strict node order |
| `LiquidRank.NormalizedContributionBound` | crates/cordial-por/src/liquid_rank.rs:26-102 | after normalization every contribution is within the previous reputation of its raters |
| `ReputationBlocks.ValidateEntries` | crates/cordial-por/src/commitments.rs:248-267 | accepts exactly strictly ordered entries with consistent exclusion flags, and names the fault of any other |
| `ReputationBlocks.ValidateReputationBlock` | crates/cordial-por/src/block.rs:217-258 | accepts exactly the structurally valid blocks of versions 2 and 3 |
| `Commitments.ListPreimageInjective` | crates/cordial-por/src/commitments.rs:193-210 | two reputation lists have the same root preimage exactly when they are the same list |
| `ReputationCodec.PayloadParses` | crates/cordial-por/src/block.rs:332-404 | the payload of a valid block within the limits parses back to it |
| `ReputationCodec.ParsedIsPayload` | crates/cordial-por/src/block.rs:361-404 | whatever parses is the payload of what it parses to, and that is within the limits |
| `ReputationCodec.EnvelopeOpens` | crates/cordial-por/src/block.rs:271-329 | an envelope opens to its version and payload |
| `ReputationCodec.OpenedIsEnvelope` | crates/cordial-por/src/block.rs:288-329 | whatever opens is the envelope of what it opens to |
| `ReputationCodec.ReputationBlockDecoder.ReadExact` | crates/cordial-por/src/block.rs:516-527 | reads exactly the next bytes or fails without moving |
| `ReputationCodec.ReputationBlockDecoder.ReadEntries` | crates/cordial-por/src/block.rs:424-433 | reads exactly the counted entries in a row |
| `ReputationCodec.ReputationBlockDecoder.ReadHeader` | crates/cordial-por/src/block.rs:366-396 | reads the header fields in order, the checkpoint fields only for version 3 |
| `ReputationCodec.DecodePayload` | crates/cordial-por/src/block.rs:361-404 | succeeds exactly on the parsed and structurally valid payloads |
| `ReputationCodec.DecodeReputationBlock` | crates/cordial-por/src/block.rs:288-329 | success means the bytes are the encoding of the result, and every encoding decodes to its block |
| `ReputationCodec.PutList` | crates/cordial-por/src/block.rs:406-417 | validates and appends the list, failing exactly when the entries are invalid or a count, an id or the payload is over its limit |
| `ReputationCodec.EncodePayload` | crates/cordial-por/src/block.rs:332-359 | succeeds exactly on valid blocks within the limits, with the field-by-field payload |
| `ReputationCodec.EncodeReputationBlock` | crates/cordial-por/src/block.rs:271-285 | succeeds exactly on valid blocks within the limits, with the envelope around the payload |
| `ReputationCodec.EncodingIsInjective` | crates/cordial-por/src/block.rs:271-285 | distinct blocks have distinct encodings |
| `ReputationCodec.RoundTrip` | crates/cordial-por/src/block.rs:271-329 | encoding then decoding gives the same block |
| `ReputationCodec.Canonical` | crates/cordial-por/src/block.rs:271-329 | decoding then encoding gives exactly the same bytes, for every byte string that decodes |
| `BlockHash.BufferIffSameMeaning` | crates/cordial-miners-core/src/crypto.rs:154-193 | two preimages are equal exactly when creator, payload and the multiset of predecessor hash and creator pairs are |
| `BlockHash.OrderDoesNotMatter` | crates/cordial-miners-core/src/crypto.rs:172-190 | the preimage does not depend on the iteration order of the predecessor set |
| `BlockHash.BlockHashExt` | crates/cordial-miners-core/src/crypto.rs:163-193 | the hash is that of the preimage of any enumeration of the predecessors |
| `Ratings.CanonicalRatingPayload` | crates/cordial-por/src/ratings.rs:66-98 | appends the fields of the version 1 layout |
| `Ratings.CanonicalCheckpointRatingPayload` | crates/cordial-por/src/ratings.rs:105-145 | the version 2 layout, exactly for a valid checkpoint of the same round |
| `Ratings.Payload1Injective` | crates/cordial-por/src/ratings.rs:49-98 | two version 1 payloads agree exactly when all signed fields do |
| `Ratings.Payload2Injective` | crates/cordial-por/src/ratings.rs:100-145 | two version 2 payloads agree exactly when all signed fields and the checkpoint do |
| `Ratings.VersionsNeverCoincide` | crates/cordial-por/src/ratings.rs:17-25 | a version 1 payload is never a version 2 payload |
| `Ratings.BuildRatingBatch` | crates/cordial-por/src/ratings.rs:194-229 | accepts exactly valid ratings of the round without a repeated pair, and returns them sorted |
| `Ratings.ArrivalOrderDoesNotMatter` | crates/cordial-por/src/ratings.rs:187-229 | a permutation of ratings is accepted alike and gives the same batch |
| `Commitments.RatingBatchPreimage` | crates/cordial-por/src/commitments.rs:59-75 | succeeds exactly on an acceptable batch and lays out its canonical order |
| `Commitments.CheckpointRatingBatchPreimage` | crates/cordial-por/src/commitments.rs:165-190 | the same, bound to a valid checkpoint of the round |
| `Commitments.BatchPreimageMeansRatings` | crates/cordial-por/src/commitments.rs:55-75 | two acceptable batches of a round have the same preimage exactly when they hold the same ratings and signatures in any order |
| `Commitments.CheckpointBatchPreimageMeansRatings` | crates/cordial-por/src/commitments.rs:165-190 | two acceptable checkpoint-bound batches of a round have the same preimage exactly when they name the same checkpoint and hold the same ratings and signatures in any order |
| `Commitments.BatchVersionsNeverCoincide` | crates/cordial-por/src/commitments.rs:59-190 | a batch preimage of one version is never one of the other |
| `Commitments.PenaltyOrderDoesNotMatter` | crates/cordial-por/src/commitments.rs:77-162 | arrival order changes neither the acceptance of penalty events nor their canonical order |
| `Commitments.PenaltyEventsPreimage` | crates/cordial-por/src/commitments.rs:83-162 | succeeds exactly on sound events of the round whose preimage is not too large; no set is the empty set |
| `Commitments.PenaltyPreimageMeansEvents` | crates/cordial-por/src/commitments.rs:77-162 | two acceptable penalty sets of a round have the same preimage exactly when they hold the same events in any order |

## Left out

- Dags.StrictRunIsAcyclic: assumes that an identity always carries the same content, because strict re-insertion of a stored identity overwrites it; the mirror drops duplicates first, and Boundaries.StrictOrderIsAcyclic needs no such assumption.
- Confluence.IngestAll: arrivals that the verifier rejects are excluded; a rejection stops a release before the remaining ready blocks are inserted.
- BlocklaceStore.Blocklace.CurrentIndex: the generation counter is unbounded; its wrap-around after 2^64 mutations is not modelled.
- Rounds.DepthEquation: on a lace with a cycle of references the code recurses without end; the model gives such blocks no depth.
- BlockHash.BufferIffSameMeaning: byte strings and counts are below 2^64, the limit of the machine's length type.
- Ratings.Payload1Injective: byte strings are below 2^64, the limit of the machine's length type; the same holds for Ratings.Payload2Injective and the batch and list preimages of Commitments.
- Clamp.ClampReputationTransition: for vectors out of canonical node order, which the type documents and the code does not check, it is not stated which entries are carried over.
- LiquidRank.ReputationOf: for a vector out of strict order it is not stated which recorded nodes the binary search finds.
- ReputationCodec.DecodeReputationBlock: when several faults are present, which of them is reported is not stated.
- WeightProjection.ProjectionIsExact: for lists in canonical node order, which the type documents and the code does not check here, and at most 2^64 validators.
- PrefixCheckpoints.PrefixHashBinds: byte strings and prefixes are below 2^64, the limit of the machine's length type.
- Ingress.LiveIngress.MirrorStrict: the adapter-message entry point, which maps a message and then takes this path, is not a separate method; its mapping is outside the model.
- SingleValidator.SingleValidatorLeader: the validator argument and the depth map are parameters; the fallback for an incomplete wave belongs to the weighted ordering.
- The correctness of the weighted ordering, finality, pruning, alpha blending, penalty application and epoch replay.
- Hash collisions: preimages are proved injective, hash functions are arbitrary.
- The contents of the ordering cache, diagnostics, deploy tracing, timestamps, shard configuration and snapshots.
- Recovery of a mirror and an index from a database, and the finalized and height cursors.
- A database write that succeeds before the mirror refuses the same native block leaves that block stored; the database is not modelled.
- Configuration and block-header commitments, which are fixed sequences of already proved fields.
- Network, storage, servers, scripts and protobuf conversion.
