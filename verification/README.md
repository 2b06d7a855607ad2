# Verified model of the KBL compute runtime

The runtime executes chains of *dominos* (named commands) against sealed snapshots. It memoises every
step, logs a hash spine, replicates results between stores, compiles aggregation trees to chains, turns
a wheel of contexts through time slices, and runs chains as containers that hand files to each other.
This project models those parts in Dafny and proves what they promise.

`dafny verify dfyconfig.toml` checks everything.

| file | contents |
|---|---|
| `Basics.dfy`, `Runtime.dfy` | results and faults, sequences, decimal numerals; JSON values and the outside world as parameters |
| `StoreModel.dfy` | the abstract store and its contract: snapshots, memo, replay log, histories of writes |
| `SqlBackend.dfy`, `FileBackend.dfy`, `StoreRefinement.dfy` | the two backends, each proved against the abstract store, and against each other |
| `Spine.dfy`, `LogShape.dfy` | the hash spine, what a head link commits to, the shape of persisted logs |
| `Workflows.dfy`, `Engine.dfy` | the checks before a run and the memoising interpreter, as functions and as methods on a SQL store |
| `MemoTransparency.dfy`, `Exactness.dfy` | a run equals its memo-free fold, and exactly when it does |
| `Identity.dfy`, `StepInputs.dfy`, `Reuse.dfy` | what a snapshot ID commits to, what a step evaluates, what a run reports about its work |
| `DominoController.dfy` | standalone dominos: the controller that runs them one by one, and its agreement with a run |
| `Pinning.dfy`, `Histories.dfy` | a successful run is pinned; every operation is a sequence of writes |
| `Replica.dfy`, `Cdc.dfy`, `Transfer.dfy` | `Materialize`, change-data-capture, and when each of them succeeds |
| `Aggregation.dfy`, `Builtins.dfy`, `UnfoldWorkflow.dfy` | windows of a k-ary tree, coarsening, labels, and the compiler from trees to chains |
| `Interpolation.dfy` | linear interpolation of a curve |
| `Wheel.dfy`, `WheelProgress.dfy` | the Compute Wheel reconciler, and why it gets through |
| `Handoff.dfy` | runner containers, init containers and their agreement with the engine |

## How the system is abstracted

- SHA-256, JSON text, command execution and external snapshot sources are function values in `Runtime`.
  `JsonLaws` says that unmarshalling a marshalled value gives it back, `DigestLaws` that digests have 64
  hex characters. JSON numbers are rationals, so that both laws can hold at once.
- `exec` also takes the number of evaluations so far: an executor need not be a function of its input.
  Purity (`Pure`) is a hypothesis only where it is stated.
- No theorem assumes that the digest is injective. Spine results return a collision made of the texts at
  hand, and memo results assume no collision among the inputs that were actually met.
- Store calls are atomic and return an error from `Fault`; message texts are not kept.
- Go maps that loops fill become maps and sets; SQL queries are functions of a table; a directory is a map
  from file names to records, listed in any order; the clock readings of the file backend are parameters.
- Go floats are exact reals and Go ints are unbounded.
- Every lemma turns automatic induction off, so a proof by induction shows where it recurses.

## Findings

- A memo key does not contain the command, so a run is the fold of its chain only while the memo is honest.
  `Exactness.RunIsFoldIffHonest` gives the exact condition, for every store, whether the run succeeds or not:
  each memo entry that the lookups of the fold would hit is what evaluating the step gives. Moving a name to
  another command breaks it (`RebindingBreaksTransparency`, from `builtin:identity` to `builtin:coarsen`); the
  rerun then observes the old results (`ReboundRunIsStale`).
- A CDC delete that carries an after image counts as applied although it writes nothing, and a result of a
  domino outside the chain is counted in place of a missing one: `Cdc.SyncFromConsumer` can then report
  success on an incomplete target (`DeleteImageMisleads`, `ForeignDominoMisleads`). `SyncIsCompleteIff` says
  exactly when its success is truthful.
- A chain lets a step read any earlier output, but the domino controller loads only the outputs of `dependsOn`.
  Once its dependencies are ready, a standalone domino fails on a missing output exactly when it has an input
  that it does not declare as a dependency (`UndeclaredInputFails`). Where all are declared, reconciling the
  dominos in chain order writes what a run writes (`StandaloneIsRun`), and no order blocks (`AnyRoundsFinish`).
- `SyncFromConsumer` counts distinct dominos against the length of the chain, so it never succeeds for a chain
  that names a domino twice; otherwise it succeeds exactly where `Materialize` does (`TransferSucceedsIff`,
  `TransferAgreesWithCopy`).
- `dominoChainToWorkflow` copies only an inline snapshot source. For a path or URI the pod runs on the resolved
  text, and the engine then refuses the chain (`ExternalChainIsRefused`): pod and engine agree exactly when the
  source is inline (`AgreeIffInline`).
- A runner with an empty command exits before its turn, and `openKruiseSlotsComplete` does not see that failure
  until the slots before it are through (`EarlyFailureIsUnseen`); `CompletionIsTruthful` says exactly what it sees.
- The SQL fallback from the replay log to the memo table, and the fallback in `Materialize`, never find a
  row in any store that the operations can reach.

## Model

| member | source | states |
|---|---|---|
| MemoTransparency.RunIsTransparent | controller/pkg/engine/engine.go:36-180 | With pure commands, one name-to-command binding and no collision among the inputs met, a run gives the snapshot ID, hashes, outputs, links and errors of the memo-free, store-free fold; it is refused only by other content sealed under its ID; and the memo it leaves is valid even when it fails midway |
| MemoTransparency.HistoryIsTransparent | controller/pkg/engine/engine.go:79-179 | The same for every run of any sequence of runs, successful or not, on one store |
| MemoTransparency.HonestRunIsTransparent | controller/pkg/engine/engine.go:129-151 | Transparency needs only that memo entries met by the chain are what evaluation gives |
| MemoTransparency.InlineRunIsPlain | controller/pkg/engine/engine.go:36-180 | For a sealed inline snapshot the result of a run is that of the fold, on any store that accepts the snapshot |
| MemoTransparency.ContentAfterSave | controller/pkg/snapshot/store_content.go:12-86 | After the snapshot is saved, every store-first read gives the content the run started from |
| Pinning.SuccessIsPinned | controller/pkg/engine/engine.go:111-161 | After a success and any later writes, a run of the workflow or of a prefix of its chain has one exact outcome: no evaluation, same rows, same links, for any executor |
| Pinning.CarriedRunReplays | controller/pkg/engine/engine.go:129-133 | The same on any store that carries the sealed snapshot and the memo entries of a successful run |
| Pinning.RunEstablishes | controller/pkg/engine/engine.go:153-179 | A successful run has one row per chain name, appended to the log, covered by the memo, with the sealed snapshot in place |
| Pinning.StepsTrace | controller/pkg/engine/engine.go:82-162 | However far the loop gets, it appends a trace of its prefix and the memo entries of that trace |
| Pinning.RunVerifies | controller/pkg/engine/engine.go:182-190 | The entries of a successful run verify as a spine from the snapshot ID to the head link |
| Exactness.RunIsFoldIffHonest | controller/pkg/engine/engine.go:79-179 | For pure commands on any store that accepts the snapshot, failing runs included: a run returns what the fold returns and logs the rows of the fold exactly when every memo entry that the lookups of the fold would hit is what evaluating the step gives |
| Exactness.TransparentIffHonest | controller/pkg/engine/engine.go:129-151 | The same for the returned result alone, wherever the run or the fold succeeds |
| Exactness.AgreeingIsHonest | controller/pkg/engine/engine.go:82-162 | A loop that records what the fold records met only honest memo entries |
| Exactness.ReboundRunIsStale | controller/pkg/engine/engine.go:129 | A rerun under other commands, after any writes, observes the old results; for pure commands it is transparent exactly when the memo is honest for them |
| Exactness.RebindingIsStale | controller/pkg/engine/engine.go:129 | A name moved to any command with another output gives a run that is not transparent |
| Exactness.RebindingBreaksTransparency | controller/pkg/builtin/builtin.go:26-60 | For instance from builtin:identity to builtin:coarsen |
| SnapshotIdentity.RunIdCommits | controller/pkg/hash/hash.go:52-62 | The snapshot ID of a successful run is the first 32 hex digits of the digest of a JSON text that holds exactly the time slice and the content which the run read from the stored row or the source |
| SnapshotIdentity.EqualIdsCommit | controller/pkg/hash/hash.go:46-62 | Two successful runs with one ID ran on the same time slice and content, or exhibit two texts whose digests agree on 32 digits |
| SnapshotIdentity.SnapshotsStayApart | controller/pkg/engine/engine.go:41-57 | On a store filled by any runs and single steps, a sealed snapshot is never refused for what was sealed before, or two such texts are exhibited |
| SnapshotIdentity.SlicesRunApart | controller/pkg/engine/engine.go:46-57 | The same inline fields under two slices get two IDs and both end up sealed, or two such texts are exhibited |
| SnapshotIdentity.PreparesContent | controller/pkg/snapshot/store_content.go:61-86 | A run starts from the stored content of its status ID, or from its source, under the ID of that content, exactly when the snapshot is sealed and claims no other ID |
| SnapshotIdentity.ClaimsAreChecked | controller/pkg/engine/engine.go:36-53 | An unsealed snapshot, or one that claims the ID of other content, is refused and nothing is written |
| SnapshotIdentity.RunSeals | controller/pkg/engine/engine.go:55-57 | An accepted snapshot is sealed in the store even when the chain fails, and no other snapshot changes |
| SnapshotIdentity.IllNamedIsRefused | controller/pkg/engine/engine.go:59-77 | Empty or repeated names of dominos or steps, and empty chains, are refused in this order once the snapshot is sealed |
| StepInputs.InputIsPacked | controller/pkg/engine/engine.go:192-237 | The input of a step: the values of its declared inputs in order, one bare, several as an array, none as null, and the content where no input is declared; a missing output is the only error |
| StepInputs.SingleStepDid | controller/pkg/engine/engine.go:252-309 | A single step evaluates that input, or finds it in the memo, and records one linked row; it fails exactly for a missing output or a failing command |
| StepInputs.OnlyInputIsEvaluated | controller/pkg/engine/engine.go:203-232 | A step whose one input is the output of p gives its command the text of p's value, or p's raw text as a string |
| StepInputs.StepIsChecked | controller/pkg/engine/engine.go:82-114 | Which check refuses a step of a chain (unknown, gate, causal order, missing output), and what it evaluates otherwise |
| StepInputs.ReadsAllowedIsEarlier | controller/pkg/theory/causal.go:26-44 | In a chain of distinct names the causal check means that every read is the snapshot or stands earlier |
| StepInputs.RowsRecordInputs | controller/pkg/engine/engine.go:82-127 | Row i of a successful run is of an admitted domino that reads only earlier steps, and hashes its inputs taken from the content and the rows before it |
| DominoController.DominoReconciler.Reconcile | controller/internal/controller/domino_controller.go:35-145 | The method computes the specified next store and phases |
| DominoController.DominoReconciler.LoadDependencyOutputs | controller/internal/controller/domino_controller.go:147-175 | The loop gives the outputs of the dependencies, waits for one that is not done, or fails on a missing one |
| DominoTheorems.DependenciesAreOutputs | controller/internal/controller/domino_controller.go:147-175 | Outputs are given exactly when every dependency is done and has a result, and they are the latest ones |
| DominoTheorems.SingleIsStep | controller/pkg/engine/engine.go:252-309 | Where the checks pass, a single step at a cursor does exactly what the step of the chain does there: row, store, evaluations, error |
| DominoTheorems.ReconcileIsStep | controller/internal/controller/domino_controller.go:81-118 | The reconcile of the next domino, with its outputs loaded from the store, does what the step of the chain does |
| DominoTheorems.StandaloneIsRun | controller/internal/controller/domino_controller.go:81-118 | Dominos that declare what they read, reconciled in chain order from an empty log, leave the store, rows, head link and final output of one run, up to the first failing step |
| DominoTheorems.UndeclaredInputFails | controller/internal/controller/domino_controller.go:147-175 | With its dependencies ready, a standalone domino fails on a missing output exactly when an input is not among them |
| DominoTheorems.AnyOrderIsCausal | controller/internal/controller/domino_controller.go:81-94 | Whatever dominos are reconciled in whatever order, none is done before its dependencies, and no result is lost |
| DominoTheorems.AnyRoundsFinish | controller/internal/controller/domino_controller.go:81-118 | As many rounds as the chain is long, each reconciling all dominos in an order of its own, bring all of them to a result when no command fails |
| Reuse.WorkIsCounted | controller/pkg/engine/engine.go:129-179 | A successful run marks exactly the steps whose keys were in the memo before it, and reports that many reuses and as many evaluations as the executor made |
| Histories.StoresAreSound | controller/pkg/store/sqlite.go:133-199 | In every store that runs, single steps, replication, CDC and raw writes can reach, memo and log agree, and later operations change no memo entry, sealed snapshot or log row |
| Histories.SuccessStaysPinned | controller/pkg/engine/engine.go:111-161 | Pinning across any sequence of such operations |
| Histories.RedeliveryStaysAbsorbed | controller/pkg/cdc/apply.go:68-94 | An accepted batch is accepted again, and changes neither snapshots nor memo, after any runs, copies, batches and writes |
| Histories.ActivitiesAreWrites | controller/pkg/store/backend.go:8-17 | Any sequence of operations acts on the store as a sequence of SaveSnapshot and SaveResult calls |
| EngineImpl.Engine.Run | controller/pkg/engine/engine.go:36-180 | The method computes the specified outcome on a SQL store: result, store and evaluation count |
| EngineImpl.Engine.RunLoop | controller/pkg/engine/engine.go:82-162 | The loop over the chain is the fold of steps: its outputs, head, entries, store and evaluation count, also where it stops at an error |
| EngineImpl.Engine.RunNames | controller/pkg/engine/engine.go:79-179 | The result is made of the loop's final variables, or is its error |
| EngineImpl.Engine.RunStep | controller/pkg/engine/engine.go:83-161 | One iteration: checks, input, memo lookup or evaluation, link, save |
| EngineImpl.Engine.ResolveInputs | controller/pkg/engine/engine.go:192-237 | The loop over the inputs computes their parts; one part is passed bare, none as null |
| EngineImpl.Engine.LoadDataPreferStore | controller/pkg/snapshot/store_content.go:12-42 | Data of sealed, non-empty stored snapshots only |
| EngineImpl.Engine.RunSingleFrom | controller/pkg/engine/engine.go:252-309 | The single step computes the specified outcome |
| EngineImpl.Engine.RunNext | controller/internal/controller/domino_controller.go:105-111 | The domino controller continues at the spine head of the persisted log |
| Workflows.UniqueNames | controller/pkg/theory/names.go:8-20 | Accepts exactly the chains of distinct non-empty names |
| Workflows.AllowedReads | controller/pkg/theory/causal.go:26-44 | Accepts exactly the reads that are the snapshot or strictly earlier in the chain |
| Workflows.IndexDominos | controller/pkg/engine/engine.go:60-70 | Indexes every domino by name, or fails exactly for an empty or repeated name |
| StoreModel.SavedIsRead | controller/pkg/store/sqlite.go:82-99 | A saved snapshot is read back and no other changes; it is refused exactly when other content is sealed under its ID |
| StoreModel.ResultIsRead | controller/pkg/store/sqlite.go:133-174 | A saved result is the latest of its domino and found under its key unless it was reused, and nothing else changes; it is refused exactly for another memo entry |
| StoreModel.HistoryExtends | controller/pkg/store/once.go:19-43 | No sequence of writes changes a sealed snapshot, a memo entry or a log row |
| StoreModel.ReachableMemoLogAgree | controller/pkg/store/sqlite.go:133-174 | In every reachable store each memo entry has an evaluated row and each evaluated row its memo entry |
| StoreModel.NoRowNoMemo | controller/pkg/store/sqlite.go:181-199 | A domino without a log row has no memo entry |
| StoreModel.LastSpineResult | controller/pkg/store/backend.go:40-47 | The backward loop finds the last row of a domino |
| SqlBackend.SqlStore.SaveSnapshot | controller/pkg/store/sqlite.go:82-99 | Refines the abstract write-once snapshot |
| SqlBackend.SqlStore.SaveResult | controller/pkg/store/sqlite.go:133-174 | Refines the abstract memo and log, keeping keys unique |
| SqlBackend.SqlStore.LookupMemo | controller/pkg/store/sqlite.go:117-131 | The keyed query reads the abstract memo |
| SqlBackend.SqlStore.GetLatestResult | controller/pkg/store/sqlite.go:181-199 | With its fallback, still the last row of the spine |
| SqlBackend.SqlStore.ListReplay | controller/pkg/store/sqlite.go:201-223 | The rows of a snapshot in order of insertion |
| SqlBackend.SelectKeyIsLookup | controller/pkg/store/sqlite.go:117-131 | With unique keys, a query by key is a lookup in the map that the table stands for |
| FileBackend.FileStore.SaveSnapshot | controller/pkg/store/tsdb_engine.go:39-65 | Record and sidecar files refine the abstract snapshot; file names of hex IDs never clash |
| FileBackend.FileStore.SaveResult | controller/pkg/store/tsdb_engine.go:154-210 | Memo and replay files refine the abstract memo and log |
| FileBackend.FileStore.ListReplay | controller/pkg/store/tsdb_engine.go:239-289 | Sorting the files gives the rows in order of insertion, in whatever order the directory lists them |
| FileBackend.FileStore.GetLatestResult | controller/pkg/store/tsdb_engine.go:217-229 | The last row of the spine |
| FileBackend.MemoPathInjective | controller/pkg/store/tsdb_engine.go:320-322 | Different memo keys have different paths |
| FileBackend.ReplayNameInjective | controller/pkg/store/tsdb_engine.go:208-209 | Replay files of different clock readings have different names |
| FileBackend.IncreasingUnique | controller/pkg/store/tsdb_engine.go:278-283 | Sorting by creation time determines the order |
| StoreRefinement.Compare | controller/pkg/store/backend.go:8-17 | Any sequence of calls gets the same answers from both backends |
| StoreRefinement.RunFits | controller/pkg/store/tsdb_engine.go:154-210 | With domino names that are plain file names, every key that a run writes is one that the file backend keeps apart |
| Spine.VerifySpine | controller/pkg/theory/spine.go:13-29 | The loop accepts exactly the hash chains from the snapshot ID |
| Spine.SpineCommits | controller/pkg/theory/spine.go:13-29 | Two verified logs with one 32-character root and one head have the same length and hashes, or exhibit two of their link texts with one digest |
| Spine.LinkTextInjective | controller/pkg/hash/hash.go:38-43 | With colon-free hashes a link text determines its parts |
| Spine.SegmentsOf | controller/pkg/theory/spine.go:13-29 | A log whose rows continue or restart splits into spines |
| Spine.SpinesAreSegmented | controller/pkg/theory/spine.go:13-29 | The converse |
| LogShape.LogIsSpines | controller/pkg/engine/engine.go:153-161 | After any mix of runs and single steps, the persisted log of each snapshot is a concatenation of spines rooted at its ID |
| LogShape.RunKeepsSegments | controller/pkg/engine/engine.go:80-162 | A run appends one new spine, complete or cut short |
| LogShape.NextKeepsSegments | controller/internal/controller/domino_controller.go:105-111 | A single step from the spine head extends the last spine |
| LogShape.HeadLinkCommits | controller/pkg/theory/spine.go:13-29 | Two successful runs on stores filled by runs and single steps, with one snapshot ID and one head link, have the same per-step hashes or exhibit two link texts with one digest |
| LogShape.SessionIsHex | controller/pkg/hash/hash.go:14-22 | Every output hash in the memo of such a store is hex |
| LogShape.SpineHeadIsHead | controller/pkg/store/backend.go:32-37 | SpineHead finds the head of the log |
| Replica.MaterializeStores | controller/pkg/replica/materialize.go:24-70 | The method copies as specified, with the source's fallback written out |
| Replica.MaterializedRunReplays | controller/pkg/replica/materialize.go:24-70 | After a successful copy of a just-run chain the target replays it with zero evaluations and the same head link; into an empty log the copied rows verify as that spine |
| Replica.MaterializeSucceedsIff | controller/pkg/replica/materialize.go:42-67 | The copy succeeds exactly when the target holds no other sealed content and no other memo entry under the copied keys |
| Replica.CopyRowsExactly | controller/pkg/replica/materialize.go:48-67 | The copy loop logs the last row of every domino, or stops at the first one without a row or with another memo entry on the target, after counting those before it |
| Replica.CopySucceedsIff | controller/pkg/replica/materialize.go:24-70 | For any source, target and chain: no error exactly when the source holds the snapshot sealed and a row of each domino, and the target holds nothing that contradicts them |
| Replica.CopyIsComplete | controller/pkg/replica/materialize.go:24-70 | A copy without error counts the whole chain, and the target then has the source's snapshot and latest result of each domino |
| Transfer.ExportSucceedsIff | controller/pkg/cdc/export.go:13-52 | The export succeeds exactly when the snapshot is sealed and every domino has a result; it then carries the snapshot and the latest results in chain order |
| Transfer.TransferSucceedsIff | controller/pkg/cdc/kafka.go:147-161 | For any source, target and chain: export and sync succeed exactly when nothing is missing or contradicted and no name is repeated |
| Transfer.TransferAgreesWithCopy | controller/pkg/replica/materialize.go:24-70 | For distinct names CDC succeeds exactly when Materialize does |
| Transfer.TransferIsComplete | controller/pkg/cdc/kafka.go:147-161 | After a transfer the target has the source's snapshot and latest result of each domino |
| Transfer.BatchStaysInside | controller/pkg/cdc/apply.go:68-94 | Whatever envelopes a batch for one snapshot holds, accepted or not, rows, memo entries and snapshots of others stay |
| Transfer.ResultImageApplies | controller/pkg/cdc/apply.go:36-49 | A result image needs a sealed parent; it adds its row to the log, and to the memo unless it is marked as reused or other content is there |
| Cdc.ApplyTo | controller/pkg/cdc/apply.go:11-49 | The method applies one envelope as specified |
| Cdc.ApplyAllTo | controller/pkg/cdc/apply.go:68-94 | The loop applies the matching envelopes and counts distinct dominos |
| Cdc.SyncConsumer | controller/pkg/cdc/kafka.go:147-161 | Success exactly when the batch was accepted and the counts are complete |
| Cdc.ExportFromStore | controller/pkg/cdc/export.go:13-52 | The loop exports the sealed snapshot and the latest result of every domino |
| CdcTheorems.EveryTargetIsSafe | controller/pkg/cdc/apply.go:22-49 | From an empty target, any batches in any order leave only sealed snapshots, and memo entries and rows with sealed parents |
| CdcTheorems.RedeliveryIsAbsorbed | controller/pkg/cdc/apply.go:68-94 | An accepted batch, delivered again at once or after any writes, is accepted and changes neither snapshots nor memo |
| CdcTheorems.SyncIsComplete | controller/pkg/cdc/kafka.go:147-161 | Without deletes that carry images and without foreign dominos, success means the snapshot is sealed and every chain domino has a result |
| CdcTheorems.SyncIsCompleteIff | controller/pkg/cdc/kafka.go:147-161 | After a success, the target is complete exactly when every piece it lacked was written by some envelope |
| CdcTheorems.DeleteImageMisleads | controller/pkg/cdc/apply.go:73-80 | A batch of one delete with an image is reported complete |
| CdcTheorems.ForeignDominoMisleads | controller/pkg/cdc/apply.go:81-91 | A foreign result is counted for a missing one |
| CdcTheorems.SyncedRunReplays | controller/pkg/cdc/export.go:13-52 | A just-run chain exports, and a target that accepted the batch replays the run with zero evaluations and the same links |
| Aggregation.CoarsenConserves | controller/pkg/theory/aggregation.go:41-79 | Coarsening keeps label and leaf sum and lowers the height by one until zero, on every tree |
| Aggregation.CoarsenToLeaf | controller/pkg/theory/aggregation.go:41-110 | As many coarsenings as the tree is high leave one leaf holding the leaf sum |
| Aggregation.CoarsenUnfold | controller/pkg/theory/aggregation.go:24-79 | Coarsening a window is the shallower window: labels, depths and exact values |
| Aggregation.ComputeCoarsen | controller/pkg/theory/aggregation.go:41-79 | The recursion with its loops computes the coarsening |
| Aggregation.ComputeHeight | controller/pkg/theory/aggregation.go:99-110 | The loop computes the longest path |
| Aggregation.ComputeLeaves | controller/pkg/theory/aggregation.go:141-153 | The loop collects the leaves from left to right |
| Aggregation.ComputeLeafCount | controller/pkg/theory/aggregation.go:129-138 | The loop computes the power |
| Aggregation.LeafCountIsExact | controller/pkg/theory/aggregation.go:129-153 | A window has LeafCount leaves |
| Aggregation.ComputeNodeCount | controller/pkg/theory/unfold_workflow.go:63-76 | The loop computes the closed form |
| Aggregation.NodeCountIsExact | controller/pkg/theory/unfold_workflow.go:63-76 | The closed form divides exactly and counts the nodes, arity one included |
| Aggregation.LabelsDistinct | controller/pkg/theory/aggregation.go:24-36 | The labels of a window are pairwise distinct strings |
| Aggregation.LeavesInOrder | controller/pkg/theory/aggregation.go:24-36 | From left to right the leaves of a window spell strings of one digit per level in strictly increasing order, and all hold the same value |
| Aggregation.SeatsInOrder | controller/pkg/wheel/window.go:12-25 | So do the seats of the wheel |
| Aggregation.SeatsAreDistinct | controller/pkg/wheel/window.go:12-25 | Seat labels are distinct and number SeatCount |
| UnfoldWorkflow.Collector.Walk | controller/pkg/theory/unfold_workflow.go:31-60 | The walk appends the dominos and names of the tree in post-order |
| UnfoldWorkflow.DominoFromNode | controller/pkg/theory/unfold_workflow.go:41-53 | A leaf reads the snapshot with the identity, an inner node reads its children in order with coarsen |
| UnfoldWorkflow.WorkflowFromUnfold | controller/pkg/theory/unfold_workflow.go:11-29 | The method compiles as specified |
| UnfoldWorkflow.CompiledIsWellFormed | controller/pkg/theory/unfold_workflow.go:11-60 | The chain has NodeCount distinct names and every child stands before its parent |
| UnfoldWorkflow.CompiledRunFolds | controller/pkg/theory/unfold_workflow.go:11-60 | For every depth, arity and sealed inline snapshot the compiled workflow is never rejected, takes NodeCount steps and puts out LeafCount times the snapshot's value |
| UnfoldWorkflow.CompiledRunOnFreshStore | controller/pkg/theory/unfold_workflow.go:11-60 | In particular on any store that has not seen the snapshot |
| UnfoldWorkflow.RunRoot | controller/pkg/engine/engine.go:82-164 | The chain of any embedded tree evaluates to the recursive fold of the tree |
| UnfoldWorkflow.FoldUnfold | controller/pkg/theory/aggregation.go:24-36 | The recursive fold of a window is LeafCount times the leaf value |
| CompiledDominos.ReadsChildren | controller/pkg/theory/unfold_workflow.go:31-60 | The domino of a node reads and depends on its children in their order |
| CompiledDominos.SiblingsInOrder | controller/pkg/theory/unfold_workflow.go:31-60 | Siblings stand in the chain from left to right |
| CompiledDominos.CompiledIsWired | controller/pkg/theory/unfold_workflow.go:11-60 | The compiled workflow is deterministic, runs only builtins, ends in the root, and declares every read as an earlier dependency |
| CompiledDominos.WindowRunsStandalone | controller/internal/controller/domino_controller.go:81-118 | So its dominos, run by themselves in chain order, leave the store and the final output of one run |
| Builtins.NumericValueIsAtEnd | controller/pkg/builtin/builtin.go:87-106 | The numeric value is the number at the end of the path of fields value, or v where there is no value, and zero where there is none |
| Builtins.CoarsenedFields | controller/pkg/builtin/builtin.go:54-85 | The output of coarsen is an object with the sum as value and v, the number of items as parts, and the method; null has no items |
| Builtins.IdentityIsCanonical | controller/pkg/builtin/builtin.go:39-52 | The output of identity denotes its input's value and depends on nothing else of its text; other text passes through |
| Builtins.CoarsenOfText | controller/pkg/builtin/builtin.go:54-61 | No input counts as null, and text that is not JSON is an error |
| Builtins.ComputeCoarsenText | controller/pkg/builtin/builtin.go:54-78 | The loop sums the numeric values of the items |
| Builtins.CoarsenOfMarshal | controller/pkg/builtin/builtin.go:54-85 | On the text of a value other than null, the sum and number of its items |
| Interpolation.ComputeLinearInterp | controller/pkg/builtin/builtin.go:215-243 | The scan computes the interpolation on the sorted points |
| Interpolation.InterpIsLinear | controller/pkg/builtin/builtin.go:232-242 | Between two neighbouring points of the list the result lies on the line through them |
| Interpolation.InterpIsClamped | controller/pkg/builtin/builtin.go:225-230 | Up to the first tenor the result is its rate, and from the last tenor on its rate |
| Interpolation.InterpWithinRates | controller/pkg/builtin/builtin.go:215-243 | The result lies between the smallest and the largest rate |
| Interpolation.InterpHitsKnots | controller/pkg/builtin/builtin.go:215-243 | Every knot is hit exactly |
| Interpolation.InterpMonotone | controller/pkg/builtin/builtin.go:215-243 | Rates that do not fall give results that do not fall |
| Interpolation.InterpIgnoresOrder | controller/pkg/builtin/builtin.go:219-223 | The order of the points does not matter |
| Wheel.Controller.Step | controller/internal/controller/computewheel_controller.go:47-177 | One reconcile computes the specified next state of status and workflows, whichever calls fail |
| Wheel.Controller.StepAt | controller/internal/controller/computewheel_controller.go:102-226 | The part after initialisation, with advance |
| Wheel.Controller.PreProvision | controller/internal/controller/computewheel_controller.go:228-267 | Creates the next slot's workflow, looked up without a rotation limit |
| WheelTheorems.WheelIsExact | controller/internal/controller/computewheel_controller.go:82-226 | Under any reconciles, phase changes and failures, slot j is context j mod n at start plus (j div n) intervals, and with R rotations Idle means exactly n*R slots |
| WheelTheorems.IdleStays | controller/internal/controller/computewheel_controller.go:102-105 | An idle wheel stays as it is |
| WheelTheorems.OnlyCompletedIsRecorded | controller/internal/controller/computewheel_controller.go:155-194 | Every recorded slot is of a workflow that was seen Completed, and records are never changed |
| WheelTheorems.ReconcileRecords | controller/internal/controller/computewheel_controller.go:179-194 | One reconcile records at most the active slot, with the snapshot ID of its completed workflow |
| WheelTheorems.SlotsAreDistinct | controller/pkg/wheel/rotation.go:72-92 | With distinct contexts and a positive interval no slot is recorded twice |
| WheelTheorems.CompletionAdvances | controller/internal/controller/computewheel_controller.go:155-226 | Once the active workflow completes, an undisturbed reconcile records exactly its slot |
| WheelTheorems.ReadyRecords | controller/internal/controller/computewheel_controller.go:155-226 | A reconcile records a slot exactly when it meets the active workflow Completed, none of the calls it needs fails and the wheel is not idle |
| WheelTheorems.ReachesIdle | controller/internal/controller/computewheel_controller.go:102-226 | From a new wheel, under any events: as many slots are recorded as reconciles were ready, up to n*R, and the wheel is Idle exactly when n*R of them were |
| WheelTheorems.FairRoundsFinish | controller/internal/controller/computewheel_controller.go:196-204 | Any n*R rounds of events, each with an undisturbed reconcile that meets the active workflow Completed, leave the wheel Idle with n*R slots |
| WheelTheorems.NextIsProvisioned | controller/internal/controller/computewheel_controller.go:228-267 | With pre-provisioning the next slot's workflow exists when the wheel gets there |
| WheelProgress.AcceptedSpecs | controller/pkg/wheel/window.go:29-47 | A spec is accepted exactly with some context, a readable interval and start, and as many contexts as its window, if any, has seats; a new wheel with another spec reports Error |
| WheelProgress.UndisturbedReconcile | controller/internal/controller/computewheel_controller.go:127-177 | An undisturbed reconcile creates the missing active workflow, pending; otherwise its phase decides what is recorded or reported, and at most the next slot's workflow is added |
| WheelProgress.FirstReconcile | controller/internal/controller/computewheel_controller.go:82-101 | The first reconcile of a new wheel goes on from an exact position that begins at the given time, or at the last multiple of the interval |
| WheelProgress.PossibleStarts | controller/pkg/wheel/rotation.go:47-68 | The starts that WheelIsExact speaks of are exactly those |
| WheelProgress.RoundRecords | controller/internal/controller/computewheel_controller.go:127-226 | In an environment that completes the workflows that exist, and creates and deletes none, a round with an undisturbed reconcile before and after records a slot |
| WheelProgress.GoodRoundsFinish | controller/internal/controller/computewheel_controller.go:196-204 | Enough such rounds leave the wheel Idle with n*R slots |
| WheelProgress.NewWheelFinishes | controller/internal/controller/computewheel_controller.go:82-226 | In particular from a new wheel in a world without workflows |
| WheelProgress.StatusIsCoherent | controller/internal/controller/computewheel_controller.go:179-226 | Under any events and failures the status names the context of the position, and while Processing its workflow; an idle one names none |
| WheelProgress.FailedCalls | controller/internal/controller/computewheel_controller.go:107-149 | A failed read leaves the world as it is; a failed check or creation is reported as Error; neither moves the position |
| WheelTheorems.RefusedSpecNeverAdvances | controller/internal/controller/computewheel_controller.go:70-98 | A wheel whose spec is refused never records a slot |
| Handoff.RunInitChain | controller/pkg/dominochain/builder.go:110-124 | The init containers compute the sequential fold and leave its last output in the hand-off file |
| Handoff.Volume.Run | controller/cmd/domino-runner/main.go:17-64 | One runner reads its input, executes and writes, or fails and writes nothing |
| Handoff.OpenKruiseSlotsComplete | controller/internal/controller/dominochain_controller.go:349-376 | The nested loops compute the verdict over the slots in order |
| Handoff.DominoChainToWorkflow | controller/internal/controller/dominochain_controller.go:501-539 | The loops build the workflow that reads step by step; only an inline source is kept |
| Handoff.SlotNamesApart | controller/pkg/dominochain/builder.go:246-285 | Container names of different slots differ, whatever the step names, and equal names come from equal sanitized step names |
| Handoff.SanitizeKeeps | controller/pkg/dominochain/builder.go:250-266 | A sanitized name is the first 20 legal characters of the name in lower case, or step |
| HandoffTheorems.TranslatedRunCommits | controller/internal/controller/dominochain_controller.go:522-529 | The snapshot ID of a run of a translated chain commits to the chain's time slice and inline fields |
| HandoffTheorems.TranslatedRunReads | controller/internal/controller/dominochain_controller.go:501-539 | In such a run every command passed the purity gate, and step i hashes the content or the value of the output before it |
| HandoffTheorems.OutputsArePrefix | controller/pkg/dominochain/builder.go:167-181 | Under every schedule the files are a growing prefix of the sequential outputs |
| HandoffTheorems.SomeSlotCanMove | controller/cmd/domino-runner/main.go:17-64 | No deadlock: an unfinished pod has a slot that can move |
| HandoffTheorems.EveryFairScheduleAgrees | controller/pkg/dominochain/builder.go:167-181 | Every schedule in which each slot moves often enough has the outcome of the sequential fold, failures included |
| HandoffTheorems.CompletionIsTruthful | controller/internal/controller/dominochain_controller.go:349-376 | In whatever order statuses come, completion is seen exactly when every slot is through, and failure exactly when a slot failed with all before it through; without empty commands every failure is of that kind |
| HandoffTheorems.EarlyFailureIsUnseen | controller/internal/controller/dominochain_controller.go:349-376 | A pod whose second slot has failed on an empty command, reported as not complete |
| HandoffTheorems.EngineAgreesWithPod | controller/internal/controller/dominochain_controller.go:287-327 | For pure, distinctly named steps that read their inputs as JSON values along the fold, the pod succeeds exactly when the engine's run of the translated chain does, with the same final output |
| HandoffTheorems.JsonStepsReadValues | controller/cmd/domino-runner/main.go:17-64 | Chains of commands that depend on JSON values and emit JSON read values along the fold, from any JSON text |
| HandoffTheorems.IdentityIsJson | controller/pkg/builtin/builtin.go:42-52 | builtin:identity is such a command |
| HandoffTheorems.CoarsenIsJson | controller/pkg/builtin/builtin.go:57-85 | builtin:coarsen is such a command |
| HandoffTheorems.AgreeIffInline | controller/internal/controller/dominochain_controller.go:501-539 | For every source that the controller can mount, on a store that accepts the snapshot, pod and engine agree exactly when the source is inline |
| HandoffTheorems.ExternalChainIsRefused | controller/internal/controller/dominochain_controller.go:515-526 | A path or URI is dropped in translation, and the engine refuses the chain with nothing written |

## Left out

- Kubernetes client calls, finalizers, owner references, ConfigMaps, deep copies, HTTP, Kafka transport, mmap and Julia subprocesses: foreign effects without an algorithm.
- JSON text, time formats, SHA-256 and sub-second times: abstracted as described above.
- A crash between the two file writes of a snapshot, and concurrent runs on one store: operations are atomic and sequential per store.
- EngineImpl.Engine.Run: does not model MinRegularity and WorkCostUSD of the result, which no later step reads.
- EngineImpl.Engine.RunNames: does not model MinRegularity and WorkCostUSD either.
- FileBackend.FileStore.SaveSnapshot: asks for hex snapshot IDs; the IDs that runs compute are hex.
- FileBackend.FileStore.SaveResult: asks for hex snapshot IDs, domino names that are plain file names, input hashes of at least 8 characters and a strictly increasing clock; outside these the file engine panics, fails or mixes files up.
- StoreRefinement.Compare: asks for the same of every call.
- Replica.MaterializeStores: source and target are distinct store objects.
- Handoff.RunInitChain: asks for pure commands; containers with their own arguments or images do not run the modelled runner.
- HandoffTheorems.OutputsArePrefix: asks for pure commands; with an impure one the outputs of a schedule are not those of one fold.
- HandoffTheorems.EngineAgreesWithPod: assumes commands that pass the purity gate, because the translated workflow is deterministic without a sandbox and the engine rejects others. An operator without a Julia runtime does not run chains with Julia steps at all.
- DominoController.DominoReconciler.Reconcile: does not model failing status writes, a missing snapshot resource, spec generations and requeue delays; the transient phase Running is not stored.
- DominoTheorems.StandaloneIsRun: asks for dominos that declare their reads as dependencies, and for an empty log of the snapshot; a single step makes neither the purity check nor the causal check of a run.
- Wheel.Controller.Step: a failed status write leaves the stored status unchanged; lost replies to writes that were stored, lastRotation, messages, finalizers and deletion are not modelled.
- Wheel.Controller.StepAt: lastRotation and messages are not modelled.
- The 15-minute input deadline of a runner: schedules are those in which it does not fire.
- initChainComplete: reads the statuses by position, so the matching of names that openKruiseSlotsComplete needs does not arise.
- CausalPast, ShapeEqual, regularity labels in results and cost accounting: no modelled operation reads them.
- ExportFromWorkflow and FromEngineWorkflow: the first carries reused flags that skip the target memo, the second follows the domino list instead of the chain, so neither preserves the meaning that is proved here.
- A bound on pre-provisioned workflows: the look-ahead has no rotation limit, so only processed slots are bounded.
- Orphan freedom for single steps: RunSingleFrom does not save the snapshot itself.
- Routing, event bus de-duplication, name truncation, entropy, escape time and homeostasis: they neither read nor write the stores, chains and positions modelled here.
