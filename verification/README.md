# Verified model of the RAgent ingest pipeline

A Dafny model of how RAgent takes a document from upload to index, with proofs about it.

**The ingest DAG as a distributed protocol.** Documents move through a declared pipeline of stages; which stages
apply depends on the document's family. Any number of workers take messages from per-stage queues, record progress in a
store, find out which stages have become ready, reserve them and publish them. `Protocol.dfy` models one run as store
rows, messages at rest, and deliveries that each stand at a point of the worker's code, with every store transaction
and every publish a step of its own; crashes, rejections, broker redeliveries and operator resumes are further steps.
`Handoff.dfy`, `Delivery.dfy` and `Termination.dfy` prove what crash-free runs keep; `Necessity.dfy` shows that the
fork-join shape of the pipeline is exactly what at-most-once hand-off needs; `Recovery.dfy` and `Resumption.dfy` treat
everything else that can happen, and `Retries.dfy` which failures are retried, when, and what a dead letter means.
`ResumeOrder.dfy` says in which order stages are queued. `Worker.dfy` is the consumer as it is written, over a store
and a broker that note what they do in one journal, and ties what it does, event by event, to the protocol;
`Store.dfy` holds both stores as classes and the exact condition under which one can stand in for the other;
`Topology.dfy` shows that the declared exchanges and keys deliver where the protocol says, and `Landing.dfy` that this
covers every message of every run.

**From text to chunks.** `FlowText.dfy`, `Markdown.dfy` and `PlainText.dfy` recover structure from text without a
layout, with exact offsets. The four chunkers are in `FixedWindows.dfy`, `RecursiveSplit.dfy`, `RecursiveChunks.dfy`,
`RecursiveChunker.dfy`, `LayoutChunks.dfy` and `SemanticChunks.dfy`, over the shared `Passages.dfy`, `Chunks.dfy`,
`Ranges.dfy`, `Sums.dfy`, `Tokens.dfy` and `Percentile.dfy`. `LargestWindows.dfy` says when a window is as large as it
could be, `OverlapProvenance.dfy` when an overlap's text is cited. `MarkdownShape.dfy`, `ChunkShape.dfy`,
`WindowShape.dfy`, `SplitShape.dfy`, `OverlapShape.dfy` and `SemanticShape.dfy` say what the results are without the
computation: a result is the right one if and only if it has the shape described there. The token counter is any
function, except where a statement names the default estimate.

**Three smaller cores.** `Fusion.dfy` is reciprocal rank fusion over exact reals, with the fused list said outright in
`FusedList.dfy`; `Boxes.dfy` the placing and merging of page boxes, with `MergedBoxes.dfy` on what merging returns and
`DistinctMerges.dfy` on what it leaves apart; `Numeric.dfy` the accounting-number parser, with its round trip in
`NumericRoundTrip.dfy` and in `NumericGrammar.dfy` and `NumericNotes.dfy` the grammar of all it reads.

Loops of the source are loops here, proved equal to functions, and the properties are proved about those functions.
`dafny verify dfyconfig.toml` checks everything.

Where the code and its comments or documentation differ, the model follows the code:

- `_fit_window` is documented to return the largest window that fits; it does not always
  (`LargestWindows.DefaultStopsShort`, on the defaults). It does exactly when scaling back passes the largest end
  (`LargestWindows.WindowIsLargestIff`), which for one-token words is a matter of the numbers alone
  (`LargestWindows.OneTokenLargestIff`).
- Hand-off "exactly once" rests on the pipeline's shape, not only on reserving before publishing
  (`Necessity.HandoffSafeIff`).
- In the Postgres store a stage that had succeeded goes back to running when its message is delivered again, so progress
  is not monotone there (`Recovery.PostgresResumeCanOvershoot`).
- `merge_overlapping` does not always make its outputs pairwise distinct by the threshold
  (`Boxes.ResultsCanStillOverlapByDefault`); it does exactly where the boxes allow no clash
  (`DistinctMerges.MergesApartIff`).
- The text carried over into the next chunk may come from blocks that chunk does not cite
  (`OverlapProvenance.DefaultDropsBlock`); all of them are cited exactly when the tail stays within the last block
  (`OverlapProvenance.RecursiveTailCitedIff`).
- Negating a parsed number rounds it to 28 digits (`NumericRoundTrip.ValueIsExactIff`).

## Model

| member | source | states |
|---|---|---|
| Stages.ReadyStages | ragent/pipeline/stages.py:213-238 | The scheduler loop returns, in declaration order, exactly the stages of the family that are neither finished nor queued and whose dependencies on this family's path have all finished. |
| ResumeOrder.ReadyIff | ragent/pipeline/stages.py:213-238 | A list is what the scheduler returns if and only if it picks from the declaration, in order, exactly the stages that may start, spelled out: on the path, neither finished nor queued, and waiting for no unfinished stage of the path. |
| Stages.DepsPrecede | ragent/pipeline/stages.py:194-210 | For any pipeline with distinct names in topological order, a stage's effective dependencies all stand strictly earlier on its family's path. |
| Stages.NothingIsStuck | ragent/pipeline/stages.py:293-302 | In such a pipeline no set of stages of any family can wait for itself, so the simulated run of the validation can never deadlock. |
| Stages.ReadyEmptyIffComplete | ragent/pipeline/stages.py:213-242 | With nothing in flight the scheduler offers no stage if and only if the run is complete. |
| Validation.SimulateRun | ragent/pipeline/stages.py:293-302 | Running a family wave by wave ends with every stage finished if and only if no set of path stages blocks itself for ever. |
| Validation.CheckFamily | ragent/pipeline/stages.py:286-302 | One family is accepted if and only if its path holds the terminal stage and nothing on it blocks itself; a deadlock is reported only where there is one. |
| Validation.ValidatePipeline | ragent/pipeline/stages.py:257-302 | The validation accepts exactly the pipelines whose stages are well declared, in topological order, and finishable for every family; with distinct names its deadlock branch is unreachable. |
| Validation.PipelineIsValid | ragent/pipeline/stages.py:98-186 | The shipped pipeline passes. |
| Dag.PipelineWellFormed | ragent/pipeline/stages.py:98-186 | For every family the shipped path has one entry stage, and is fork-join: a stage that waits for `t` also waits for everything that can run beside `t`. |
| Dag.LowerIsAncestor | ragent/pipeline/stages.py:98-186 | On the shipped pipeline every stage of a lower level has to finish before any stage of a higher one, whatever the family. |
| Runner.ResumeMembers | ragent/pipeline/runner.py:104-119 | A stage is in the resume plan if and only if it was queued and has not finished, or it can run now and was never queued. |
| Runner.ResumeDistinct | ragent/pipeline/runner.py:104-119 | A resume plan names no stage twice. |
| ResumeOrder.PlanInOrder | ragent/pipeline/runner.py:104-119 | A plan names the stages in flight first, in the code-point order of their names, and then those that may start, as declared. |
| ResumeOrder.ShippedByName | ragent/pipeline/runner.py:116-119 | For the shipped names that order is chunk, contextualize, convert, detect, embed, figures, ocr, parse, parse_flow, tables. |
| Runner.ResumeExactIff | ragent/pipeline/runner.py:104-119 | The plan is exactly the stages that can run now if and only if no queued, unfinished stage has lost a dependency. |
| Runner.ResumeEmptyIffComplete | ragent/pipeline/runner.py:104-119 | The plan is empty if and only if the run is complete, in any topological pipeline. |
| Runner.ReadyNames | ragent/pipeline/runner.py:82-96 | The stages to hand off to are distinct, and are exactly those that can run now and are not queued yet. |
| Store.InMemoryStageStore.MarkDispatched | ragent/pipeline/store.py:64-65 | Over the dictionaries: adds the stages to those queued; every other run stays as it was. |
| Store.InMemoryStageStore.BeginStage | ragent/pipeline/store.py:67-69 | Over the dictionaries: marks the stage queued and records the attempt; every other run stays as it was. |
| Store.InMemoryStageStore.CompleteStage | ragent/pipeline/store.py:71-76 | Over the dictionaries: adds the stage to those completed and queued, and returns the progress after that; every other run stays as it was. |
| Store.InMemoryStageStore.FailStage | ragent/pipeline/store.py:78-83 | Over the dictionaries: records the error, and marks the stage queued only when the failure is permanent; every other run stays as it was. |
| Store.InMemoryStageStore.TakeSnapshot | ragent/pipeline/store.py:85-89 | Over the dictionaries: returns exactly what is completed and queued, nothing for a run never heard of. |
| Store.PostgresStageStore.MarkDispatched | ragent/pipeline/store_pg.py:26-37 | Over the stage table: inserts a pending row for each stage that has none, and leaves existing rows alone; every other run stays as it was. |
| Store.PostgresStageStore.BeginStage | ragent/pipeline/store_pg.py:39-51 | Over the stage table: sets the row to running with this attempt, even if it had succeeded; every other run stays as it was. |
| Store.PostgresStageStore.CompleteStage | ragent/pipeline/store_pg.py:53-73 | Over the stage table: sets the row to succeeded, clears its error, and in the same step returns the progress; every other run stays as it was. |
| Store.PostgresStageStore.FailStage | ragent/pipeline/store_pg.py:75-101 | Over the stage table: sets the row to failed or back to pending with the error cut to 4000 characters, and fails the document only when permanent; every other run stays as it was. |
| Store.PostgresStageStore.TakeSnapshot | ragent/pipeline/store_pg.py:107-121 | Over the stage table: returns the succeeded rows and all rows. |
| Store.StepAgreesIff | ragent/pipeline/store_pg.py:26-101 | From agreement, one more operation leaves the two stores with equal snapshots if and only if it does not begin or fail a finished stage and does not transiently fail a stage with no row. |
| Store.StoresAgreeIff | ragent/pipeline/store_pg.py:26-121 | Over any trace of operations the Postgres store reports the same progress as the reference store at every step if and only if the whole trace is disciplined in that sense. |
| Store.MemTracksHistory | ragent/pipeline/store.py:56-92 | The reference store's completed stages are exactly those ever completed, and on a disciplined trace its queued stages exactly those ever mentioned. |
| Store.RowsTellHistory | ragent/pipeline/store_pg.py:26-101 | Over any trace a stage has a row from the first operation about it on: its status is the one that the last beginning or end of the stage gave it, pending if there is none, its attempt the last one begun, its error the first 4000 characters of the last failure, none once it has been completed. |
| Handoff.CompletionIsQuiet | ragent/workers/run.py:139-150 | On a fork-join path, when a completion makes some unqueued stage ready, no other stage of the run is in any queue or any worker's hand, and every stage queued so far has finished. |
| Delivery.StepKeepsInv | ragent/workers/run.py:107-188 | Each crash-free micro-step, from delivery to acknowledgement, by any worker, keeps: no stage in two hands, no runnable stage in none, quiet between completion and reservation, agreeing stores, bounded attempts. |
| Delivery.RunKeepsInv | ragent/workers/run.py:107-188 | That invariant holds after every crash-free interleaving of any number of workers, from the upload's first message on. |
| Delivery.HandedOffAtMostOnce | ragent/workers/run.py:139-150 | Over every crash-free interleaving each stage of the path gets at most one first-attempt message, stages off the path get none, and every reserved stage has had its message or is about to. |
| Necessity.HandoffSafeIff | ragent/workers/run.py:139-150 | For any well-formed pipeline, no crash-free run hands a stage off twice if and only if the family's path is fork-join: the separate reservation is safe exactly for that shape. |
| Necessity.HandOffTwice | ragent/workers/run.py:134-150 | Where two stages run side by side and a third waits for only one of them, a run exists in which both completions find the third unreserved and both publish it. |
| Necessity.ForkWithoutJoin | ragent/pipeline/stages.py:203-238 | Every violation of the fork-join shape yields a closed set of finished stages after which two stages are runnable and a third needs just one of them. |
| Necessity.FinishSet | ragent/workers/run.py:107-155 | A run that is between stages can be taken, without a crash, to any larger dependency-closed set of finished stages. |
| Delivery.ExactlyOneToken | ragent/workers/run.py:107-188 | A stage can run if and only if exactly one message, delivery or publisher's list holds it; a reserved, unfinished stage can always run. |
| Delivery.MessagesStayHome | ragent/workers/run.py:157-188 | Every message at rest lies in its own stage's work queue, in a retry tier, or in its own stage's dead letters, keeps the identity of its run, carries an attempt between 1 and the limit, and is for a stage that has not succeeded. |
| Delivery.NoSilentStall | ragent/workers/run.py:107-188 | When a crash-free run can do nothing more, the document is complete if and only if no message lies in a dead-letter queue. |
| Delivery.OnlyDeadLettersRest | ragent/workers/run.py:107-188 | Anything that is not a dead letter has a next step that is enabled. |
| Delivery.WorkersAreDisciplined | ragent/pipeline/store_pg.py:26-121 | Every crash-free run uses the store only in ways both implementations agree on, so the workers may read either. |
| Delivery.HandlerCallsBounded | ragent/pipeline/runner.py:65-79 | Over any crash-free run handlers are called at most as often as the attempts allowed along the path add up to. |
| Delivery.ShippedHandlerCalls | ragent/pipeline/stages.py:98-186 | On the shipped pipeline: at most 29 handler calls for a PDF or an image, 31 for Office and web, 19 for flow text. |
| Termination.StepEatsBudget | ragent/workers/run.py:107-188 | Every crash-free step makes a measure over rows, messages and remaining attempts strictly smaller. |
| Termination.RunsTerminate | ragent/workers/run.py:107-188 | No crash-free run is longer than the budget it starts with, however workers interleave and whatever fails. |
| Retries.DeadLettersHaveCause | ragent/pipeline/runner.py:65-79 | Over every run, crashes included: a message in a dead-letter queue had no handler, was rejected, had a permanent failure of that very attempt, or a passing one with no attempt of a declared stage left; without crashes none was rejected. |
| Retries.RetriesAreDue | ragent/pipeline/runner.py:65-79 | Over every run: a message waits in a tier only because its last attempt failed for a passing reason with an attempt to spare, and it waits 5 seconds after the first attempt, 30 after the second, 300 after any later one. |
| Retries.WaitsAfterCalls | ragent/pipeline/stages.py:245-254 | Over every crash-free run that wait is the one for the number of times the handler has been called. |
| Retries.PermanentEnds | ragent/workers/run.py:157-188 | Over every crash-free run, once a handler has failed permanently it is not called again for that stage. |
| Recovery.AnyRunKeepsCrashInv | ragent/workers/run.py:107-188 | Crashes, rejections, redeliveries and resumes included, every message in existence is for a stage all of whose dependencies succeeded at least once, and the Postgres rows never claim a success that did not happen. |
| Recovery.PrecedenceSafety | ragent/workers/run.py:126-150 | A handler starts only when each dependency of its stage, for the family that detection found, has succeeded in this run, and with that family in its message, whatever crashed or came back. |
| Recovery.ResumeExact | ragent/pipeline/runner.py:104-119 | Over the reference store, in every state that crashes and redeliveries can reach, the plan is exactly the runnable stages, each once, and empty if and only if the document is complete. |
| Recovery.ResumeExactInRunIff | ragent/pipeline/runner.py:104-119 | Over either store, in every state of every run, the plan is exactly what can run, as the store sees it, if and only if no queued, unfinished stage has lost a dependency there. |
| Recovery.ResumeExactWhenDisciplined | ragent/pipeline/runner.py:104-119 | Over either store the plan is exactly what can run, and empty only for a finished document, as long as the operations so far were ones both stores agree on. |
| Recovery.RoundsFinish | ragent/pipeline/runner.py:104-119 | As many rounds as the path has stages complete the run, if each round finishes what its plan names and undoes nothing. |
| Recovery.PostgresResumeCanOvershoot | ragent/pipeline/store_pg.py:39-51 | Over Postgres exactness fails on every pipeline with a second stage: after a redelivered `detect` restarts, the plan names a stage whose dependency is missing. |
| Resumption.OneRound | ragent/pipeline/runner.py:104-119 | From any state a resume can be followed by steps that finish every planned stage and undo no other, over either store. |
| Resumption.AlwaysRecoverable | ragent/pipeline/runner.py:104-119 | From every state any run can reach, with whatever crashed, was rejected or came back, resuming as often as the path has stages can complete the document without further mishap. |
| Topology.BuildTopology | ragent/pipeline/topology.py:96-145 | The two loops declare, for each stage, a work queue and a dead-letter queue with its keys, for each delay a fanout exchange and a queue with that time-to-live, and nothing else. |
| Topology.WorkersTakeWork | ragent/pipeline/topology.py:96-145 | Workers consume from the stages' work queues and from no other, with the stage's own prefetch; dead letters and tiers are only stored. |
| Topology.LabelRoundTrip | ragent/pipeline/topology.py:46-54 | A tier's label reads back as its delay, so labels are never confused with each other. |
| Topology.TiersDiffer | ragent/pipeline/topology.py:46-58 | Two delays share a retry exchange only if they are equal. |
| Topology.KeyMatchesOnlyItself | ragent/pipeline/topology.py:96-145 | Under topic matching a stage's binding matches its own routing key and no other stage's. |
| Topology.IngestReachesOwnQueue | ragent/pipeline/topology.py:96-145 | A message published for a stage lands in that stage's work queue and nowhere else. |
| Topology.DeadLettersReachOwnQueue | ragent/pipeline/topology.py:96-145 | A dead letter, published or rejected, lands in its stage's dead-letter queue and nowhere else. |
| Topology.RetryReachesOwnTier | ragent/pipeline/topology.py:96-145 | A retry waits in the queue of its delay, whatever its routing key. |
| Topology.RetryComesHome | ragent/pipeline/topology.py:96-145 | When the tier's time-to-live runs out, the message returns under its own key to its own stage's work queue and nowhere else. |
| Topology.ProtocolQueuesAreReal | ragent/pipeline/topology.py:96-145 | On the shipped pipeline each publish of the protocol goes to exactly the queue the protocol says. |
| Landing.MessagesLandHome | ragent/pipeline/topology.py:96-145 | Over every run on the shipped pipeline, crashes included, a message at rest lies in exactly the queue that its exchange and its stage's key lead to; a retry tier it waits in is one of the declared delays, and leads back to its own stage's work queue. |
| Worker.StageConsumer.OnMessage | ragent/workers/run.py:107-155 | One delivery, handled as the code does: the run's rows, everything published, and the exact order of store operations and publishes, reservation before publication, are those of the outcome (no handler, success, failure); other runs are untouched, and the delivery ends acknowledged. |
| Worker.StageConsumer.PublishAll | ragent/workers/run.py:147-150 | Followers are published in order, each to its own stage, and nothing else happens. |
| Worker.StageConsumer.HandleFailure | ragent/workers/run.py:157-188 | A failure is recorded first, then retried with the next attempt through its delay's tier, or dead-lettered, as planned. |
| Worker.CodeFollowsProtocol | ragent/workers/run.py:107-188 | From any state, what the consumer stores and sends, event by event in its own order, is what a crash-free path of the protocol does, and both end with the same rows and messages. |
| FlowText.PushHeading | ragent/ingest/flowtext.py:123-126 | Popping while the top is not shallower, then pushing, keeps levels strictly increasing and leaves exactly the shallower headings and the new one. |
| FlowText.OpenAppend | ragent/ingest/flowtext.py:123-126 | So the stack is always the headings that no later heading is as shallow as. |
| Markdown.SplitMarkdown | ragent/ingest/flowtext.py:78-147 | The line loop with its pending state, fences and heading stack computes the blocks of the regions that the lines fall into. |
| Markdown.BlocksAreExact | ragent/ingest/flowtext.py:43-65 | Every block is the exact slice between its offsets, and neither end is whitespace. |
| Markdown.BlocksAreOrdered | ragent/ingest/flowtext.py:78-147 | Blocks follow the text and do not overlap. |
| Markdown.NothingIsLost | ragent/ingest/flowtext.py:78-147 | Every character that is not whitespace is in some block, unclosed fences and changes of kind without a blank line included. |
| Markdown.BlocksAreFiled | ragent/ingest/flowtext.py:84-130 | A block's section path is the titles of the headings up to its first line that no later one up to there is as shallow as; it is a heading exactly when that line is one. |
| MarkdownShape.LinesIff | ragent/ingest/flowtext.py:68-82 | A list of lines is the one that is used if and only if they follow each other from the start of the text to its end, each up to its first break, with the ten break characters spelled out and a carriage return and line feed as one. |
| MarkdownShape.BlockShape | ragent/ingest/flowtext.py:78-147 | Every block is the trimmed text of whole lines, and these are one heading line outside a fence, a whole fence, or all the lines of one kind that stand together, with what is in a fence said without the scan. |
| MarkdownShape.FenceIsOneBlock | ragent/ingest/flowtext.py:103-115 | A fence that opens outside any other is one paragraph block, from its first line through the first later line whose trimmed text begins with the same marker, or to the end if there is none; no line in it is a heading or begins a block. |
| MarkdownShape.HeadingsAreTitled | ragent/ingest/flowtext.py:78-130 | The headings that blocks are filed under are exactly the heading lines outside of fences, in order, with their levels and titles. |
| PlainText.SplitPlain | ragent/ingest/flowtext.py:150-158 | The cursor loop computes the trimmed pieces between the blank-line breaks. |
| PlainText.PlainBlocksAreExact | ragent/ingest/flowtext.py:150-158 | Paragraphs are exact slices, in order, apart, and under no section. |
| PlainText.PlainLosesNothing | ragent/ingest/flowtext.py:150-158 | Every character that is not whitespace is in a paragraph. |
| PlainText.SplitCsv | ragent/ingest/flowtext.py:161-210 | The row loop computes one table block for each batch of rows, under the header line. |
| PlainText.BatchesKeepRows | ragent/ingest/flowtext.py:203-209 | Batches hold the rows that are not blank in order, none lost or repeated, and all but the last are full. |
| PlainText.CsvKeepsRows | ragent/ingest/flowtext.py:185-209 | Every character of a row is in a block that is the exact text between its offsets under the header. |
| PlainText.FirstLineHeads | ragent/ingest/flowtext.py:181-199 | With a header every table block begins with the first line of the text; without one its text is just the slice between its offsets. |
| PlainText.CsvBlocksAreApart | ragent/ingest/flowtext.py:161-210 | Table blocks follow each other without overlap. |
| Fusion.Fuse | ragent/retrieval/fusion.py:44-96 | The nested loops over the hits dictionary return the strictly ordered fused list, cut to the limit, or refuse a `k` that is not positive. |
| Fusion.FusedIsRanked | ragent/retrieval/fusion.py:78-96 | The list holds one hit for every id a retriever of non-zero weight found and no other, and is sorted under a strict order: no ties. |
| FusedList.FusedIff | ragent/retrieval/fusion.py:44-96 | A list is the fused list if and only if it has one hit for each id that a retriever that counts has found, recording for each such retriever its first place and weight over `k` plus place, scored by their sum, strictly ordered by score, then number of retrievers, then id. |
| FusedList.LimitKeepsBest | ragent/retrieval/fusion.py:88-96 | A limit keeps that many hits from the front; a negative one drops as many from the end; none keeps all. |
| Fusion.HitRecords | ragent/retrieval/fusion.py:70-86 | A hit records the best rank and the contribution of each retriever that found it, and of no other in the input. |
| Fusion.OnlyFinders | ragent/retrieval/fusion.py:70-86 | Whatever a hit records, some retriever of that name found. |
| Fusion.ContributionsSumToScore | ragent/retrieval/fusion.py:70-86 | The contributions of a hit add up to its score. |
| Fusion.FusionIgnoresRetrieverOrder | ragent/retrieval/fusion.py:70-96 | The result does not depend on the order in which retrievers are listed. |
| Fusion.AgreementIff | ragent/retrieval/fusion.py:70-96 | With two retrievers of weight one, a document found by both stands before one found by one exactly when the reciprocal ranks say so, equality going to agreement. |
| Fusion.AgreementWins | ragent/retrieval/fusion.py:70-96 | With lists of at most `k + 2` entries every document found by both precedes every document found by one. |
| Fusion.AgreementCanLose | ragent/retrieval/fusion.py:70-96 | The bound is sharp: with `k + 3` entries a document found by one can come first, for every `k`. |
| Boxes.ToNormalised | ragent/ingest/bbox.py:65-115 | Rejects pages without area and odd rotations, and otherwise gives the upright fractions, clamped and turned quarter by quarter. |
| Boxes.PlacementKeepsPoints | ragent/ingest/bbox.py:88-115 | The returned box covers, on the displayed page, exactly the points the rectangle covered before, for every rotation and every point that is not within the tolerance of the page's edges or beyond them. |
| Boxes.PlacementStaysOnPage | ragent/ingest/bbox.py:61-115 | A placement never leaves the page; it can only be refused as empty, and rotation does not decide that. |
| Boxes.WholePageFillsSquare | ragent/ingest/bbox.py:65-115 | The whole page fills the unit square under every rotation. |
| Boxes.UnionIsLeast | ragent/ingest/bbox.py:118-132 | No boxes are refused; otherwise a box covers the union if and only if it covers every input. |
| Boxes.IouMeasures | ragent/ingest/bbox.py:135-142 | The ratio is symmetric, between 0 and 1, and 1 only for equal boxes. |
| MergedBoxes.IouIsShare | ragent/ingest/bbox.py:135-142 | The ratio is the size of the largest box inside both, over the two sizes less that one. |
| MergedBoxes.SharedOrApart | ragent/ingest/bbox.py:135-142 | Two boxes have a largest box inside both, or none at all, and then the ratio is zero. |
| Boxes.MergeOverlapping | ragent/ingest/bbox.py:145-166 | The loop over remaining boxes ends and returns the unions of the groups in order. |
| Boxes.MergePartitions | ragent/ingest/bbox.py:145-166 | The groups partition the input multiset; each has a largest box that overlaps every other member enough; leaders are pairwise below the threshold; each output is the least box around its group. |
| MergedBoxes.MergedIff | ragent/ingest/bbox.py:145-166 | A list is what merging returns if and only if, with the boxes taken from the largest on and equals as they came, each box joins the first leader it overlaps enough or leads itself, and the list holds, leader after leader, the least box around a leader and those who joined it. |
| Boxes.ResultsCanStillOverlap | ragent/ingest/bbox.py:145-166 | Outputs themselves may overlap by the threshold or more: a family of three strips for which they do. |
| Boxes.ResultsCanStillOverlapByDefault | ragent/ingest/bbox.py:145-166 | And so with the default threshold. |
| DistinctMerges.MergesApartIff | ragent/ingest/bbox.py:145-166 | For any family of boxes and any threshold, no input drawn from it leaves two outputs that overlap by the threshold if and only if the family has no clash: two leaders that overlap too little, each with at most four smaller boxes that overlap it enough, whose unions overlap by the threshold. |
| DistinctMerges.ClashOverlaps | ragent/ingest/bbox.py:145-166 | Merging the boxes of a clash gives exactly the two unions that overlap. |
| DistinctMerges.CoveringMergesApart | ragent/ingest/bbox.py:145-166 | The outputs are pairwise below the threshold whenever a box covers every smaller one that overlaps it enough. |
| Numeric.StripFootnotes | ragent/ingest/numeric.py:80-95 | The loop removes trailing bracketed notes while a digit stands ahead of them, and reports whether it removed any. |
| Numeric.ParseNumeric | ragent/ingest/numeric.py:98-171 | The sequence of rewrites computes the specified parse of a cell, null tokens and rejections included. |
| NumericRoundTrip.ParseCell | ragent/ingest/numeric.py:98-171 | Parsing a printed cell recovers value, sign and every flag: for any digits with or without a point, any grouping, currency outside and inside any nested parentheses, plus or either minus, a multiple marker, a percent sign or basis points in any case, notes and superscripts, with every character spelled out. |
| NumericRoundTrip.ParsePrint | ragent/ingest/numeric.py:98-171 | In particular a decimal number printed in full is read back, rounded to 28 digits if it is negative. |
| NumericGrammar.ReadsIff | ragent/ingest/numeric.py:121-171 | Once notes are off, a text reads as a number if and only if it has the grammar of one, spelled out with whitespace wherever it may stand, and then the number is the one of its parts: no other text is read, and none is read otherwise. |
| NumericGrammar.NumeralIff | ragent/ingest/numeric.py:153-157 | What remains is accepted if and only if it is digits with at most one point and at least one digit. |
| NumericNotes.NoteAtIff | ragent/ingest/numeric.py:40-41 | A text ends with a note exactly where a bracket, one or two digits and a closing bracket stand last, with any whitespace between. |
| NumericNotes.NotesIff | ragent/ingest/numeric.py:80-95 | What is left without notes is the last of the texts of which each loses one note that has a digit ahead of it, until none can go. |
| NumericNotes.MarksIff | ragent/ingest/numeric.py:103-109 | What is left without marks is the trimmed cell up to the last character that is neither a superscript nor a space. |
| NumericNotes.ParsedIff | ragent/ingest/numeric.py:98-171 | A cell parses to a number if and only if, without marks, folded, trimmed and without notes, it is made of the parts of that number; the flag tells whether a mark or note came off. |
| NumericRoundTrip.UnwrapWrap | ragent/ingest/numeric.py:135-145 | Under any number of parentheses the content comes back, and the sign is flipped exactly for an odd number of layers. |
| NumericRoundTrip.NotesComeOff | ragent/ingest/numeric.py:80-95 | Any number of notes come off a text that has a digit ahead of them. |
| NumericRoundTrip.LoneValueStays | ragent/ingest/numeric.py:80-95 | A bracketed number with no digit ahead of it is never taken for a note. |
| NumericRoundTrip.RoundedIsExactIff | ragent/ingest/numeric.py:163-164 | Rounding to 28 digits, as negation does, is exact if and only if there are no more digits than that or only zeros beyond them. |
| NumericRoundTrip.ValueIsExactIff | ragent/ingest/numeric.py:158-171 | The parsed value is the printed one if and only if it is not negative or survives that rounding. |
| Tokens.TokensAdd | ragent/ingest/types.py:19-31 | The number of tokens is exactly additive at a cut beside whitespace. |
| Tokens.TrimmingKeepsTokens | ragent/ingest/types.py:22-31 | Trimming changes no token count. |
| Tokens.PackedOvershoot | ragent/ingest/types.py:22-31 | Texts packed while their estimates sum to the target make a text whose own estimate is at most 1.3 times the target, rounded half to even, although the estimate is not subadditive. |
| Sorting.SortIsStable | ragent/ingest/chunking.py:85-88 | Equal elements keep their order, as the sort of the source does. |
| Passages.Flatten | ragent/ingest/chunking.py:59-72 | The loop joins the texts that are not blank and records the span of each. |
| Passages.FlatIsFlattened | ragent/ingest/chunking.py:59-72 | Each span holds its block's trimmed text, spans are ordered and apart, and everything between them is whitespace. |
| Passages.PrepareKeeps | ragent/ingest/chunking.py:85-88 | Preparing keeps each block with text that is not page furniture as often as it occurs, and drops the rest. |
| Passages.PrepareOrders | ragent/ingest/chunking.py:85-88 | The result is in reading order and stable. |
| ChunkShape.PreparedIff | ragent/ingest/chunking.py:85-88 | A list is the prepared one if and only if it holds blocks with text that are no header, footer or page number, by page and reading order, and those of one place exactly as they came. |
| ChunkShape.FlatIsLaid | ragent/ingest/chunking.py:59-72 | The document is the trimmed texts in order with an empty line between two, and nothing before, between or after. |
| ChunkShape.TouchedAreAdjacent | ragent/ingest/chunking.py:75-82 | The blocks a range overlaps are adjacent ones, taken in order. |
| ChunkShape.AssembledIff | ragent/ingest/chunking.py:91-121 | A chunk is the one assembled if and only if there are blocks and it has the text from the first to the last character that is not whitespace, its count, the number, the ids in order, the least page and character ranges, and the first of the longest section paths. |
| ChunkShape.ChunksAre | ragent/ingest/chunking.py:75-121 | Ranges become one such chunk for each range that has text, numbered in order, with the blocks that it overlaps. |
| Chunks.RangesAreLeast | ragent/ingest/chunking.py:91-121 | A chunk's page and character ranges are the least ones around its blocks', and absent only if no block has one. |
| Chunks.PathIsDeepest | ragent/ingest/chunking.py:91-121 | Its section path is that of some block, and no block has a longer one. |
| Chunks.ChunksCiteRanges | ragent/ingest/chunking.py:75-121 | Exactly the ranges with text become chunks, numbered without gaps, each with its range's trimmed text and exactly the blocks its range overlaps. |
| Chunks.EveryBlockIsCited | ragent/ingest/chunking.py:75-121 | If ranges leave no text out, every block is named by some chunk. |
| FixedWindows.FitWindow | ragent/ingest/chunking.py:127-159 | Growing on the estimate and scaling back by the real counter ends and computes the window end. |
| FixedWindows.ChunkFixed | ragent/ingest/chunking.py:162-204 | The sliding loop with its walk back ends for every counter, target and overlap, and yields one chunk a window. |
| FixedWindows.WindowsSlide | ragent/ingest/chunking.py:162-204 | Window starts strictly increase, consecutive windows leave no word out, the first starts at the first word and the last ends at the last. |
| FixedWindows.WindowsFit | ragent/ingest/chunking.py:127-159 | Each window fits the target by the real counter or is a single word. |
| FixedWindows.OverlapIsBounded | ragent/ingest/chunking.py:196-202 | The words two windows share cost at most the overlap, word by word, and one shared word more would cost more, unless the next window already starts just one word on. |
| WindowShape.WindowEndIff | ragent/ingest/chunking.py:127-159 | A window ends at `e` if and only if `e` is the last of the ends tried: the furthest the words' own costs allow, then one share of the target after another, until the words fit as counted or one is left. |
| WindowShape.WindowsIff | ragent/ingest/chunking.py:187-202 | A list is the windows if and only if the first starts with the first word, each ends where the tries end, each next starts as far back as the overlap allows past the start of the last, and only the last ends with the last word. |
| WindowShape.FixedReturns | ragent/ingest/chunking.py:162-204 | So the strategy returns nothing for a text without words, and otherwise one chunk for each such window, of the stretch from its first word to its last. |
| FixedWindows.FixedChunkIsWindow | ragent/ingest/chunking.py:162-204 | Chunk `k` is window `k`: its words as they stand, exactly the blocks they overlap, within the target unless a single word. |
| FixedWindows.FixedCitesEveryBlock | ragent/ingest/chunking.py:162-204 | Every prepared block is named by some chunk. |
| LargestWindows.WindowIsLargestIff | ragent/ingest/chunking.py:127-159 | For any counter the window is the largest that fits, defined on its own by going back from the last word, if and only if scaling the first guess back in proportion comes past the end of that largest window. |
| LargestWindows.OneTokenWindow | ragent/ingest/chunking.py:127-159 | With the default counter, where every word left is one token, the number of words taken is a closed form of the target and the words left. |
| LargestWindows.OneTokenLargestIff | ragent/ingest/chunking.py:135-159 | And that is the largest window if and only if the first guess fits or one word more than the scaled-back number would not. |
| LargestWindows.DefaultStopsShort | ragent/ingest/chunking.py:135-159 | With the default counter and target, of a text of one-letter words 393 are taken while 394 fit, against the comment in the code. |
| RecursiveSplit.SplitRecursive | ragent/ingest/chunking.py:210-242 | The descent over separators, with its cursor loop, ends and computes the split. |
| RecursiveSplit.SplitTiles | ragent/ingest/chunking.py:210-242 | The pieces tile the range exactly: contiguous, none empty. |
| RecursiveSplit.SplitFits | ragent/ingest/chunking.py:210-242 | Each piece fits the target, or contains no place where any separator could still cut it. |
| SplitShape.PiecesIff | ragent/ingest/chunking.py:223-234 | Cutting at one separator gives pieces that make up the range, all but the last ending with the separator and none holding it further ahead; there is no other way. |
| SplitShape.PieceIff | ragent/ingest/chunking.py:47-47 | A range is a piece of the document if and only if it is the first to fit among ever smaller stretches, cut at blank lines, then at line ends, sentences, semicolons, commas and spaces. |
| SplitShape.StretchStays | ragent/ingest/chunking.py:210-242 | A stretch that fits is in one piece if none of the stretches around it fits, at whatever depth. |
| SplitShape.ParagraphStays | ragent/ingest/chunking.py:210-242 | A paragraph that fits is never cut. |
| SplitShape.LineStays | ragent/ingest/chunking.py:210-242 | Nor is a line that fits in a paragraph that does not. |
| SplitShape.SentenceStays | ragent/ingest/chunking.py:210-242 | Nor is a sentence that fits in a line that does not. |
| RecursiveChunks.PackPieces | ragent/ingest/chunking.py:267-290 | The greedy loop with its buffer computes the chunks of the groups it packs. |
| RecursiveChunks.PacksFit | ragent/ingest/chunking.py:279-290 | A group is a single piece, or its pieces' estimates sum to at most the target. |
| RecursiveChunks.PacksIff | ragent/ingest/chunking.py:279-290 | Groups are the packed ones if and only if they keep the pieces in order, each fits by estimate or is a single piece, and none could take the first piece of the next. |
| RecursiveChunks.PackedRangesTile | ragent/ingest/chunking.py:245-294 | Packed ranges tile the whole document, cut only beside whitespace. |
| RecursiveChunks.GroupOvershoot | ragent/ingest/chunking.py:282-290 | With the default counter a packed group counts at most 1.3 times the target, rounded. |
| RecursiveChunker.ChunkRecursive | ragent/ingest/chunking.py:245-294 | Flatten, split, pack and overlap, composed as the code does. |
| RecursiveChunker.ApplyTextOverlap | ragent/ingest/chunking.py:297-346 | The loop leads each chunk with the tail of the one before, as specified. |
| RecursiveChunker.TailIsLongest | ragent/ingest/chunking.py:304-316 | The tail fits the overlap, and one word more would not. |
| OverlapShape.WordsIff | ragent/ingest/chunking.py:41-41 | The words of a text are all its longest runs without whitespace, in order. |
| OverlapShape.LedIs | ragent/ingest/chunking.py:297-346 | A chunk with a tail before it has those words, each followed by a space, and then its own text, counted again; its blocks are the last one before and its own, each once; and its pages and characters start at the end of those before if that is earlier. |
| OverlapShape.PackedReturns | ragent/ingest/chunking.py:245-290 | Before overlap the chunks are those of the groups of pieces, with pieces and groups as they have to be. |
| OverlapShape.RecursiveResult | ragent/ingest/chunking.py:291-294 | With no overlap asked for these are returned as they are; otherwise the first is, and each other one led in by the tail of the packed one before it. |
| RecursiveChunker.OverlapAddsOneBlock | ragent/ingest/chunking.py:319-346 | Overlap keeps number, section, text and blocks of a chunk, and adds at most the last block of the chunk before. |
| RecursiveChunker.RecursiveCitesEveryBlock | ragent/ingest/chunking.py:245-294 | Before overlap every prepared block is named by some chunk. |
| RecursiveChunker.ResultCitesEveryBlock | ragent/ingest/chunking.py:245-346 | And so in what the strategy returns, overlap included. |
| OverlapProvenance.RecursiveTailCitedIff | ragent/ingest/chunking.py:297-346 | With ids that tell blocks apart, a chunk after the first cites every block the carried tail draws from if and only if the tail takes no more words than lie in the last block of the range before. |
| OverlapProvenance.DefaultDropsBlock | ragent/ingest/chunking.py:319-346 | With the default counter, target and overlap a chunk is led in by the words of two blocks and cites only the second of them. |
| RecursiveChunker.RecursiveChunkFits | ragent/ingest/chunking.py:262-294 | Before overlap each chunk cites the range of one group: a single piece, or several that fit by estimate and count at most 1.3 times the target with the default counter. |
| LayoutChunks.PackBlocks | ragent/ingest/chunking.py:366-409 | The loop with its buffer computes the chunks of the groups. |
| LayoutChunks.ChunkLayout | ragent/ingest/chunking.py:352-414 | Prepare, group and overlap, composed as the code does. |
| LayoutChunks.LayoutPartitions | ragent/ingest/chunking.py:352-414 | Before overlap the chunks' blocks, concatenated, are exactly the prepared blocks in order; tables and figures stand alone, titles and headings only come first, each chunk has one section path, and several blocks fit the target by estimate. |
| LayoutChunks.GroupsAreApart | ragent/ingest/chunking.py:390-409 | Two neighbouring groups are separate for a reason, spelled out: one is a table or figure, the second begins with a title or heading, their sections differ, or the second's first block would take the first past the target. |
| LayoutChunks.GroupedIff | ragent/ingest/chunking.py:352-409 | Groups are the right ones if and only if they keep the blocks in order, obey the four rules, and neighbours are separate for one of those reasons. |
| LayoutChunks.LayoutOverlapGains | ragent/ingest/chunking.py:417-447 | After overlap atomic chunks, the first and those after an atomic one are unchanged; any other gains at most one leading block, the last of its predecessor, and its text, page and character ranges, section path and token count are those of the blocks it now has. |
| LayoutChunks.LayoutOverlapLeads | ragent/ingest/chunking.py:417-447 | With ids that tell blocks apart, a chunk that gains a block is its own group with the last block of the group before put first, and its old text follows that block's. |
| LayoutChunks.LayoutOvershoot | ragent/ingest/chunking.py:390-406 | With the default counter a chunk of two or more blocks counts at most 1.3 times the target, rounded. |
| Percentile.FewLieBelow | ragent/ingest/chunking.py:464-474 | Of `n` values at most `floor((n-1)q) + 1` lie strictly below the percentile, and one fewer when the position is whole. |
| Percentile.NoneBelowEqual | ragent/ingest/chunking.py:464-474 | When all values are equal none lies below. |
| Percentile.FractionHits | ragent/ingest/chunking.py:464-474 | For a fraction between 0 and 1 the indices the code computes exist and give the percentile these two are about; other values truncate towards zero and may miss. |
| Percentile.OrderedSorts | ragent/ingest/chunking.py:464-474 | The values it works on are the given ones, ascending. |
| Percentile.PercentileIsLinear | ragent/ingest/chunking.py:464-474 | The percentile lies between two ordered values exactly as its position lies between theirs. |
| Percentile.ExactlyBelow | ragent/ingest/chunking.py:464-474 | When the position is not whole and the two neighbours differ, exactly the whole part of the position and one more values lie below the percentile. |
| Percentile.AnyFraction | ragent/ingest/chunking.py:464-474 | For a fraction of any size, with the position cut towards zero and indices wrapping when negative, there is a percentile if and only if the first index hits the values, and it is linear between the two. |
| SemanticChunks.ChunkSemantic | ragent/ingest/chunking.py:477-551 | Sentence bounds, gaps, cut value and the cutting loop, composed as the code does, for any percentile: the wrong number of vectors is refused, and so is a percentile whose index misses the gaps. |
| SemanticChunks.SemanticSegments | ragent/ingest/chunking.py:515-551 | Every sentence lands in exactly one segment, in order; a segment holds no topic shift and fits the target unless a single sentence; and ends only for one of those reasons. |
| SemanticChunks.TopicCutsAreFew | ragent/ingest/chunking.py:512-542 | At most `floor((n-1)q) + 1` cuts are made for the topic, none when all gaps are equal. |
| SemanticChunks.TopicCutsExactly | ragent/ingest/chunking.py:512-542 | Under the same condition exactly that many cuts are made for the topic. |
| SemanticShape.SegmentsIff | ragent/ingest/chunking.py:515-542 | Segments are the right ones if and only if they take the sentences in order, neighbours inside are as similar as the cut value, each fits by its costs or is a single sentence, and each ends before a less similar sentence or one that would not fit. |
| SemanticShape.SemanticReturns | ragent/ingest/chunking.py:477-551 | What comes back for every input: nothing for no blocks, one chunk for fewer than two sentences, a refusal for the wrong number of vectors or a missing percentile, and otherwise the chunks of those segments. |
| SemanticChunks.CutRangesCover | ragent/ingest/chunking.py:515-551 | The ranges that become chunks leave no text out and do not overlap. |
| SemanticChunks.SemanticCitesEveryBlock | ragent/ingest/chunking.py:477-551 | Every prepared block is named by some chunk. |
| SemanticChunks.SemanticChunkFits | ragent/ingest/chunking.py:522-542 | Each chunk cites the range of one segment, and with the default counter one of two or more sentences counts at most 1.3 times the target, rounded. |

## Left out

- Serialisation of messages (`StageMessage.to_bytes` and `from_bytes`), and the rejection of undecodable ones: a message
  is a value. A rejection for any other reason is a step of the protocol.
- The broker and the database themselves: queues are unordered, no message is lost, transactions are atomic; prefetch,
  connections, headers, timestamps, metrics, logs and the document's ready notice are not modelled.
- Message loss: crash-free runs assume that a publish arrives; the operator's resume covers the rest.
- Worker.CodeFollowsProtocol: relates the worker to the protocol over the Postgres store, the one `serve` uses, with
  only `detect` reporting a family, as its handlers do.
- Recovery.ResumeExact: holds over the reference store only; over Postgres it fails, and the exact condition in a run is
  `Recovery.ResumeExactInRunIff`, met as long as the operations so far are disciplined
  (`Recovery.ResumeExactWhenDisciplined`).
- An operator who resumes with a family other than the detected one: once `detect` has succeeded, resume steps use its
  finding; before that they may use any family.
- Resumption.AlwaysRecoverable: shows that a finishing continuation exists; that handlers then succeed is not a
  property of the pipeline.
- `select_stages`, `serve` and the pools: which worker takes which queue does not matter to the results.
- Regular expressions: what makes a line a heading, fence, table or list item is a parameter, of which only is asked that
  headings and fences are not blank; sentence and blank-line breaks are given as ordered runs of whitespace; word
  characters are any set without whitespace.
- The header test of the CSV reader: whether there is a header is a flag.
- `split_flow`, `chunk_document` and the strategy registry: dispatch.
- Unicode: NFKC is a parameter that leaves plain text alone; digits are ASCII and so is lower-casing in null tokens and
  suffixes, though Python's `isdigit` and `lower` know more.
- NumericRoundTrip.ParsePrint: holds for numbers of any length; Python's decimal context has exponent limits, so
  negating a number of about a million digits or more raises `Overflow` or loses it to underflow.
- Floating point: scores, boxes, gaps and percentiles are exact reals, a window's share of the target is an exact
  quotient rounded down; the default token estimate is exact tenths,
  rounded half to even, where Python multiplies by a binary 1.3.
- Embeddings and cosine similarity: any function from texts to vectors and any similarity; `cut_similarity` in a chunk's
  metadata is not modelled.
- Runner.ResumePlan: names queued stages whether or not they are declared; looking up an undeclared one fails in the
  source. No run queues one.
- RecursiveChunker.OverlapAddsOneBlock: does not say whether the blocks the tail draws from are cited; exactly when they
  are is `OverlapProvenance.RecursiveTailCitedIff`.
- Chunks of a range in which a block has a start offset but no end offset: a block's offsets come together or not at all.
- `FusedHit` as a mutable object: hits are values in a map that the loops replace, so aliasing is not modelled.
- OCR, table and figure handlers, PDF extraction, conversion, classification, search and the web interface.
