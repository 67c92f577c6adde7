# CDC pipeline: a verified model

The system is a change-data-capture pipeline. A runner reads a source log by
position, parses each entry with the schema version active at that position, maps
it through a versioned layout, delivers the batch to a sink with deduplication,
retry and per-transaction ordering, and only then advances the committed offset.
This project models those parts in Dafny 4.11 and proves what they guarantee, over
every input, every run, every sink behaviour and every cancellation.

## How the model is built

- The protocols are functions of a state value and of *oracles*: the sink's answer
  and the context's state are arbitrary functions of the number of write attempts
  made so far, and xxhash is an arbitrary function from strings to numbers. A
  statement for all oracles is a statement for every pattern of failures.
- The objects of the program are classes with the program's fields. Each method is
  proved equal to the function that specifies it, and the properties are lemmas
  about those functions.
- Go map iteration is nondeterministic choice, so results hold for every order.
- The pipeline of concurrent threads is a step system whose moves are the locked
  methods; `Runner.Runner.Turn` shows that one turn of the loop is a sequence of
  those moves.

| file | module | part of the program |
|---|---|---|
| `model.dfy` | `Model` | events, batches, delivery keys |
| `txn.dfy` | `Txn` | transaction sequencing and chunking |
| `delivery.dfy` | `Delivery` | the delivery protocol as functions |
| `transport.dfy` | `Transport` | dispatcher, order tracker and dedup set as objects |
| `invariants.dfy` | `Invariants` | what runs keep: at most once, settled statuses |
| `conservation.dfy` | `Conservation` | nothing lost by one call |
| `acked.dfy` | `Acknowledged` | which position a call and a plan acknowledge |
| `oracles.dfy` | `Oracles` | what runs owe to the sink's answers |
| `keptchanges.dfy`, `keptruns.dfy` | `KeptChanges`, `KeptRuns` | which change of a row is written, by a call and by a run |
| `txnorder.dfy`, `txnprefix.dfy` | `TxnOrder`, `TxnPrefix` | transaction order and progress |
| `txnfailure.dfy` | `TxnFailure` | when success means the whole transaction, where a call can fail |
| `retry.dfy` | `Retry` | backoff and bounded work |
| `planner.dfy`, `plan.dfy` | `Planner`, `Plan` | foreign key planner, planned delivery |
| `txnplan.dfy`, `planfailure.dfy` | `TxnPlan`, `PlanFailure` | one transaction delivered table by table, with an accepting sink and with any |
| `source.dfy` | `Source` | source log, chained reading, full scan |
| `schema.dfy`, `parser.dfy` | `Schema`, `Parsing` | versioned schemas, position-aware parsing |
| `mapper.dfy`, `mappedevents.dfy` | `Mapping`, `MappedEvents` | mapping rules and frozen snapshots, and what the rules make of an event |
| `sink.dfy`, `sinkrows.dfy` | `Sink`, `SinkRows` | the idempotent in-memory target, and the rows it shows after writes and loads |
| `targetruns.dfy` | `TargetRuns` | the dispatcher feeding the in-memory target |
| `offset.dfy` | `Offset` | offset store and checkpoints |
| `pipeline.dfy`, `runner.dfy` | `Pipeline`, `Runner` | the whole pipeline, coordinator, handoff, runner |
| `catchup.dfy` | `CatchUp` | the runner's progress to the end of the log |
| `endtoend.dfy` | `EndToEnd` | from a log entry to the target row it becomes |
| `taggedruns.dfy` | `TaggedRuns` | transactions through the runner |

## Where the code falls short of its documentation

The repository's README and comments promise that nothing is lost or duplicated.
The model keeps the code as it is; these are the places where a promise fails, each
with the exact condition under which it holds, an input that shows the failure, or
both.

- A nil delivery error does not mean a transaction was delivered. If a write fails
  after the first event of a group, the tracker moves past the group's start, the
  retry holds every group back, and the call reports success
  (`TxnFailure.HalfGroupIsDropped`). `TxnFailure.SuccessIsWholeIff`: for a fresh
  transaction success means the whole of it, for every sink and whatever was delivered
  before, exactly when an attempt is made and, with several attempts, every event whose
  delivery key is new opens a group. For a transaction of two or more new rows the
  program's own settings (three attempts, groups of 200) are not such a case; one
  attempt, or groups of one event, always are (`TxnFailure.SafeConfigSucceedsWhole`).
- A rollback passes a transaction sequence where a source position is expected. A failed
  call goes on from the sequence that opens the failed group: the first transaction of a
  log, refused at its first event, is skipped for good
  (`Pipeline.RefusedEntryIsSkipped`). `TaggedRuns.RereadForEverySinkIff`: for every sink
  the first undelivered event is read again exactly when every event that a failure can
  stop at lies above the sequence that opens its group and above the old replay
  position; where a failure can stop is `TxnFailure.FailsAtIff`. For untagged events the
  sequence is the one they carry, 0 unless the source sets one, so a replay re-reads
  the log from its start, below the snapshot watermark too.
- A transaction that continues in a later batch, or is replayed, is skipped even by
  a sink that accepts everything, because sequencing restarts at 1 in each batch
  while the tracker does not. `TxnPrefix.WholeIffTransactionFresh`,
  `TaggedRuns.TaggedTurnSafeIff` and the run `TaggedRuns.SplitTransactionLosesEntry`.
- All of this together: `TaggedRuns.TurnSafeForEverySinkIff` says exactly when a turn of
  the loop over a transaction leaves no passed entry unhandled for every sink.
  `TaggedRuns.GuardedRunIsSafe`: a run whose deliveries all meet that condition, or are
  untagged with no sequence above the watermark, is safe in every state.
- A group takes its transaction from its first event, so a group that mixes transactions
  can write one sequence twice (`TxnOrder.MixedGroupsBreakOrder`). `TxnOrder.OrderKeptIff`
  says exactly which groups keep the order, for every state and sink.
- An untagged stream loses nothing exactly when an attempt is allowed and no entry
  carries a sequence above the snapshot watermark, although it names no transaction:
  `Pipeline.LossFreeIff`.
- Planned delivery can drop a parent behind its child's success when both belong to one
  transaction that wrote the child first (`TxnPlan.ParentIsDropped`).
  `PlanFailure.PlannedWholeForEverySinkIff`: success means the whole transaction, parents
  first, for every sink exactly when an attempt is made, the plan does not reorder the
  transaction and, with several attempts, every event whose key is new opens a group of
  its batch.
- Dedup keys name rows, not events: once a row's key was delivered, no later change
  of the row is ever written. `Invariants.DeliveredKeyNeverWrittenAgain`,
  `Conservation.AllWrittenIffKeysNew`. The change written need not be the first: a refused
  group is overtaken by the ones behind it (`KeptChanges.LaterChangeWins`).
  `KeptChanges.FirstKeptIff`: a successful call writes the first changes, for every sink,
  exactly when it makes one attempt, or several with new keys in at most one group, or none
  and there is nothing new; `KeptRuns.FirstKeptInRunsIff` says the same of whole runs.
- `Deliver` promises the highest acknowledged source position. It returns the highest, over
  the groups of its last pass only, of each group's last write
  (`Acknowledged.AcksHighestLastWrite`), so a write of an earlier pass can be missed and the
  committed position stays below what was delivered. `Acknowledged.HighestAckedIff`: a
  successful call returns the highest position it wrote, for every sink, exactly when it
  makes at most one attempt, or several with new keys in one group only. With a sink that
  accepts everything it always does (`Acknowledged.AcceptedAcksLastNew`).
- A write that reports an error may have changed the row, when it was cancelled late.
  `Sink.ErringWriteKeepsRowsIff`: it leaves the target as it was exactly when it was
  turned away before the row was touched, or the row already showed its effect.
- The sink acknowledges without applying when identities collide:
  `TargetRuns.AppliedAreWrittenIff`.
- `last` of a checkpoint can exceed what was persisted, exactly when something committed
  higher inside the write: `Offset.CheckpointBrackets`.
- Mapper snapshots are keyed without the table, so another table's schema change can
  replace one: `Mapping.SchemaChangeFrozenIff`, over whole runs `Mapping.MappingsAreFrozenIff`.
- The comment on the position index says a position before all changes falls back to
  the latest version; the code returns the first, and so does the model. `TableNames`
  is described as sorted and is not; the model visits tables in any order.

## Model

| member | source | states |
|---|---|---|
| `Model.DeliveryIdentityIsExact` | internal/sink/sink.go:144-146 | two events share a sink identity exactly when table and sequence number agree, whatever characters table names hold |
| `Model.KeylessTableKeyIsExact` | internal/model/model.go:60-65 | keyless events share a delivery key exactly when table and sequence number agree |
| `Model.KeyedTableKeyIgnoresPosition` | internal/model/model.go:60-65 | keyed events of a table share a delivery key exactly when they change the same row |
| `Model.MinPosIsMinimum` | internal/model/model.go:75-86 | with positive positions the batch minimum is attained and a lower bound, though the loop uses 0 as "none yet" |
| `Model.MinPosStartsOver` | internal/model/model.go:75-86 | a position 0 makes the loop start over: the minimum is that of the events behind the last one |
| `Model.NewBatch` | internal/model/model.go:75-86 | the batch holds the events with the loop's minimum and a maximum that is attained and an upper bound |
| `Txn.SequencedIsRunIndex` | internal/parser/txn.go:22-38 | each tagged event is numbered by its place in the run of equal ids with untagged events invisible; nothing else changes |
| `Txn.SequencedSingleTransaction` | internal/parser/txn.go:22-38 | a batch of one transaction is numbered 1, 2, 3, ... |
| `Txn.ChunksRoundTrip` | internal/parser/txn.go:43-54 | concatenating the groups gives the input back; groups are nonempty, at most full, and all but the last full |
| `Txn.TxnSplitter.constructor` | internal/parser/txn.go:13-18 | a nonpositive group size becomes 200 |
| `Txn.TxnSplitter.Sequence` | internal/parser/txn.go:22-38 | the loop computes the sequencing the lemmas describe |
| `Txn.TxnSplitter.Split` | internal/parser/txn.go:43-54 | the loop computes the chunks the round trip describes |
| `Transport.OrderTracker.Acquire` | internal/transport/order.go:20-31 | admission of sequence 0 and of exactly the expected sequence |
| `Transport.OrderTracker.Release` | internal/transport/order.go:34-43 | the expected sequence moves past the released one and never back |
| `Transport.OrderTracker.Reset` | internal/transport/order.go:47-51 | afterwards every transaction is admitted at its start only |
| `Transport.Dedup.Mark` | internal/transport/dedup.go:36-40 | exactly the key's hash is added to the seen set |
| `Transport.Dispatcher.constructor` | internal/transport/transport.go:47-56 | a new dispatcher has delivered nothing and waits for nothing |
| `Transport.Dispatcher.DeliverGroup` | internal/transport/transport.go:165-196 | the loop over a group refines the group function in dedup, tracker, status and result |
| `Transport.Dispatcher.RunPass` | internal/transport/transport.go:120-146 | the inner loop refines one pass: held, failed and delivered groups, first failure, acknowledged position |
| `Transport.Dispatcher.DrainPending` | internal/transport/transport.go:117-163 | the retry loop refines the drain function, and the rollback callback gets the first failed group's first sequence |
| `Transport.Dispatcher.Enqueue` | internal/transport/transport.go:105-113 | the pending list becomes one group per chunk, tagged by its first event |
| `Transport.Dispatcher.DeliverEvents` | internal/transport/transport.go:97-115 | a call refines the batch function, with or without a splitter, and leaves an empty batch alone |
| `Transport.Dispatcher.Deliver` | internal/transport/transport.go:68-76 | as a batch, reporting the batch maximum on an error |
| `Transport.Dispatcher.DeliverPlanned` | internal/transport/transport.go:81-95 | table batches in the given order up to the first failure, with the highest acknowledged position |
| `Transport.Dispatcher.PendingCount` | internal/transport/transport.go:214-222 | the number of events of the pending groups |
| `Delivery.Drain` | internal/transport/transport.go:150-155 | rollback is asked for exactly when the retry budget ends in a sink error |
| `Invariants.AtMostOnce` | internal/transport/transport.go:165-196 | over all runs: written keys pairwise distinct, the dedup set exactly their hashes, the delivered counter its size |
| `Invariants.DeliveredKeyNeverWrittenAgain` | internal/transport/dedup.go:9-15 | no event whose key was delivered before is written in the rest of any run |
| `Invariants.AckedStaysAcked` | internal/transport/transport.go:175-186 | when each number names one key, a written number never fails again and acked is shown for exactly the written numbers |
| `Invariants.StatusShowsLastAttempt` | internal/transport/transport.go:167-191 | in every run an event number is shown as acknowledged or retrying as its last attempt ended, and not at all before the first |
| `Conservation.DispatcherConserves` | internal/transport/transport.go:97-196 | at every return each event is settled by the call or pending, pending is an ordered subsequence of the groups, the position is 0 or of an event written in the call |
| `Conservation.AckedWithinBatch` | internal/transport/transport.go:142-144 | every action is about an event of the batch, and the acknowledged position never passes its maximum |
| `Conservation.UntaggedSuccessIsComplete` | internal/transport/transport.go:117-163 | an untagged success leaves nothing pending exactly when an attempt is allowed; every event is then settled; a failure asks for replay from a sequence one of the events carries |
| `Conservation.SuccessMarksExactly` | internal/transport/transport.go:167-186 | a successful untagged batch adds exactly its keys to the dedup set and writes one event per new key |
| `Conservation.AllWrittenIffKeysNew` | internal/transport/transport.go:167-186 | all events of a successful untagged batch are written exactly when their keys are new and distinct |
| `Acknowledged.AcksHighestLastWrite` | internal/transport/transport.go:117-196 | a successful call acknowledges the highest, over the groups delivered in its last pass, of the position of the group's last write in that part of the log; the last pass begins at the call when nothing failed in it |
| `Acknowledged.SmoothCallAcksHighest` | internal/transport/transport.go:117-149 | a call in which no write fails acknowledges the highest position it wrote |
| `Acknowledged.HighestAckedIff` | internal/transport/transport.go:65-67 | for every sink and context a successful call acknowledges the highest position it wrote, if and only if it makes at most one attempt, or several with new keys in one group only |
| `Acknowledged.AcceptedAcksLastNew` | internal/transport/transport.go:165-196 | with an accepting sink and ascending positions a call acknowledges the position of the last event whose key was new, and 0 exactly when none was |
| `Acknowledged.PlanAcksMaximum` | internal/transport/transport.go:81-95 | a plan, whether it succeeds or stops at a batch, acknowledges the highest of what the batches that went through acknowledged |
| `Acknowledged.AcceptedPlanAcksHighest` | internal/transport/transport.go:81-95 | with an accepting sink that is the highest position the plan wrote |
| `Acknowledged.DoneContextStops` | internal/transport/transport.go:150-160 | a context that is done is seen after a failed attempt that was not the last: no further attempt, and that error; without a failed write the call succeeds all the same |
| `Acknowledged.CancelledMeansDone` | internal/transport/transport.go:156-160 | a call reports the context's end only when the context is done |
| `Acknowledged.ErrorRollsBackToFirst` | internal/transport/transport.go:133-155 | a sink error asks for a replay from the sequence that opens the group of the first write to fail in the last pass |
| `TxnOrder.OrderKeptIff` | internal/transport/transport.go:126-184 | exactly which groups keep the order: delivered in any ordered state that admits it, to any sink, a group leaves an ordered state if and only if every event that can be written names no transaction, or the group's with a sequence within the group's and below all later ones |
| `TxnOrder.TransactionOrderOverRuns` | internal/transport/transport.go:126-132 | over all runs of such groups, gaps included, the sequences written for a transaction strictly increase and stay below the tracker's next |
| `TxnPlan.TransactionIsWellTagged` | internal/mapper/mapper.go:129-155 | the groups of a transaction keep the order, delivered whole or table by table |
| `TxnOrder.MixedGroupsBreakOrder` | internal/transport/transport.go:198-203 | groups that start untagged slip past the order gate and write a sequence twice |
| `TxnPrefix.TransactionPrefix` | internal/transport/transport.go:117-196 | at every return exactly a prefix of a fresh transaction is handled, the tracker expects the next event, pending starts at the group the prefix stops in; a sink error stops at an event a failure can stop at and rolls back to the sequence that opens its group |
| `TxnPrefix.PassPrefix` | internal/transport/transport.go:120-146 | one pass stops exactly at the first event with a new key whose write the sink refuses, with that group and all later ones pending |
| `TxnFailure.SafeConfigSucceedsWhole` | internal/transport/transport.go:147-149 | with one attempt or groups of one event a nil error means the whole transaction, whatever the sink does and whatever was delivered before |
| `TxnFailure.HalfGroupIsDropped` | internal/transport/transport.go:175-184 | for every event with a new key that does not open its group some sink makes the call deliver exactly the events before it and report success |
| `TxnFailure.SuccessIsWholeIff` | internal/transport/transport.go:117-196 | nil means whole for every sink if and only if an attempt is made and, with several attempts, every event whose key is new opens a group; no assumption on the keys |
| `TxnFailure.FailsAtIff` | internal/transport/transport.go:147-163 | some sink ends the call in an error after exactly k events if and only if event k's key is new and, with several attempts, an event up to it with a new key opens a group |
| `TxnPrefix.ResumedTransactionIsHeld` | internal/transport/order.go:20-31 | a batch of a transaction the tracker moved past never has its first event handled |
| `TxnPrefix.WholeIffTransactionFresh` | internal/transport/transport.go:126-132 | with an accepting sink the call succeeds, and delivers the transaction exactly when the tracker expects its start |
| `Retry.NextDelay` | internal/transport/retry.go:23-35 | the loop computes the delay function, 64-bit wrap-around included |
| `Retry.BackoffIsCappedDoubling` | internal/transport/retry.go:23-35 | from attempt 2 on the delay is the doubled base capped, for every attempt, exactly when reaching the cap does not overflow |
| `Retry.FirstDelayIsBase` | internal/transport/retry.go:23-35 | the first delay is the base even when that is above the cap; a base that is not positive means no delay at all |
| `Retry.UncappedDoublingWraps` | internal/transport/retry.go:23-35 | without a cap the delay is the doubled base in 64-bit arithmetic, for every attempt: in range, and off by whole words only |
| `Retry.HalfRangeCapIsSafe` | internal/transport/retry.go:28-33 | a base and a cap within half the range never overflow |
| `Retry.BackoffMonotone` | internal/transport/retry.go:23-35 | with the base within the cap delays never shrink and never pass the cap |
| `Retry.PassWork` | internal/transport/transport.go:124-145 | one pass writes at most once per pending event and fails at most once per group |
| `Retry.BoundedWork` | internal/transport/transport.go:117-163 | writes, failures and total backoff of one call are bounded by the retry budget, and a sink error comes only after all of it |
| `Planner.FKPlanner.SetDependencies` | internal/mapper/fk.go:26-36 | each child's parents are those of the edge list, in its order |
| `Planner.FKPlanner.Build` | internal/mapper/fk.go:43-62 | degrees and child lists count the induced edges with repetitions, for every iteration order |
| `Planner.FKPlanner.Roots` | internal/mapper/fk.go:63-68 | the queue starts with the tables without planned parents, in input order |
| `Planner.FKPlanner.Walk` | internal/mapper/fk.go:69-80 | emitted tables are distinct, each after all its planned parents, roots first; tables left out wait for others left out |
| `Planner.FKPlanner.AppendRest` | internal/mapper/fk.go:81-88 | tables the walk left out follow in input order |
| `Planner.FKPlanner.Order` | internal/mapper/fk.go:40-89 | a permutation of distinct tables for every graph: a walk followed by the rest in input order |
| `Plan.WalkCompleteIffAcyclic` | internal/mapper/fk.go:69-88 | the walk emits every table exactly when the induced graph has no cycle |
| `Plan.PlanBatches` | internal/mapper/mapper.go:129-155 | one batch per table, with that table's events in order and their highest position, starting with the planner's walk |
| `Plan.PlanHoldsEvents` | internal/mapper/mapper.go:130-154 | every table of the events has one batch, which holds its events as often as they occur and in order, and their highest position |
| `Plan.PlanInOrder` | internal/transport/transport.go:81-95 | planned delivery acts on a batch only after every event of all earlier batches was handled |
| `Plan.PlannedDeliveryRespectsForeignKeys` | internal/mapper/mapper.go:127-155 | in terms of the declared dependencies: under any failures and retries, an action on an event of a walked table comes after every planned event of each parent declared for it; the walk emits every planned table exactly when no declared dependencies between planned tables form a round |
| `TxnPlan.PlannedTransactionIff` | internal/transport/transport.go:78-95 | with an accepting sink a fresh transaction planned by table is handled whole if and only if the plan's batches in order are the transaction in its own order; then parents come first, otherwise an event is dropped behind a success |
| `PlanFailure.PlannedWholeForEverySinkIff` | internal/transport/transport.go:78-196 | for a fresh transaction planned by table nil means every event handled, for every sink and whatever was delivered before, if and only if an attempt is made, the batches in order are the transaction and, with several attempts, every event whose key is new opens a group of its batch; then walked tables follow their parents whatever fails |
| `PlanFailure.ExposedPlanDrops` | internal/transport/transport.go:175-184 | otherwise the sink that refuses one write makes the plan deliver exactly what comes before it and report success |
| `TxnPlan.ChainedIffInOrder` | internal/transport/transport.go:126-132 | each planned group starts at the sequence the tracker then expects exactly when the plan does not reorder the transaction |
| `TxnPlan.ParentIsDropped` | internal/transport/transport.go:81-95 | for every transaction of a child's event followed by its parent's and every plan whose walk puts the parent first: the child is written, the parent dropped, and success reported |
| `Source.AppendAscendingIff` | internal/source/source.go:57-71 | the log stays strictly ascending exactly when every appended entry asks for a number or brings a higher one |
| `Source.AppendedAre` | internal/source/source.go:57-71 | the given entries stand in order behind the old ones with table, operation, row and transaction as given, numbered as asked or on from the position, which follows the highest number |
| `Source.LateArrivalIsInvisible` | internal/source/source.go:74-93 | an arrival stays unread exactly when its number is at or below the reader's position |
| `Source.InMemoryLog.Append` | internal/source/source.go:57-71 | the loop numbers and stores the entries in order and leaves the snapshots alone |
| `Source.InMemoryLog.ReadAfter` | internal/source/source.go:74-93 | the first entries after the position up to the limit, with the last one's number, or no more |
| `Source.ReadTakesNext` | internal/source/source.go:73-93 | from an ascending log a read takes the next entries above the position, as many as the limit allows and there are, at least one, ends at the last taken, and fails exactly when there is none |
| `Source.ChainReadsExactlyOnce` | internal/source/source.go:73-93 | chained reads with any limits and arrivals yield the entries above the start, each once and in order |
| `Source.FullScanner.Snapshot` | internal/source/fullscan.go:39-60 | the watermark is the position before the scan, rows come table by table, arrivals during the scan stay in the log |
| `Source.HandoffReadsExactlyOnce` | internal/source/phase.go:16-18 | reading from the watermark yields exactly the entries above it, those that arrived during the scan included |
| `Schema.LookupIsExact` | internal/schema/history.go:33-48 | with nondecreasing positions the search returns the one version of the last change at or before the position, the first if none |
| `Schema.LookupIsMonotone` | internal/schema/history.go:33-48 | later positions never resolve to earlier versions |
| `Schema.LookupHasSchema` | internal/schema/schema.go:58-68 | every version a lookup returns has the schema of its change |
| `Schema.VersionDiffersIff` | internal/schema/version.go:14-24 | versions differ between two positions exactly when a change other than the first lies between |
| `Schema.LaterChangeIsInvisible` | internal/schema/history.go:33-48 | a change applied after a position does not move the lookup there |
| `Schema.ChangeHistory.Add` | internal/schema/history.go:26-29 | change and version are appended to the two indexes together |
| `Schema.ChangeHistory.VersionAt` | internal/schema/history.go:33-48 | the binary search loop computes the search function |
| `Schema.Registry.Apply` | internal/schema/schema.go:31-48 | rejects a change without columns; otherwise appends it as the next version, all indexes in step |
| `Schema.Registry.CurrentVersion` | internal/schema/schema.go:51-55 | the number of accepted changes of the table |
| `Schema.Registry.Schema` | internal/schema/schema.go:58-68 | the backward scan finds the schema of a version or reports it missing |
| `Schema.Registry.VersionAt` | internal/schema/schema.go:73-81 | the position lookup, or an error for a table without a schema |
| `Schema.Registry.Versions` | internal/schema/schema.go:84-88 | the versions 1 to n |
| `Schema.Registry.VersionChanged` | internal/schema/version.go:14-24 | whether the two lookups differ, and under ordered changes what that means |
| `Parsing.DecodeEncodeRoundTrip` | internal/parser/decode.go:25-55 | decoding an encoded row gives the columns back exactly when null columns have the empty value |
| `Parsing.EncodeDecodeRestricts` | internal/parser/decode.go:25-55 | encoding a decoded row gives the row restricted to the schema's columns |
| `Parsing.ParseIsOneToOne` | internal/parser/parser.go:35-59 | parsing keeps count and order, and of each entry number, position, table, operation, transaction and the row's id as key, or none; each event is decoded with the version at its position |
| `Parsing.ParseStableIff` | internal/parser/parser.go:32-59 | a later schema change leaves the parse unchanged exactly when it does not register the table the parse stopped at |
| `Parsing.ParseStableUnderLaterDDL` | internal/parser/parser.go:11-13 | on registered tables no sequence of later schema changes alters a parse |
| `Parsing.RowDecoder.Decode` | internal/parser/decode.go:25-43 | schema-ordered columns with missing ones null, or the two errors |
| `Parsing.RowDecoder.Encode` | internal/parser/decode.go:47-55 | the row of the non-null columns |
| `Parsing.Parser.Parse` | internal/parser/parser.go:35-59 | the loop computes the parse function, first error included |
| `Mapping.RuleStore.ApplyMapping` | internal/mapper/rules.go:29-38 | an incomplete rule is refused; otherwise the rule is installed under a new revision |
| `Mapping.RuleStore.ApplyFilter` | internal/mapper/rules.go:42-53 | a rule without a table is refused; otherwise it is installed with its new revision |
| `Mapping.MappingExactIff` | internal/mapper/snapshot.go:26-58 | for every event and iteration order the output is exactly the kept columns in order, if and only if no mapping entry collides with a kept column |
| `Mapping.SnapshotMapsExactly` | internal/mapper/mapper.go:165-210 | a built snapshot under a collision-free rename maps every event to its version's kept columns |
| `MappedEvents.SnapshotMaps` | internal/mapper/mapper.go:165-210 | mapped with a version's snapshot, an event goes to the rule's target table or its own, with exactly the emitted schema columns in order under their target names, and keeps everything else |
| `MappedEvents.FetchIs` | internal/mapper/snapshot.go:44-54 | a target column has the value of the first event column of its source's name, or is null when there is none |
| `MappedEvents.FilterFilters` | internal/mapper/mapper.go:75-95 | after a filter update an event of the current version and the new revision carries a column if and only if its name in the target is in the filter's keep list, whatever the mapping says |
| `MappedEvents.FilterBecomesCurrent` | internal/mapper/mapper.go:78-106 | after a filter update an event without a snapshot of its own or its version is mapped with the filtered layout of the current version |
| `MappedEvents.SchemaChangeMaps` | internal/mapper/mapper.go:57-73 | after a schema change an event of the new version carries the change's columns as the rules emit them; the new version is the current one |
| `MappedEvents.MappingTakesEffect` | internal/mapper/mapper.go:165-201 | a mapping rule takes effect with the next schema change of its table: its target table, its names, and its kept columns unless a filter decides |
| `MappedEvents.OlderEventsKeepTheirLayout` | internal/mapper/mapper.go:97-112 | whatever updates follow, an event without a snapshot of its own revision is mapped with the unfiltered layout its version was given, as long as no schema change meets its key taken |
| `Mapping.SchemaChangeFrozenIff` | internal/mapper/mapper.go:59-73 | a schema change keeps all snapshots exactly when its version and revision are not taken |
| `Mapping.FilterUpdateKeepsAll` | internal/mapper/mapper.go:78-95 | a filter update never touches an existing snapshot |
| `Mapping.MappingsAreFrozen` | internal/mapper/mapper.go:57-112 | for a single-table registry no run of updates changes the snapshot an event is mapped with |
| `Mapping.MappingsAreFrozenIff` | internal/mapper/mapper.go:57-112 | for any registry a run of updates keeps every snapshot once made exactly when no schema change meets its version and revision taken |
| `Mapping.ApplySnapshot` | internal/mapper/snapshot.go:26-58 | the loops yield one of the possible outputs, or refuse an event of another table |
| `Mapping.FindSource` | internal/mapper/snapshot.go:37-43 | the search of the column map ends with a source of the target, or the target itself when there is none |
| `Mapping.Mapper.constructor` | internal/mapper/mapper.go:33-55 | snapshots of the tables' latest versions under the current revision, and no others; the current version is the highest of them, the current revision that of the rules |
| `Mapping.Mapper.BuildSnapshot` | internal/mapper/mapper.go:165-210 | the snapshot of the version under the rules, a filter overriding a mapping's kept columns |
| `Mapping.Mapper.ApplySchemaChange` | internal/mapper/mapper.go:59-73 | the new version's snapshot is added under the current revision |
| `Mapping.Mapper.ApplyFilterUpdate` | internal/mapper/mapper.go:78-95 | the current version's snapshot is added under the new revision; it succeeds exactly when the rule names a table that has the current version, or there is no version yet |
| `Mapping.Mapper.Map` | internal/mapper/mapper.go:98-112 | an event is mapped with its own, its version's unfiltered, or the current snapshot |
| `Mapping.Mapper.MapBatch` | internal/mapper/mapper.go:115-125 | events are mapped one for one in order, or the first event that cannot be mapped gives its error |
| `Mapping.MapIsOneToOne` | internal/mapper/mapper.go:114-125 | mapping a batch keeps number, position, operation, key and transaction, one for one |
| `Sink.RowsAreReplay` | internal/sink/writer.go:12-48 | in every run the rows are the replay of all effects and the applied order is the acknowledged ones |
| `Sink.RowsAreReplayOfOrder` | internal/sink/writer.go:12-48 | when each late-cancelled effect is made good on its row, rows are the replay of snapshot and applied order alone |
| `Sink.ErringWriteKeepsRowsIff` | internal/sink/writer.go:9-48 | a write that reports an error leaves the rows as they were exactly when it was turned away before the row was touched or the row already showed its effect |
| `Sink.LateCancelShows` | internal/sink/writer.go:43-46 | a late-cancelled write, a delete included, reports an error, is not in the applied order, and shows in the row |
| `SinkRows.AcknowledgedWriteShows` | internal/sink/writer.go:12-48 | an acknowledged write of an event not known yet leaves no row after a delete, and otherwise a row with exactly the event's non-null columns, of equal names the last, and an id; all other rows are as before |
| `SinkRows.RefusedWriteShows` | internal/sink/writer.go:9-48 | a refused write marks and orders nothing, and leaves the rows unless it was cancelled late |
| `SinkRows.WriteOutcome` | internal/sink/sink.go:56-93 | exactly when a write is acknowledged, and which refusal comes first |
| `SinkRows.BackpressureIs` | internal/sink/sink.go:74-93 | the flag is raised exactly by a write that ran into its timeout, lowered by an acknowledged one, and left alone by others |
| `SinkRows.SwitchedTable` | internal/sink/sink.go:114-121 | a table switched to fail refuses every event that is not known until it is switched back; other tables do not notice |
| `SinkRows.LoadShows` | internal/sink/sink.go:124-139 | after a load a table shows under each id the last snapshot row with it; rows without an id leave no trace |
| `SinkRows.LoadMarks` | internal/sink/sink.go:130-137 | a load marks exactly the ids of its rows as known and orders nothing |
| `Sink.AppliedOnce` | internal/sink/sink.go:56-93 | in every run no two applied events share a hashed identity |
| `Sink.ReissueChangesNothing` | internal/sink/sink.go:56-60 | re-issuing acknowledged events in any order and number succeeds and changes nothing |
| `Sink.IdempotencyGuard.Apply` | internal/sink/idem.go:30-34 | exactly the key's hash is added |
| `Sink.InMemorySink.ApplyWithContext` | internal/sink/writer.go:12-48 | the row mutation with its early, foreign key and late exits |
| `Sink.InMemorySink.WriteEvent` | internal/sink/sink.go:56-93 | guard, failure switch, timeout and backpressure around the mutation |
| `Sink.InMemorySink.LoadSnapshot` | internal/sink/sink.go:124-139 | snapshot rows with an id are stored and guarded, others skipped |
| `TargetRuns.AppliedAreWrittenIff` | internal/sink/sink.go:56-93 | the sink applies exactly what the dispatcher counts as written, in order, if and only if the hashed identities are new |
| `TargetRuns.DrainedRowsAreWrites` | internal/transport/transport.go:165-196 | when every failed event's key was delivered in the end, late-cancelled effects are all made good and the rows replay the snapshot and one change per delivered key |
| `TargetRuns.SuccessfulRunIsDrained` | internal/transport/transport.go:165-196 | untagged batches whose events all go through in some call leave no failed key undelivered |
| `TargetRuns.RowsAreFirstChanges` | internal/sink/sink.go:56-93 | after successful untagged batches that keep their first changes the target holds the snapshot with the first change per delivery key on top |
| `TargetRuns.EveryFeedIsAnOracle` | internal/sink/sink.go:56-93 | whatever the snapshot, the failing tables and the fates of writes, some oracle gives the dispatcher exactly the in-memory sink's answers in the whole run |
| `Oracles.RunAgrees` | internal/transport/transport.go:165-196 | sinks that answer the first k calls alike lead to the same run, or to the same actions up to call k made for the same event |
| `KeptChanges.FirstKeptIff` | internal/transport/transport.go:117-196 | for every sink a successful untagged batch writes exactly the first change per new delivery key, in order, if and only if one attempt is made, or several and at most one group holds new keys, or none and nothing is new |
| `KeptChanges.RefusedGroupIsOvertaken` | internal/transport/transport.go:120-146 | refusing only the first write of any other batch makes it succeed with a later group written before it |
| `KeptChanges.LaterChangeWins` | internal/transport/transport.go:120-146 | the shortest such run: a row's later change is written and its first suppressed, behind a success |
| `KeptRuns.FirstChangesAreWritten` | internal/transport/transport.go:165-186 | a run of successful untagged batches that keep their first changes writes exactly the first change per delivery key, in order, whatever failed on the way |
| `KeptRuns.FirstKeptInRunsIff` | internal/transport/transport.go:97-196 | whole runs write exactly the first changes whenever all calls succeed, for every sink, if and only if every batch keeps its first changes given the keys of the batches before |
| `Offset.Store.Advance` | internal/offset/offset.go:34-41 | the committed position moves forward only; nothing else changes |
| `Offset.Store.RecordRead` | internal/offset/offset.go:45-51 | the read watermark moves forward only; nothing else changes |
| `Offset.Store.Rollback` | internal/offset/offset.go:56-64 | the replay position moves forward only; nothing else changes |
| `Offset.Store.PersistCheckpoint` | internal/offset/offset.go:93-98 | the persisted position becomes the committed one |
| `Offset.Store.Restore` | internal/offset/offset.go:102-108 | committed and read positions become the persisted one |
| `Offset.PositionsStayOrdered` | internal/offset/offset.go:13-108 | from 0, persisted, committed and read positions stay ordered at every batch boundary of every run; a start above 0 is not ordered |
| `Offset.CommittedFallsOnlyOnRestart` | internal/offset/offset.go:34-108 | the committed position falls only on restart and then to the persisted one; the replay position never falls |
| `Offset.PositionsAreHighest` | internal/offset/offset.go:34-108 | between restarts the committed, read and replay positions are exactly the highest of where they started and of what the steps brought |
| `Offset.RestartResumes` | internal/offset/offset.go:90-108 | a restart goes on from the last checkpoint: committed and read position are what was committed then, whatever came since; replay position and phase stay |
| `Offset.CheckpointBrackets` | internal/offset/checkpoint.go:47-53 | persisted at most last at most committed, whatever comes before and after the read of the committed position; each is equal exactly when nothing higher was committed on its side |
| `Offset.CheckpointManager.Write` | internal/offset/checkpoint.go:47-53 | undisturbed, last, persisted and committed agree |
| `Runner.Coordinator.ProcessBatch` | internal/offset/coordinator.go:35-52 | deliver, then advance, then record; a failure commits and records nothing and only rolls back; with an accepting sink the committed position becomes that of the last event whose key was new, unless it was higher |
| `Runner.PhaseCoordinator.RunFull` | internal/source/phase.go:32-53 | it fails exactly when the context ends at some table, and then only arrivals change anything; otherwise the store and the checkpoint are at the watermark fixed before the scan, and the target shows of each scanned table the last snapshot row with each id, all other rows as before |
| `Pipeline.CommittedNeverOutrunsDelivery` | cmd/cdcpipeline/runner.go:103-144 | for untagged streams that carry no sequence above the watermark, in every reachable state of every interleaving, each position above the watermark up to the committed and the runner's position has been handled |
| `Pipeline.NoAttemptLoses` | internal/transport/transport.go:117-119 | without an attempt the runner passes an entry nobody handled |
| `Pipeline.LossFreeIff` | cmd/cdcpipeline/runner.go:103-144 | no run loses an untagged entry exactly when the policy allows an attempt and no entry can carry a sequence above the watermark |
| `Pipeline.RefusedEntryIsSkipped` | internal/transport/transport.go:150-154 | an entry alone above the watermark, refused at every attempt, whose event carries a sequence at or above its position: the runner goes on from that sequence and the entry is skipped for good |
| `TaggedRuns.TaggedTurnSafeIff` | cmd/cdcpipeline/runner.go:136-143 | with an accepting sink a turn over a transaction stays safe exactly when the tracker expects its start |
| `TaggedRuns.TurnSafeForEverySinkIff` | cmd/cdcpipeline/runner.go:136-143 | a turn over a transaction read for the first time leaves no passed entry unhandled for every sink, if and only if the tracker expects its start, success means the whole, and every event a failure can stop at lies above the sequence that opens its group |
| `TaggedRuns.GuardedRunIsSafe` | cmd/cdcpipeline/runner.go:103-144 | every state of a run, in any interleaving, is safe when each delivery is of untagged events that carry no sequence above the watermark, or of a transaction read for the first time that meets that condition |
| `TaggedRuns.SplitTransactionLosesEntry` | cmd/cdcpipeline/runner.go:103-144 | a transaction read in two batches loses its second entry without any failure |
| `TaggedRuns.FailedTransactionIsReread` | internal/transport/transport.go:150-154 | after a failure at event k the runner goes on from the larger of the old replay position and the sequence that opens k's group, and reads event k again exactly when its position lies above that |
| `TaggedRuns.RereadForEverySinkIff` | cmd/cdcpipeline/runner.go:137-141 | every failure of a fresh transaction, with any sink, re-reads the first undelivered event if and only if every event a failure can stop at lies above the sequence that opens its group and above the old replay position |
| `TaggedRuns.NewKeysCanFail` | internal/transport/transport.go:167-184 | with new and distinct keys a failure can stop at every event |
| `Pipeline.CommittedMeansWritten` | internal/offset/coordinator.go:14-17 | when delivery keys name positions, every entry up to the committed position was really written |
| `CatchUp.TurnProgresses` | cmd/cdcpipeline/runner.go:103-144 | with an accepting sink a turn over untagged entries handles them all and moves on to the last; the committed position rises to that of the last event whose key was new |
| `CatchUp.TurnsCatchUp` | cmd/cdcpipeline/runner.go:103-144 | turns bring the runner to the end of the log exactly when their limits add up to the unread entries; every entry passed is handled and the committed position is the highest written since |
| `EndToEnd.AcknowledgedEntryShows` | internal/sink/writer.go:12-48 | the target after the acknowledged write of a parsed and mapped entry: a deleted row is gone, any other has exactly the emitted columns of the entry's row under their target names, and an id; no other row changed |
| `EndToEnd.ParsedEntryShows` | internal/parser/parser.go:35-59 | without mapping rules the row is the entry's row restricted to the schema's columns, and an id, and gone after a delete |
| `Runner.Runner.Turn` | cmd/cdcpipeline/runner.go:103-144 | one turn of the loop is a sequence of the pipeline's moves on the runner's state |
| `Runner.Runner.DeliverMapped` | cmd/cdcpipeline/runner.go:136-143 | a prepared batch is processed and the position moves to its end or to the replay position |
| `Runner.Runner.ParseAndMap` | cmd/cdcpipeline/runner.go:121-135 | nothing exactly when an entry does not parse or an event cannot be mapped; otherwise one event per entry, with the version active at its position and the runner's filter revision |

## Left out

- Integer width: positions, sequences and counters are unbounded numbers; wrap-around of `uint64` is not modelled, except for durations in `Retry`.
- `TxnOrder.TransactionOrderOverRuns`: is stated for runs of groups that keep the order in every state (`TxnOrder.OrderKeptIff`); runs with other groups may still happen to stay ordered.
- `TxnPrefix.TransactionPrefix`: is stated for one transaction the tracker has not seen; `TxnPrefix.ResumedTransactionIsHeld` covers the other case.
- `Pipeline.CommittedNeverOutrunsDelivery`: is stated for untagged streams over an ascending log whose entries carry no sequence above the watermark; others can lose entries, see `Pipeline.LossFreeIff`, and `TaggedRuns.GuardedRunIsSafe` for transactions.
- `TaggedRuns.TaggedTurnSafeIff`: is stated for a sink that accepts every write; `TaggedRuns.TurnSafeForEverySinkIff` covers every sink.
- `TaggedRuns.TurnSafeForEverySinkIff`: is stated for a batch that holds one transaction, read for the first time; batches that mix transactions are not covered.
- `Mapping.MappingsAreFrozen`: is stated for a registry with one table, because snapshot keys do not name the table; `Mapping.MappingsAreFrozenIff` covers any registry.
- `KeptChanges.FirstKeptIff`: is stated for batches that hold no event value twice, as the distinct positions of a log make them; so is `KeptRuns.FirstKeptInRunsIff`.
- `Planner.FKPlanner.Order`: for repeated input tables only the set of names and termination are stated; plans name each table once.
- `Plan.PlannedDeliveryRespectsForeignKeys`: is stated for untagged events; for a transaction see `PlanFailure.PlannedWholeForEverySinkIff`.
- `Acknowledged.AcceptedAcksLastNew`: is stated for untagged batches in ascending order of positions above 0, as a log makes them; `Acknowledged.AcksHighestLastWrite` covers every batch.
- `Acknowledged.HighestAckedIff`: is stated for untagged batches in strictly ascending order of positions above 0, as a log makes them.
- `CatchUp.TurnsCatchUp`: is stated for a sink that accepts every write, an untagged log and turns with nothing interleaved; what failures do is the subject of `Pipeline.LossFreeIff`.
- `EndToEnd.AcknowledgedEntryShows`: is stated for renames without collisions, see `Mapping.MappingExactIff`.
- `TxnPlan.PlannedTransactionIff`: is stated for a sink that accepts every write; `PlanFailure.PlannedWholeForEverySinkIff` covers every sink.
- `TargetRuns.DrainedRowsAreWrites`: takes table failures that are switched on and off during a run as one more way a write can fail early.
- `Schema.LookupIsExact`: assumes nondecreasing change positions, which the registry does not enforce.
- `Transport.Dispatcher.DrainPending`: does not sleep; the number of delays is counted and their sum bounded in `Retry`.
- Concurrency inside the dispatcher and the sink: each locked method is one atomic step, tickers and goroutines become interleaved moves.
- Foreign key checks inside the sink: one more way a write can fail, decided by an oracle.
- Reader pausing under backpressure: only delays reads; the flag itself is kept by `Sink.InMemorySink.WriteEvent`.
- Pipeline statistics other than the delivered counter, status listings and formatting helpers: display only.
- Mapping digests and xxhash: the hash is an arbitrary function, digests are display only.
- The HTTP server, the monitor page, configuration and `main`: input, output and wiring.
- Entry fields `OldRow`, `SchemaVersion` and `Raw`, the event field `Filtered`, and the table sets of the log and the planner: no modelled code reads them.
