# ffhn-core durable source store: a verified model

`ffhn-core` keeps one durable store per monitored source: an identity, a state document, per-measurement
state, and two bounded outboxes whose records are retried and finally dead-lettered. Everything is
changed through two write-ahead protocols, and a process may die between any two durable steps, also
inside recovery. This project models that store and the components whose state it commits, and proves
what the protocols keep over whole runs.

## The model

- **Disk and runs.** `StoreTypes.Disk` is the durable content of one source directory: identity,
  storage (a flat map from paths to documents, plus the commit manifest), tombstone and lineage
  manifest. Each of the three documents is a `Slot`: absent, unreadable, or decoded. An operation is a
  function from a disk and a `Fault` to a `Run`. The fault says after how many durable steps the process
  is cut, whether an interrupted staging write leaves partial bytes, and which staged files survive an
  interrupted discard. A crash is therefore an ordinary result, and `Done`, `Failed` and `Crashed` are
  told apart.
- **Both protocols.** `CommitManifests` and `Commit` hold the normal commit, `Lineage` and `Resets` the
  lineage transitions, `Gate` the lineage gate, `Recovery` the turn entry, `Operations`, `Acquisition`
  and `Cycle` the operations that use them. `SourceStore.Store` is the same system as an object that
  changes in place; each of its methods is proved to be the run it is specified by.
- **Goals.** Every recoverable disk has a `Goal`: what its recovery stands for. Crashing inside recovery
  never moves it. Atomicity, conservation and whole-run coherence are statements about goals.
- **Whole runs.** `Runs` puts every operation, cut anywhere, into one sequence and says which phases a
  source can be in: recoverable, behind the blind window, or stuck (`Stuck`). `Conservation`, `Ledger`,
  `Generations` and `QueueCaps` prove what a run keeps. `Emitters` and `EngineRuns` put the episode state
  machine of every emitter behind the cycles' plans, with its counters in the committed state documents;
  `Freshness` and `Readmission` prove what follows when its events are new, and what when they are not.
- **Answers, spelled out.** What an operation is for is also stated without the functions that compute it:
  `CycleResults` and `CycleCompletion` for the acquisition cycle, `DrainResults` for a drain, `Resets` for both
  resets, `GateVerdicts` for the gate, `AdmissionOrder` for admission, `PolicyFold` for policy state, `JsonText` for
  the canonical text, `StepOrder` for the order of durable steps
  at every cut, and `Refusals` for what is refused on any disk at all.
- **Committed state.** `Identifiers`, `DeliveryConfig`, `Outbox`, `Retry` and `Delivery` model
  admission, backoff and attempts; `Episodes` the shared episode counters and their event keys;
  `PolicyState`, `PolicyHistory` and `EventMaterialize` the incremental condition state and its events;
  `Redirects` the HTTP loop whose result a cycle commits; `StorePaths` the path texts; `StableJson` and
  `JsonCanonical` the canonical writer that every digest rests on.

## Assumptions

- A rename, an atomic write and the removal of one file or directory are one durable step each.
- SHA-256 is collision free: a file's digest is its content, an event id is determined by its key.
- Minted lineage tokens and staging names are parameters. Where a proof needs a staging name to be
  unused, it says so; no proof needs a lineage token to be fresh.
- The exclusive source lock serialises writers and is released by a crash.
- Timestamps are instants (integers), the jitter ratio is a real number, and failure texts, adapters and
  acquired facts are carried along without being read.
- A drain may take any due record, which covers the first one the directory listing yields.
- Policy evaluation, URL resolution, secrets and every server are arbitrary functions.
- A whole run assumes one thing of each acquisition cycle, that its plan names a measurement once, as the
  source's directory of measurements does. It assumes nothing about keys, routes, policies or instants.

## Findings

- **A retired key that comes back can stop a source.** Admission looks at pending records only
  (`Freshness.RetiredKeysAdmittedAgain`). If a key whose dead letter still exists is admitted again and dies
  again with another history, the commit's "dead letter must be absent" guard fails after its manifest is
  durable. From then on every turn entry answers `Unresolvable(Commit)` until `reset --source`. After a run
  without a source reset a turn entry is ready if and only if no death met a taken place
  (`Runs.ReadyIffNothingCollided`); a death that does is stuck from its manifest write on
  (`Stuck.CollisionExact`), and one with unused staging names and three steps left always gets there
  (`Runs.TakenPlaceStopsSource`). The engine never readmits a key by itself as long as each emitter's threshold
  is fixed (`EngineRuns.EngineRunsAlwaysReady`). Raising a threshold from 1 to 2 between two drains is enough:
  `Readmission.RaisedThresholdStopsSource` is the run, for every event, route and single-attempt policy.
- **Episode keys are unique exactly as long as `escalate_after` never changes.** The threshold is part of
  neither contract digest, so raising it while an episode is open lets the same episode reach escalation
  a second time under the same key (`Episodes.KeysUniqueIffThresholdFixed`).
- **A foreign lineage manifest is refused late.** Recovery applies the manifest's authority before it
  compares the source id. A valid manifest of another source changes the identity before it is refused if and
  only if there is no identity and it initialises, or it starts from the very identity that is there
  (`Lineage.ForeignManifestOverwritesIdentity`; `Lineage.ForeignManifestExample` is such a disk). A verdict of
  unresolvable is therefore no promise that turn entry wrote nothing; in the blind window it is.
- **A direct 304 is accepted whenever validators are held.** The request it answers was conditional if and only if
  they were issued for the source's present URL, so a source whose URL was edited can be taken for unmodified
  without having asked (`Redirects.NotModifiedIsConditionalIff`; `Redirects.ForeignValidatorsAccepted` is an input).
- **At the last observation sequence number a refused acceptance can change conditions.** The evaluation loop
  runs before the checked increment. A refused acceptance leaves exactly the rebased state if and only if it
  was refused by an earlier check, or the number was not the last, or no declared condition would have moved
  (`PolicyHistory.RefusedAcceptanceIsCleanIff`). `PolicyHistory.ExhaustedSequenceTears` is an input: the valid state
  that 2^64 - 1 equal observations lead to from a fresh one.

## Model

| member | source | states |
|---|---|---|
| Identifiers.IsValidNodeId | crates/ffhn-core/src/graph/identity.rs:366-384 | the flag-carrying pass accepts exactly the position-wise identifier grammar |
| Identifiers.RecognisersAgree | crates/ffhn-core/src/graph/delivery_config.rs:312-324 | the substring recogniser of route ids accepts the same strings as the single-pass recogniser of node ids |
| DeliveryConfig.ValidateDelivery | crates/ffhn-core/src/graph/delivery_config.rs:287-310 | the set-inserting loop accepts exactly configurations with matching presence, allowed families and distinct route ids |
| Retry.CappedDelayExact | crates/ffhn-core/src/graph/retry.rs:57-64 | for every valid policy and attempt the fixed-width delay is min(base * 2^(attempt-1), max) over unbounded integers |
| Retry.CappedDelayMonotone | crates/ffhn-core/src/graph/retry.rs:57-64 | the delay never falls with the attempt and stays between base and maximum |
| Retry.WindowWithinDelay | crates/ffhn-core/src/graph/retry.rs:33-41 | the jitter window never exceeds the delay |
| Retry.RetryAtExact | crates/ffhn-core/src/graph/retry.rs:15-55 | no overflow branch or clamp is reachable; the call fails exactly past the last instant; the result is the capped delay moved by a signed offset inside the window |
| Retry.EveryOffsetReachable | crates/ffhn-core/src/graph/retry.rs:38-49 | the jitter is complete: some 64-bit digest prefix yields every offset of the window |
| Retry.RetryAtSpelled | crates/ffhn-core/src/graph/retry.rs:15-64 | after n failures the retry instant is the clock plus min(base * 2^n, max) moved by the digest's offset in the floor(delay * ratio) window, or refused past the last instant |
| Outbox.ValidateCommon | crates/ffhn-core/src/graph/outbox.rs:316-364 | the running-instant loop decides contiguous attempt numbers and pairwise monotone instants |
| Outbox.Admit | crates/ffhn-core/src/graph/outbox.rs:476-531 | the accumulating loops compute the declarative admission, with its three error conditions |
| Outbox.AdmitEvents | crates/ffhn-core/src/graph/outbox.rs:500-530 | the event loop succeeds exactly on valid envelopes and yields first occurrences of unclaimed keys split at the remaining room |
| Outbox.OffersExact | crates/ffhn-core/src/graph/outbox.rs:502-506 | the fan-out offers exactly the family-matching pairs of a listed event and a listed route |
| AdmissionOrder.OffersInOrder | crates/ffhn-core/src/graph/outbox.rs:502-506 | the offers are the matching pairs of event and route, each once, event by event and within one event route by route |
| AdmissionOrder.UnclaimedInOrder | crates/ffhn-core/src/graph/outbox.rs:507-510 | the offers that count are the first of each untaken key, in offer order |
| AdmissionOrder.AdmittedSpelledOut | crates/ffhn-core/src/graph/outbox.rs:511-530 | as many of them as there is room for become fresh records with the event's envelope, the route's fields, the policy, no attempt and the admission instant; the rest become overflow facts in order |
| AdmissionOrder.AdmissionFailsIff | crates/ffhn-core/src/graph/outbox.rs:484-501 | admission fails exactly on routes without a policy, an invalid policy, or an envelope that contradicts its kind |
| Outbox.AdmissionConserves | crates/ffhn-core/src/graph/outbox.rs:507-530 | every offered and untaken key becomes a record or an overflow fact, never both, and overflow happens only at a full queue |
| Outbox.ReadmissionIsIdempotent | crates/ffhn-core/src/graph/outbox.rs:474-475 | offering the same events again admits nothing and reports the same overflow in the same order |
| Delivery.RecordFailureExact | crates/ffhn-core/src/graph/outbox.rs:253-282 | exactly when bookkeeping accepts a failed attempt, and that the result is the single-attempt successor |
| Delivery.ExecuteDeliveryAttempt | crates/ffhn-core/src/graph/delivery_execute.rs:49-88 | the step-by-step attempt is the specified outcome, error cases included |
| Delivery.ExecutionExact | crates/ffhn-core/src/graph/delivery_execute.rs:49-88 | the whole attempt, with the instant spelled out: when a failure is refused; the record it is booked into, one attempt longer and due after base * 2^n capped and jittered; and that the last attempt allowed makes it the dead letter |
| Delivery.ExecutionFollows | crates/ffhn-core/src/graph/delivery_execute.rs:49-88 | an accepted attempt's retry is a valid pending successor of the record, its letter a valid one at exactly the cap |
| Delivery.DueAttemptAccepted | crates/ffhn-core/src/graph/delivery_execute.rs:67-88 | an attempt on a due record with a clock not before its start is never rejected |
| Delivery.FirstDue | crates/ffhn-core/src/graph/delivery_drain.rs:129-139 | the scan returns the first listed record whose instant has come, or shows that there is none |
| Delivery.LifeIsBounded | crates/ffhn-core/src/graph/delivery_drain.rs:44-90 | drained only when due, a record's life ends within the attempts left and never in a rejection |
| Delivery.DeadExactlyAtTheCap | crates/ffhn-core/src/graph/outbox.rs:284-301 | a life ends in a dead letter if and only if every one of the attempts left failed, and the letter keeps the whole history |
| CommitManifests.ValidateEntries | crates/ffhn-core/src/graph/manifest.rs:302-334 | the two path sets and the counter decide distinct targets, distinct staged paths and one source-state install |
| CommitManifests.CommittedDependsOnUntouched | crates/ffhn-core/src/graph/commit.rs:138-159 | the committed files depend only on paths that no operation targets |
| Commit.ReplaySound | crates/ffhn-core/src/graph/commit.rs:138-219 | on arbitrary files replay changes only targets, only to their effect, and success means every target has it |
| Commit.ReplayNeverRefused | crates/ffhn-core/src/graph/commit.rs:161-219 | a manifest whose guards hold or are already fulfilled is never refused and stays so wherever replay is cut |
| Commit.ReplayCompletesIff | crates/ffhn-core/src/graph/commit.rs:138-219 | on any files, an uncut replay succeeds if and only if every operation is already applied or still exactly guarded |
| Commit.RecoverySound | crates/ffhn-core/src/graph/commit.rs:27-64 | if recovery of any valid manifest succeeds on any storage, the files are the committed ones, additions are registered, and the state bears the manifest's generation and lineage |
| Commit.RecoveryCompletesIff | crates/ffhn-core/src/graph/commit.rs:27-64 | on any disk, uncut commit recovery completes if and only if the manifest is valid and this source's, touched measurements bear their instances, added ones do not conflict, the generation is the stored one or its successor, every operation is ready, and the committed state bears the manifest's generation and lineage |
| Commit.CommittedExact | crates/ffhn-core/src/graph/commit.rs:138-219 | the committed files: each install target its result, each remove target absent, every other path unchanged |
| Gate.GateDecidesCoherence | crates/ffhn-core/src/graph/lineage_gate.rs:161-262 | the gate accepts a store if and only if identity and storage agree file by file, and then reports each measurement Ready or NeverInitialized |
| GateVerdicts.SourceVerdict | crates/ffhn-core/src/graph/lineage_gate.rs:161-215 | each of the gate's answers for the source, exactly when, by identity, source state, source queues and strays alone |
| GateVerdicts.MeasurementVerdict | crates/ffhn-core/src/graph/lineage_gate.rs:210-262 | which measurements are listed, and each answer for one of them, exactly when, by the identity and its own subtree |
| GateVerdicts.DamageIsLocal | crates/ffhn-core/src/graph/lineage_gate.rs:156-262 | whatever happens in one measurement's subtree, the answers for the source and every other measurement stay the same |
| Lineage.ResetReplacesOnlyTheNamedEntry | crates/ffhn-core/src/graph/lineage_manifest.rs:186-230 | validation accepts exactly the prior identity with only the named entry replaced by a different one |
| Lineage.SwapSourceConverges | crates/ffhn-core/src/graph/transition.rs:129-145 | from any disk the source swap is never refused, and completed it leaves exactly fresh storage and no tombstone |
| Lineage.SwapMeasurementConverges | crates/ffhn-core/src/graph/transition.rs:147-182 | the measurement swap keeps its aim wherever it is cut and reaches it when it completes |
| Lineage.ForeignManifestOverwritesIdentity | crates/ffhn-core/src/graph/transition.rs:65-96 | a valid manifest of another source is refused, but the identity it leaves is exactly the authority table's, and differs from the one before if and only if there was none and the manifest initialises, or the manifest starts from it |
| Lineage.ForeignManifestExample | crates/ffhn-core/src/graph/transition.rs:65-96 | a copied source with the original's reset manifest: refused, and left with the identity the manifest names |
| StepOrder.ReplayInOrder | crates/ffhn-core/src/graph/commit.rs:138-159 | the operations of a manifest apply in its order: replay cut or refused anywhere leaves some prefix of them in effect and every later target as it was |
| StepOrder.CommitStepsInOrder | crates/ffhn-core/src/graph/commit.rs:27-64 | on any disk with a durable manifest and at any cut: no file changes before the additions are in the identity, a prefix of the operations has taken effect, and the manifest is gone exactly when recovery is done |
| StepOrder.LineageStepsInOrder | crates/ffhn-core/src/graph/transition.rs:65-86 | on any disk with a durable lineage manifest and at any cut: storage changes only under the target identity, and the manifest is gone exactly when the transition is done |
| StepOrder.BlindStepsInOrder | crates/ffhn-core/src/graph/transition.rs:30-52 | a blind source reset writes its manifest, then the fresh identity, then swaps storage, and removes the manifest last |
| StepOrder.SourceSwapStepByStep | crates/ffhn-core/src/graph/transition.rs:129-145 | the exact disk after every number of steps of the source swap: old tombstone, rename, empty storage, fresh state, tombstone |
| StepOrder.MeasurementSwapStepByStep | crates/ffhn-core/src/graph/transition.rs:147-182 | the subtree, the tombstone and every other file after every number of steps of the measurement swap |
| Recovery.ReplayKeepsPending | crates/ffhn-core/src/graph/commit.rs:51-58 | the lineage and generation gate keeps opening after any part of a replay |
| Recovery.RecoverCommitConverges | crates/ffhn-core/src/graph/commit.rs:27-64 | commit recovery is never refused, keeps its goal wherever it is cut, and completed shows exactly that goal |
| Recovery.RecoverLineageConverges | crates/ffhn-core/src/graph/transition.rs:65-86 | lineage recovery likewise, for initialisation, source reset and measurement reset |
| Recovery.TurnEntryConverges | crates/ffhn-core/src/graph/turn_entry.rs:40-51 | from every recoverable disk turn entry is ready when it completes, and cut anywhere keeps the goal |
| Recovery.BlindWindowRefused | crates/ffhn-core/src/graph/turn_entry.rs:40-43 | in the blind window turn entry refuses and writes nothing |
| Recovery.RepeatedCrashesConverge | crates/ffhn-core/src/graph/turn_entry.rs:36-51 | any number of interrupted recoveries followed by a completed one arrives exactly at the goal |
| Recovery.TurnEntryCompletes | crates/ffhn-core/src/graph/turn_entry.rs:40-51 | from any disk at all, a turn entry reaches a verdict within one step per manifest operation and nine more |
| Recovery.VerdictExact | crates/ffhn-core/src/graph/turn_entry.rs:40-51 | on any disk at all, exactly when an uncut turn entry is ready, and which of the two manifests it names otherwise; the manifests' conditions are spelled out |
| Operations.ApplyCommitAtomic | crates/ffhn-core/src/graph/commit.rs:19-24 | the manifest write is the commit point: before it nothing happened, from it on everything will |
| Operations.OutcomeFilesSound | crates/ffhn-core/src/graph/delivery_commit.rs:53-88 | every delivery outcome keeps all files coherent |
| Operations.DeliveryCommitAtomic | crates/ffhn-core/src/graph/delivery_commit.rs:25-112 | step by step, a cut delivery commit stands for the old state or for the whole outcome with the generation up by one |
| Acquisition.RecordWritesFit | crates/ffhn-core/src/graph/engine/process.rs:155-174 | admitted records are stamped with their emitter's lineage, guarded as absent, and each has its own file |
| Acquisition.PlanMeasurementsFits | crates/ffhn-core/src/graph/engine/process.rs:59-198 | the measurement loop plans one state per measurement, registers exactly the new ones, and writes only into planned outboxes |
| Cycle.StageWritesSteps | crates/ffhn-core/src/graph/engine/commit.rs:24-71 | with unused names, staging takes one durable step per document and is never refused |
| Cycle.CycleFilesSound | crates/ffhn-core/src/graph/engine/commit.rs:15-80 | a cycle's files are coherent under the identity with its additions, also where it admits a key whose dead letter is stored |
| Cycle.AcquisitionCommitAtomic | crates/ffhn-core/src/graph/engine/commit.rs:15-80 | step by step, a cut acquisition commit stands for the old state until all documents are staged and the manifest is written, and for the whole cycle afterwards |
| Cycle.AcquisitionCompletes | crates/ffhn-core/src/graph/engine/commit.rs:15-80 | with unused staging names and a stated number of steps an acquisition commit completes |
| Resets.ResetFilesSound | crates/ffhn-core/src/graph/transition.rs:147-182 | after a measurement reset the source state, all siblings and their queues are unchanged and the named subtree holds one fresh state |
| Resets.MeasurementResetAtomic | crates/ffhn-core/src/graph/reset.rs:91-125 | from every recoverable disk an interrupted measurement reset stands for the old lineage or the reset one |
| Resets.MeasurementResetExact | crates/ffhn-core/src/graph/reset.rs:91-125 | from every recoverable disk: a reset leaves the source as it was or gives the named entry the minted instance and the next reset count and its subtree one fresh state of that instance, with all else unchanged; uncut it completes if and only if the source exists and the count has a successor |
| Resets.BlindTransition | crates/ffhn-core/src/graph/transition.rs:30-52 | the blind transition from any disk: what each cut leaves, the manifest it writes first, and the exact fresh store it completes to |
| Resets.BlindResetWins | crates/ffhn-core/src/graph/reset.rs:52-88 | from any disk, however corrupt, a source reset is never refused; completed it leaves the fresh disk, spelled out; cut it leaves the disk as it was, the blind window over untouched identity and storage, or a disk turn entry finishes |
| Resets.RepeatedResetsConverge | crates/ffhn-core/src/graph/reset.rs:52-88 | however often it was cut before, one uninterrupted source reset ends in the fresh lineage within a stated number of steps |
| Runs.DrainAtomic | crates/ffhn-core/src/graph/delivery_drain.rs:44-127 | a drain from every recoverable disk stands for the old state or for its whole outcome, unless its record dies at a taken place: then the source is stuck and only its state document moved |
| DrainResults.DrainExact | crates/ffhn-core/src/graph/delivery_drain.rs:44-127 | from every recoverable disk: a drain leaves what was there or its due record delivered, retried or dead, file by file, with the next generation; completed, the latter if the record was due |
| DrainResults.DrainCompletes | crates/ffhn-core/src/graph/delivery_drain.rs:44-127 | an uncut drain: a record not there or not due is left alone; a due one is refused exactly if it cannot be booked or the generation is the last, sticks the source exactly if it dies at a taken place, and is otherwise attempted and committed |
| DrainResults.DeliveryManifestSpelledOut | crates/ffhn-core/src/graph/delivery_commit.rs:89-110 | a cut delivery commit leaves no commit manifest but its own, which touches its own measurement under its instance and adds nothing |
| Runs.TakenPlaceStopsSource | crates/ffhn-core/src/graph/delivery_commit.rs:75-87 | a death at a taken place, with unused staging names and steps for its manifest write, leaves the source unresolvable whatever follows short of a source reset |
| Runs.InitialisationAtomic | crates/ffhn-core/src/graph/engine/eligibility.rs:55-71 | an interrupted initialisation stands for no source or for the fresh one |
| Runs.MeasureAtomic | crates/ffhn-core/src/graph/engine.rs:294-561 | a locked cycle over any recoverable store stands for the old state, the initialised source, or the whole cycle |
| CycleResults.MeasureExact | crates/ffhn-core/src/graph/engine.rs:294-561 | from every recoverable disk: a cycle leaves what was there, the fresh source, or the planned result, file by file: new generation and facts, each planned state under its instance, each emitter's queue with the first claims there is room for as fresh records, new entries registered, all else unchanged |
| CycleResults.PlanSpelledOut | crates/ffhn-core/src/graph/engine/process.rs:59-198 | the planner fails exactly on an inadmissible emission, and otherwise plans one state, the emission's records, and an addition or a touched entry per measurement |
| CycleResults.HeldIsPassedOver | crates/ffhn-core/src/graph/engine/eligibility.rs:108-115 | a measurement the gate holds is passed over: the cycle is the one planned without it |
| CycleResults.ManifestSpelledOut | crates/ffhn-core/src/graph/engine/commit.rs:70-80 | a cut cycle leaves no commit manifest but its own, which touches exactly the registered planned measurements and adds exactly the new ones |
| CycleCompletion.MeasureCompletesIff | crates/ffhn-core/src/graph/engine.rs:294-561 | with unused staging names and a stated number of steps a cycle completes if and only if every emission is admissible and the generation has a successor, and fails otherwise |
| Runs.BlindRefusesAll | crates/ffhn-core/src/graph/turn_entry.rs:38-39 | in the blind window every operation but a source reset changes nothing |
| Refusals.UnresolvableRefusesAll | crates/ffhn-core/src/graph/turn_entry.rs:36-51 | on any disk, after an unresolvable turn entry every operation but a source reset stops where the turn entry did |
| Refusals.RefusedSourceIsLeftAlone | crates/ffhn-core/src/graph/delivery_drain.rs:59-64 | on any disk, a source that the gate refuses is neither measured nor drained |
| Refusals.UnreadyQueueIsLeftAlone | crates/ffhn-core/src/graph/delivery_drain.rs:65-69 | on any disk, the queue of a measurement that is not ready is left alone |
| Refusals.BrokenManifestRefused | crates/ffhn-core/src/graph/manifest.rs:261-350 | a commit manifest that breaks any clause of its contract is neither written nor replayed, and nothing changes |
| Refusals.WrongDeliveryRefused | crates/ffhn-core/src/graph/delivery_commit.rs:25-88 | on any disk, a delivery of a foreign or spent record is refused before anything is staged, and one whose record is gone or whose outcome is not its own with nothing but staging changed |
| Runs.StepKeepsRecoverable | crates/ffhn-core/src/graph/turn_entry.rs:36-51 | a recoverable source stays recoverable under every step of its lineage, wherever it is cut, but one: a drain that collides sticks it |
| Runs.StepKeepsReachable | crates/ffhn-core/src/graph/turn_entry.rs:36-51 | whatever operation is attempted and wherever it is cut, the source stays recoverable, behind the blind window, or stuck |
| Runs.WholeRunCoherence | crates/ffhn-core/src/graph/lineage_gate.rs:156-262 | over every interleaving of cycles, drains, resets, turn entries and crashes from a new source: without a manifest the gate accepts; turn entry restores readiness, except that it names the lineage manifest in the blind window and the commit manifest of a stuck source |
| Runs.ReadyIffNothingCollided | crates/ffhn-core/src/graph/turn_entry.rs:36-51 | after a run without a source reset a turn entry is ready if and only if no death of the run met a taken place, and otherwise the source is stuck |
| Runs.StuckForever | crates/ffhn-core/src/graph/turn_entry.rs:47-50 | a stuck source stays unresolvable, and its queues unchanged, under every run without a source reset |
| Conservation.GoalIsQueuedOrArriving | crates/ffhn-core/src/graph/commit.rs:138-219 | on every recoverable disk, what the goal holds in a queue is in a queue on the disk itself, or the durable manifest still installs it from a staged file that is there |
| Conservation.ReplayHolds | crates/ffhn-core/src/graph/commit.rs:138-159 | a replay cut anywhere leaves every record that its committed files hold in one of the two queues |
| Conservation.TurnEntryHolds | crates/ffhn-core/src/graph/turn_entry.rs:40-51 | so does a turn entry, whatever protocol it is finishing |
| Conservation.DrainHolds | crates/ffhn-core/src/graph/delivery_commit.rs:25-112 | so does a drain: the dead letter is installed before its pending record goes |
| Conservation.MeasureHolds | crates/ffhn-core/src/graph/engine/commit.rs:15-80 | an acquisition cycle loses no record, wherever it is cut |
| Conservation.MeasurementResetHolds | crates/ffhn-core/src/graph/transition.rs:147-182 | a measurement reset keeps the records of every other emitter on disk at every step |
| Ledger.StepBooks | crates/ffhn-core/src/graph/delivery_commit.rs:25-112 | every operation, cut anywhere and stuck or not, moves the book of admitted and acknowledged keys as the source's queues move |
| Ledger.RecordConservation | crates/ffhn-core/src/graph/delivery_commit.rs:53-88 | over every run of one lineage each pending record is admitted and open, each dead letter of an admitted key, and each open key in a queue; a key never readmitted over its dead letter is in exactly one place |
| Ledger.ReadmissionDoubles | crates/ffhn-core/src/graph/outbox.rs:493-530 | a readmission over a stored dead letter puts the key in both queues, so the condition cannot be dropped |
| Ledger.UnacknowledgedNeverLost | crates/ffhn-core/src/graph/commit.rs:138-219 | at the end of every run of one lineage, wherever its last step was cut, an admitted and unacknowledged key is in a queue on the disk, or the durable manifest still installs its record from a staged file that is there |
| Ledger.QueuedStaysQueued | crates/ffhn-core/src/graph/delivery_commit.rs:70-88 | once an open key is in a queue it is in a queue at every later crash point as long as it stays open |
| Stuck.CollisionExact | crates/ffhn-core/src/graph/delivery_commit.rs:73-111 | a death at a taken place: cut up to its manifest write nothing has happened; cut anywhere from there on the source is stuck and nothing but the source state has changed |
| Stuck.DeadLetteringCompletesIffPlaceFree | crates/ffhn-core/src/graph/delivery_commit.rs:75-87 | dead-lettering completes if and only if its place is absent or already holds the same letter; otherwise the source is stuck |
| Generations.GenerationMovesByOne | crates/ffhn-core/src/graph/state.rs:269-291 | a step leaves the committed generation alone or moves it to its successor; only the first cycle may also initialise on its way, and only a collision sticks the source instead |
| QueueCaps.PendingNeverExceedsCap | crates/ffhn-core/src/graph/outbox.rs:511-520 | over every run of one lineage, cut anywhere, an emitter's pending queue stays within the cap that its policies keep to |
| Freshness.RetiredKeysAdmittedAgain | crates/ffhn-core/src/graph/outbox.rs:493-510 | for any emission, admission writes the first unclaimed offers whatever dead letters are stored, and with room enough every offered key that is not pending |
| Freshness.AdmittedIsForeseen | crates/ffhn-core/src/graph/engine/process.rs:155-174 | every record a cycle admits is of an event its plan emits for that emitter, and a measurement's record is committed with that measurement's state |
| Freshness.FreshCycleReadmitsNothing | crates/ffhn-core/src/graph/engine/commit.rs:45-71 | a cycle whose events were never admitted for their emitters admits no key whose dead letter is stored |
| Freshness.WithoutReadmissionAlwaysReady | crates/ffhn-core/src/graph/turn_entry.rs:36-51 | a run that readmits no key over its dead letter never sticks, every turn entry is ready, and every admitted key is in exactly one place |
| Emitters.NoEventTwice | crates/ffhn-core/src/graph/event/key.rs:37-146 | under a fixed threshold no initialisation, episode or condition event is given out twice by one emitter |
| Emitters.GivenOutExactly | crates/ffhn-core/src/graph/engine/process.rs:35-132 | after any history of a new emitter: its first accepted observation alone announces it, the n-th gives one event numbered n per condition fact, a failure or fault exactly its episode event |
| EngineRuns.FollowingIsFresh | crates/ffhn-core/src/graph/engine.rs:365-404 | where every stored emitter is past what it admitted, the events of the next cycle were never admitted before |
| EngineRuns.ContentAccounts | crates/ffhn-core/src/graph/engine/commit.rs:15-80 | a committed cycle moves each emitter's counters together with its records, so the emitter is past everything it admitted |
| EngineRuns.EngineRunsAlwaysReady | crates/ffhn-core/src/graph/state.rs:376-432 | in every run of one lineage whose cycles plan what their emitters give out under fixed thresholds, cut anywhere, no key is readmitted, nothing collides, every turn entry is ready, and each admitted key is in exactly one place |
| Readmission.RaisedThresholdStopsSource | crates/ffhn-core/src/graph/health.rs:64-76 | a run from a new source, for every event, route and single-attempt policy: two cycles that follow their emitters, under threshold 1 and then 2, and two drains of due records end in a stuck source |
| SourceStore.Store.StageBytes | crates/ffhn-core/src/graph/commit.rs:79-100 | staging in place: refused on an existing name, possibly torn by a crash, otherwise exactly one new file |
| SourceStore.Store.DiscardUncommittedStaging | crates/ffhn-core/src/graph/commit.rs:119-136 | discarding removes all staging, or any part of it when cut |
| SourceStore.Store.ReplayOperation | crates/ffhn-core/src/graph/commit.rs:161-219 | one guarded install or remove: refused, already done, or one durable step |
| SourceStore.Store.ReplayCommitOperations | crates/ffhn-core/src/graph/commit.rs:138-159 | the loop over operations is the specified replay, at every cut |
| SourceStore.Store.ApplyIdentityAdditions | crates/ffhn-core/src/graph/commit.rs:254-271 | the loop registers unknown entries and refuses exactly a conflicting one |
| SourceStore.Store.RecoverNormalCommit | crates/ffhn-core/src/graph/commit.rs:27-64 | commit recovery in place is the specified run, with every error branch |
| SourceStore.Store.ApplyNormalCommit | crates/ffhn-core/src/graph/commit.rs:19-24 | the manifest write followed by recovery is the specified run |
| SourceStore.Store.SwapSourceStorage | crates/ffhn-core/src/graph/transition.rs:129-145 | the source swap in place, step by step |
| SourceStore.Store.SwapMeasurementStorage | crates/ffhn-core/src/graph/transition.rs:147-182 | the measurement swap in place, step by step |
| SourceStore.Store.ApplyManifestAuthority | crates/ffhn-core/src/graph/transition.rs:88-96 | the authority table applied to the identity file |
| SourceStore.Store.RecoverLineageTransition | crates/ffhn-core/src/graph/transition.rs:65-86 | lineage recovery in place, authority before the source check, manifest last |
| SourceStore.Store.ApplyBlindSourceTransition | crates/ffhn-core/src/graph/transition.rs:30-52 | the blind transition in place, reading nothing of the old store |
| SourceStore.Store.RecoverTurnEntry | crates/ffhn-core/src/graph/turn_entry.rs:40-51 | lineage first, then commits; a refusal becomes a verdict; over a recoverable store the goal is kept, and completed it is ready and shows the goal |
| SourceStore.Store.ResetSourceLineage | crates/ffhn-core/src/graph/reset.rs:52-88 | the source reset in place, its scope chosen after recovery: never refused, completed it leaves exactly the fresh source, cut one of three known states |
| SourceStore.Store.ResetMeasurementLineage | crates/ffhn-core/src/graph/reset.rs:91-125 | the measurement reset in place, refused after an unresolvable turn entry: the goal stays or becomes the reset source, spelled out, and completed it is the latter |
| SourceStore.Store.CommitDeliveryResult | crates/ffhn-core/src/graph/delivery_commit.rs:25-112 | the delivery commit in place, entries growing as documents are staged: all of the outcome or nothing |
| SourceStore.Store.DrainOutboxOnce | crates/ffhn-core/src/graph/delivery_drain.rs:44-127 | recover, inspect, attempt one due record, commit its outcome: the goal stays or becomes the outcome, unless the drain collides |
| SourceStore.Store.CommitCycle | crates/ffhn-core/src/graph/engine/commit.rs:15-80 | every document staged in order, then one manifest: all of the cycle or nothing |
| SourceStore.Store.MeasureOnce | crates/ffhn-core/src/graph/engine.rs:294-561 | the locked cycle in place: recover, inspect, initialise a new source, plan, commit; the goal stays, becomes the fresh source, or the planned result file by file, and completed it is the latter |
| Episodes.HealthEpisode.Observe | crates/ffhn-core/src/graph/health.rs:46-77 | the same reason counts on, another starts over, and the flag is set exactly when the count meets the threshold |
| Episodes.EmitterState.ApplyFailure | crates/ffhn-core/src/graph/state.rs:376-397 | a failure is taken in whole or refused with the state unchanged |
| Episodes.EmitterState.ApplyIntegrationFault | crates/ffhn-core/src/graph/state.rs:400-426 | an integration fault begins an episode exactly when none of its code is active |
| Episodes.EmitterState.ClearTransientEpisodes | crates/ffhn-core/src/graph/state.rs:429-432 | success clears both episodes and keeps the counter |
| Episodes.EpisodeNumbersIncrease | crates/ffhn-core/src/graph/state.rs:376-432 | with a fixed threshold, over any run of failures, faults and successes, escalation numbers strictly increase, and likewise fault numbers, so no key is given out twice |
| Episodes.FailureRun | crates/ffhn-core/src/graph/health.rs:46-77 | a run of failures for one reason is one episode: a new number, the run's length as count, its first instant, no fault; its last failure escalates exactly if the length is the threshold in force |
| Episodes.FaultBegins | crates/ffhn-core/src/graph/state.rs:400-426 | a fault begins an episode exactly if its emitter accepts it, it is not the active one, and a number is left; nothing else moves |
| Episodes.SuccessStartsOver | crates/ffhn-core/src/graph/state.rs:429-432 | a success ends both episodes and keeps the number; the next failure or fault begins a new episode even for the reason or fault that was active before |
| Episodes.RaisedThresholdReusesKey | crates/ffhn-core/src/graph/health.rs:64-76 | for every pair of thresholds, raising the lower to the higher mid-episode gives out the same escalation key twice |
| Episodes.KeysUniqueIffThresholdFixed | crates/ffhn-core/src/graph/measurement_state.rs:322-343 | keys are never reused if and only if the configured threshold is always the same |
| PolicyState.MeasurementPolicy.RebasePolicy | crates/ffhn-core/src/graph/measurement_state.rs:210-235 | with the validations before and after it, the rebasing loop is the specified rebase; a refusal leaves the state alone, and what it accepts is valid for the measurement |
| PolicyState.MeasurementPolicy.ApplyAcceptedObservation | crates/ffhn-core/src/graph/measurement_state.rs:239-319 | the evaluation and update loops are the specified acceptance, with what each refusal leaves behind; success clears health and fault, and the final validation never refuses |
| PolicyHistory.RebaseExact | crates/ffhn-core/src/graph/measurement_state.rs:205-235 | keys become exactly the declared conditions, unchanged definitions keep everything, the revision rises exactly when a condition changed, and rebasing again changes nothing |
| PolicyFold.RebaseRefusedIff | crates/ffhn-core/src/graph/measurement_state.rs:170-235 | a rebase is refused exactly if the state disagrees with itself or the contract, a new or changed condition cannot be seeded, or something changes at the last revision |
| PolicyFold.RebaseSpelledOut | crates/ffhn-core/src/graph/measurement_state.rs:205-235 | unchanged definitions keep every fact, others are judged on the latest observation in a context of nothing but itself, removed ones go, and the revision counts changes |
| PolicyFold.AcceptanceSucceedsIff | crates/ffhn-core/src/graph/measurement_state.rs:239-319 | an acceptance over a rebased state succeeds exactly if the observation is of the contract, every condition can be evaluated, and the sequence number has a successor |
| PolicyFold.AcceptanceSpelledOut | crates/ffhn-core/src/graph/measurement_state.rs:265-316 | each condition is judged once, in order, against the previous observation and its own baseline, last transition and flag, and takes the decision, its first observation and its last change |
| PolicyHistory.IncrementalIsRecomputed | crates/ffhn-core/src/graph/measurement_state.rs:210-319 | after any run of rebases and observations each condition's state equals a fold over the observations accepted since its definition was installed |
| PolicyFold.RunsAreExplained | crates/ffhn-core/src/graph/measurement_state.rs:210-319 | after any run each condition stands where its history leads: every decision was taken against the observation before it, the first one, the one at which the outcome last changed and the previous decision's flag, and its state is the last decision with these |
| PolicyFold.ExplainedIsRecomputed | crates/ffhn-core/src/graph/measurement_state.rs:265-308 | the fold is the only such explanation: whatever explains a history explains the recomputed state |
| PolicyHistory.RunsKeepAgreement | crates/ffhn-core/src/graph/measurement_state.rs:138-153 | after any run of rebases and observations from a fresh state, the observation, its digest and a positive sequence number are there together or not at all |
| PolicyHistory.BaselineIsFirst | crates/ffhn-core/src/graph/measurement_state.rs:305-307 | under one definition the baseline is the seed, or else the first observation, whatever follows |
| PolicyHistory.TransitionIsLastChange | crates/ffhn-core/src/graph/measurement_state.rs:300-304 | the recorded transition is the observation at which the result last changed |
| PolicyHistory.RefusedAcceptanceIsCleanIff | crates/ffhn-core/src/graph/measurement_state.rs:239-319 | exactly when an acceptance is refused, and exactly when a refused one leaves the rebased state: not at the last sequence number unless an earlier check refused or no condition would move |
| PolicyHistory.ExhaustedSequenceTears | crates/ffhn-core/src/graph/measurement_state.rs:297-312 | after 2^64 - 1 equal observations from a fresh state, a valid run, another observation is refused and its condition has taken it in |
| EventMaterialize.MaterializeConditionEvents | crates/ffhn-core/src/graph/event_materialize.rs:17-104 | success exactly when evaluated ids equal declared ids, and then the issues followed by the satisfactions |
| EventMaterialize.EventsSpelledOut | crates/ffhn-core/src/graph/event_materialize.rs:45-103 | a satisfaction for exactly the satisfied and triggered conditions, an issue for exactly the unavailable, overflowing and zero-reference ones, each with its condition's id and definition, and nothing else |
| EventMaterialize.StagedIsLast | crates/ffhn-core/src/graph/event_materialize.rs:35-38 | the decision that counts for a condition is the last one evaluated for it |
| EventMaterialize.StagedKeys | crates/ffhn-core/src/graph/event_materialize.rs:35-38 | the collected results hold exactly the evaluated ids, a later evaluation replacing an earlier one |
| EventMaterialize.SelectedExactly | crates/ffhn-core/src/graph/event_materialize.rs:45-97 | each half lists exactly its positions, in declaration order |
| EventMaterialize.MaterializedIsStablePartition | crates/ffhn-core/src/graph/event_materialize.rs:90-103 | issues precede satisfactions, both keep declaration order, and exactly the conditions with an event appear |
| EventMaterialize.EventsDistinct | crates/ffhn-core/src/graph/event_materialize.rs:45-103 | at most one event per declared condition, so no two events share a key |
| Redirects.AcquireHttp | crates/ffhn-core/src/graph/acquire.rs:215-309 | the loop is the specified acquisition: its result and every request it sends |
| Redirects.AcquisitionIsContained | crates/ffhn-core/src/graph/acquire.rs:459-497 | against any server: at most max_redirects + 1 requests, no URL twice, never from https to http, extensible headers exactly while no hop left the source's scheme, host and port, the default port written or not |
| Redirects.AcquisitionSpelledOut | crates/ffhn-core/src/graph/acquire.rs:215-309 | against any server: the first request goes to the source, each later one where the answer before it redirects, resolved against the URL that was asked; stored validators go out whole and once; and the last answer decides the result, each failure kind included |
| Redirects.DocumentsAreBounded | crates/ffhn-core/src/graph/acquire.rs:262-305 | a document comes only from status 200 or 203 with a whole body within the byte bound, decoded, under the last URL asked |
| Redirects.ValidatorsAreDirect | crates/ffhn-core/src/graph/acquire.rs:327-364 | validators go out only with the first request, a 304 counts exactly as its answer while validators are held, and validators come back only from a direct document |
| Redirects.NotModifiedIsConditionalIff | crates/ffhn-core/src/graph/acquire.rs:234-252 | the one request that a 304 answers was conditional if and only if the validators were issued for the source's URL; unconditional and yet not modified is exactly a 304 under validators of another URL |
| Redirects.ForeignValidatorsAccepted | crates/ffhn-core/src/graph/acquire.rs:234-252 | an input: validators of the old URL, one unconditional request of the new one, not modified |
| StorePaths.PathRoundTrip | crates/ffhn-core/src/graph/delivery_commit.rs:133-154 | every destination's text parses back to that destination |
| StorePaths.PathTextSpelledOut | crates/ffhn-core/src/graph/delivery_commit.rs:133-154 | the text of every destination |
| StorePaths.GrammarIsClosed | crates/ffhn-core/src/graph/manifest/path_validation.rs:8-46 | the destination validator accepts exactly the texts of state documents, pending records and dead letters |
| StorePaths.PathsAreInjective | crates/ffhn-core/src/graph/outbox.rs:238-240 | distinct destinations never share a file |
| StorePaths.DestinationsAreManifestPaths | crates/ffhn-core/src/graph/manifest.rs:28-51 | every destination is a valid manifest path outside the reserved staging directory |
| StableJson.WriteStableJson | crates/ffhn-core/src/stable_json.rs:47-80 | the recursive writer appends exactly the specified rendering |
| JsonCanonical.SameRendersAlike | crates/ffhn-core/src/stable_json.rs:65-76 | entry order does not show, at any depth |
| JsonCanonical.TextsUnique | crates/ffhn-core/src/stable_json.rs:47-80 | two texts that agree up to a delimiter come from the same value, and what follows agrees too |
| JsonCanonical.CanonicalJsonIsExact | crates/ffhn-core/src/stable_json.rs:8-13 | two values render alike if and only if they are the same up to entry order |
| JsonText.SortedInKeyOrder | crates/ffhn-core/src/stable_json.rs:65-67 | the entries are written in ascending key order: of two keys the earlier ends first or has the smaller scalar at their first difference |
| Utf8Order.KeyOrderIsByteOrder | crates/ffhn-core/src/stable_json.rs:65-67 | that order, scalar by scalar, is the order of the keys' UTF-8 bytes |
| JsonText.ObjectText | crates/ffhn-core/src/stable_json.rs:63-76 | an object's text member by member: quoted key, colon, value, one comma between two, braces around |
| JsonText.ArrayText | crates/ffhn-core/src/stable_json.rs:53-62 | an array's text item by item: one comma between two, brackets around |
| JsonText.LeafTexts | crates/ffhn-core/src/stable_json.rs:49-52 | the texts of the leaves; what stands between a string's quotes reads back as the string under section 7 of RFC 8259 |
| JsonText.EscapeForm | crates/ffhn-core/src/stable_json.rs:52 | which scalars are written as themselves, by a two-character escape, or by four lower-case hexadecimal digits |

## Left out

- The filesystem itself: capability handles, symlink checks, fsync, lock files, temporary files of atomic
  writes, and empty directories. Identity, manifests and state documents are taken to be regular files.
- Which hold or refusal a mismatched delivery record yields: the gate's three reasons are one
  (`RecordMismatch`), because the listing order decides between them. Whether it is accepted is exact.
- Schema names and versions, TOML and JSON decoding, reports, the command line, exit codes, and the agent's
  scheduling of sources.
- HTTP transport, TLS, process and webhook adapters: each attempt or request is an arbitrary result. The
  reason text of a failed transport is one code, and decoding bytes as UTF-8 an arbitrary function.
- A cycle over a store in which some measurement is held: what it plans is modelled (`CycleResults.HeldIsPassedOver`),
  its commit is proved atomic over stores without damage only.
- Projection and the exact typed-value predicates: one arbitrary evaluation function stands for them.
- A cycle in which no measurement is eligible: it ends after its turn entry, and its initialisation if one
  was due, which a cut acquisition covers.
- The dry-run path, disabled and quarantined measurements, scheduling timestamps and overflow facts inside
  state documents: a cycle's plan carries them as opaque facts.
- Decimal rounding of the jitter ratio: the window is the floor of an exact product.
- `last_failure` details of source health, which repeat the failure kind.
- UUID and hash internals.
- Ledger.RecordConservation: speaks of one lineage, so of runs without a source reset, which closes the book;
  a measurement reset drops that measurement's keys from it. "Exactly one place" is for keys that were never
  readmitted over their dead letter; `Ledger.ReadmissionDoubles` shows why.
- Ledger.UnacknowledgedNeverLost: likewise of one lineage.
- QueueCaps.PendingNeverExceedsCap: likewise of one lineage, and of what the source stands for; a replay cut
  halfway may still hold a record that its commit removes.
- EngineRuns.EngineRunsAlwaysReady: what happened to each emitter in a cycle (which failure, which conditions) is
  arbitrary; that fetch and projection report it is not modelled. Emitter counters are read from a state
  document's opaque facts by an arbitrary decoder.
- SourceStore.Store.MeasureOnce: fetch, projection and policy evaluation are the given plan; `EngineRuns` says
  when a plan is what the emitters' counters give out.
- DeliveryConfig.ValidateDelivery: does not validate each route's adapter, which is an opaque value.
- Outbox.ValidateCommon: leaves out the adapter's own validation and the parsing of timestamps; instants are
  integers.
- Episodes.HealthEpisode.Observe: leaves out the `last_failure` evidence, which no counter or key depends on.
- PolicyState.MeasurementPolicy.RebasePolicy: its validations leave out the document's schema, lineage stamps and
  overflow facts, and the format of digests, condition ids, timestamps and observations, all opaque here.
- PolicyState.MeasurementPolicy.ApplyAcceptedObservation: likewise, and the format of the given digest.
- EventMaterialize.MaterializeConditionEvents: leaves out the validation of the state it reads and the failures
  of envelope construction, which depend on fields outside the model.
- PolicyHistory.IncrementalIsRecomputed: covers runs of at most 2^64 - 1 events, so that no sequence number
  is exhausted; what happens at the last one is `PolicyHistory.RefusedAcceptanceIsCleanIff`.
- Delivery.DueAttemptAccepted: needs the longest possible retry to fall before the end of year 9999, which
  is also when the code refuses it.
