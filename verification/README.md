# Verified model of the Memory kernel's protocols

The kernel keeps its Memory records in *bodies*: an immutable indexed Store under a live
overlay of cached, new, dirty and deleted records with tag deltas. This project models that
overlay once, as a value (`Bodies.Body`) and as the object the kernel updates in place
(`Engines.Engine`), and builds on it the protocols that the rest of the kernel relies on:

| part | files |
|---|---|
| the overlay, its mutations and speculative plans | `Body.dfy`, `Plans.dfy`, `Engine.dfy`, `History.dfy` |
| saving a body while it changes | `Persistence.dfy` |
| the mutation journal, its two slots as bytes, and the two together | `MutationJournal.dfy`, `JournalSlots.dfy`, `JournalBytes.dfy`, `Bytes.dfy` |
| durable copy and move between bodies | `Transfer.dfy` |
| Mesh proposals: Sovereign ledger, node spools, both together | `ProposalReplay.dfy`, `ProposalExecution.dfy`, `Spool.dfy`, `Mesh.dfy`, `MeshProgress.dfy`, `JsonNumbers.dfy` |
| optimistic transactions | `LazySnapshot.dfy`, `Serializability.dfy`, `TransactionDiff.dfy`, `Commit.dfy`, `CommitLocking.dfy`, `CommitOwners.dfy` |
| the persisted indexes as bytes, and listing a body from them | `IndexTable.dfy`, `StoreIndex.dfy`, `Listing.dfy` |
| Fabric-wide activation against a full scan | `Features.dfy`, `Activation.dfy` |
| grants, external I/O, body locks, shard placement | `Grants.dfy`, `ExternalIo.dfy`, `BodyLocks.dfy`, `ShardPlacement.dfy` |

`dafny verify dfyconfig.toml` checks everything.

## How it is modelled

- A digest is represented by what it digests. `hash64` is an arbitrary function, SHA-256 in
  the journal slot and in the indexes is an arbitrary function to 32 bytes, and JSON is a pair
  of inverse functions, except where a number passes through a JSON double: there
  `JsonNumbers.JsonRevision` is the exact round-to-nearest-even.
- Memory equality is equality without the execution counter and the capability signature
  (`Structural`), or without the counter only (`NoExec`), as in the two digests of the source.
- A protocol is a state machine whose steps are the points between which a crash, a failed
  persist, a lost or repeated message or another thread may fall. Theorems quantify over every
  run. The calls that change state one after the other are classes whose methods are shown to
  be runs of those steps.
- What I/O does (a write that lands and is reported as failed included) is a parameter.

## What turned out not to hold

Each of these is a lemma with a family of inputs, next to the theorem with the condition that
rules the family out.

- A spooled ACK may name a receipt that is durably only *executing*: a decision that needs no
  write of its own (denied or pending) can be replayed from a result whose own write failed
  (`Mesh.EarlyAckIsStranded`). After a restart that ACK is refused for ever
  (`Mesh.AbandonedForEver`). Over every history, each reply names a receipt that is durably
  done or collected if and only if no reply names one whose result is unsaved, and then every
  spooled ACK is settled (`Mesh.RepliesRecordedIff`); reply by reply, a spooled ACK is settled
  if and only if the result was saved when the reply was given or its slot was durably
  acknowledged past it (`Mesh.SwappedAckSettledIff`). A sufficient discipline is that after a
  failed finalization a barrier succeeds or the Sovereign restarts before the next such reply
  (`Mesh.CoveredAcksSettle`).
- Repeating an ACK succeeds exactly for revisions that a JSON number does not round down
  (`ProposalReplay.RepeatedAckIff`). The revisions of the counterexample stay below 2^64 for
  every revision below 2^63.
- Commits are not serializable in general; they are if what the commit does not compare still
  holds (`Serializability.WriteSkew`), and each part of that condition is needed
  (`Serializability.StaleObservationDiverges`, `Serializability.ObservationsDiffer`).
- A grant can be accepted twice if a call looks for its receipt after the grant has expired
  (`Grants.PausedCallIsAcceptedTwice`).
- A speculative discard of a record that was copied but never stored brings it back when the
  save ends (`Persistence.UntombstonedDiscardResurrects`), a discard of a stored record that a
  failed move marked new shows the stored version again (`Plans.DiscardAbsentIff`), listed
  under none of the tags it shares with the discarded one (`Engines.DiscardUnlists`), and with
  nothing pending a persist writes nothing, so the file serves the live view exactly if every
  journaled id shows what the base shows (`MutationJournal.NothingPendingDurableIff`,
  `MutationJournal.NothingPendingNothingWritten`).
- An insert over a tombstone is invisible, and lost after the next rewrite
  (`Bodies.InsertVisibleIff`, `Persistence.ShadowedInsertIsLost`); two of them leave tags behind
  under which a later version is listed without carrying them (`Engines.ShadowedInsertsMislist`).
- A slot write is crash-atomic exactly if its bytes cannot complete an earlier attempt at the
  same number that left its header behind (`JournalSlots.AtomicIff`); two interrupted writes
  can bring such an attempt back (`JournalSlots.TwiceTornRevives`).
- The index of a current body lists its records under reserved feature keys beside their tags,
  and tag listing filters nothing, although the source calls these keys invisible to Memory
  semantics: listing such a key returns records that do not carry it (`Engines.FeatureIsListed`).
  A listing never misses a record; it is exact if and only if no record is listed for a feature
  alone (`Engines.ListedExactIff`), so for every tag outside the reserved prefix.
- A body answers a feature as a scan of its records if and only if the probe rejected its index,
  or the index lists features and no unshadowed record without this one carries its key as an
  authored tag, or the index lists tags only and exactly the records with the feature carry the
  key (`StoreIndex.FeatureAnswerExactIff`). An older body whose first record carries the reserved
  key of its own id is taken for a current one and misses records
  (`StoreIndex.OlderAcceptedMisses`).
- A bare query trims the space before a tag and the index does not: a tag that starts with space
  is found only when it is asked for as a tag (`Features.TagFoundIff`, `Features.ExplicitTagFinds`).

## Model

| member | source | states |
|---|---|---|
| `Bodies.MutateSound` | Kernel/src/kernel.go:540-569 | every overlay mutation (page-in, upsert, insert, delete, edits of state and tags, execution counting, cache drop) keeps the invariant that ties cache, flags, tombstones and tag deltas to the Store |
| `Bodies.UpsertSound` | Kernel/src/fabric_write_runtime.go:122-154 | an explicit upsert makes exactly this record live under its id, over a tombstone too, and changes no other id |
| `Bodies.DeleteSound` | Kernel/src/kernel.go:2283-2309 | a delete makes exactly this id absent |
| `Bodies.AddRuntimeSound` | Kernel/src/kernel.go:4036-4055 | an insert after a miss keeps the invariant and every other id |
| `Bodies.InsertVisibleIff` | Kernel/src/kernel.go:4036-4055 | an inserted record can be read back exactly if the body holds no tombstone for its id |
| `Bodies.TagAddSound` | Kernel/src/kernel.go:2221-2254 | adding a tag to a resolved record keeps tag deltas and records in agreement and adds exactly it, unless it is empty, behind the tags the record had; signature, revision and pending mark change exactly if the tags do, and nothing else of the body does |
| `Bodies.TagRemoveSound` | Kernel/src/kernel.go:2255-2282 | removing a tag keeps tag deltas and records in agreement and removes exactly it, every time the record has it, with the same effect on signature, revision and pending mark |
| `Bodies.CountExecSound` | Kernel/src/kernel.go:1018-1022 | an execution counts one, modulo 2^64, on its record and changes no structural view and nothing that is pending |
| `Bodies.CacheDropSound` | Kernel/src/kernel.go:1395-1401 | dropping a cached record keeps the structural view of every id, and does nothing to a pending one |
| `Bodies.MutateShows` | Kernel/src/kernel.go:2221-2309 | each overlay mutation shows under the id it names what it is for, and nothing new under any other id |
| `Engines.TagEditsAreListed` | Kernel/src/kernel.go:855-896 | after a tag was added its record is live and listed under it; after removing one it carried it is neither, whatever the index of the Store still lists |
| `Plans.ApplyPlanSound` | Kernel/src/speculative_fabric_commit.go:86-141 | an applied plan changes one id only, to the planned record with the locked counter plus the run's delta, and keeps the invariant |
| `Plans.ValidatedPlanSoundIff` | Kernel/src/speculative_fabric_commit.go:86-141 | any validated plan changes one id only, to the planned record or to a stored version that shows again; the invariant is kept exactly if it is not the latter, or that version carries no tag |
| `Plans.DiscardAbsentIff` | Kernel/src/speculative_fabric_commit.go:94-109 | a speculative delete leaves the id absent exactly if the body does not mark a stored record as new |
| `Engines.DiscardUnlists` | Kernel/src/speculative_fabric_commit.go:94-109 | a stored version that shows again after a discard is listed under none of the tags it shares with the discarded one |
| `Persistence.SaveIsInvisible` | Kernel/src/persistence_runtime.go:35-252 | for every interleaving of copies, mutations and speculative applies between the id page and finalization, finalization changes no id's structural live view, and every id that differs from the new Store stays pending |
| `Persistence.SaveRunInv` | Kernel/src/persistence_runtime.go:35-68 | at every point of a save, a record that is not pending equals its copy, or is still to be copied |
| `Persistence.FinalizeKeepsView` | Kernel/src/persistence_runtime.go:138-252 | finalization keeps the invariant and the live view, and unmarks only ids whose live record equals the new Store |
| `Persistence.UntombstonedDiscardResurrects` | Kernel/src/speculative_fabric_commit.go:96-109 | a copied, never stored record that is discarded without a tombstone is live again after finalization |
| `Persistence.ShadowedInsertIsLost` | Kernel/src/kernel.go:4043-4051 | an insert over a tombstone becomes visible at finalization without being pending or stored |
| `MutationJournal.JournalIsDurable` | Kernel/src/mutation_journal_runtime.go:212-247 | the journal record of the pending ids over a matching base reloads to the whole structural live view |
| `MutationJournal.RewriteIsDurable` | Kernel/src/mutation_journal_runtime.go:338-381 | the rewritten base under an empty journal reloads to the live view of every id that is no longer pending |
| `MutationJournal.RestoreSound` | Kernel/src/mutation_journal_runtime.go:277-324 | restoring any journal over any base gives a sound overlay |
| `MutationJournal.RestoreAllAt` | Kernel/src/mutation_journal_runtime.go:277-324 | after restoring, each id shows its newest entry, and the base where it has none |
| `MutationJournal.PhysicalAgreesWithReload` | Kernel/src/remote_durability_runtime.go:75-129 | reading a record from base plus journal agrees id by id with the reloaded body, and is undecided exactly on a journal of another base |
| `MutationJournal.NothingPendingDurableIff` | Kernel/src/mutation_journal_runtime.go:353-356 | with nothing pending the file serves the live view exactly if every journaled id shows what the base shows |
| `MutationJournal.NothingPendingNothingWritten` | Kernel/src/mutation_journal_runtime.go:353-356 | a family of dirty bodies with nothing pending that differ from what a reload serves |
| `MutationJournal.ForeignDroppedIff` | Kernel/src/mutation_journal_runtime.go:249-324 | a journal record of another base is dropped on load exactly if replaying it would show nothing that the base does not show; otherwise the load is refused |
| `JournalSlots.DecodeEncodedSlot` | Kernel/src/mutation_journal_runtime.go:106-126 | decoding inverts encoding for every payload of 1 to 32696 bytes |
| `JournalSlots.TornSlotDecodes` | Kernel/src/mutation_journal_runtime.go:106-126 | over any slot, an interrupted write decodes to the new record, to nothing, or to a record of the old header that the new bytes complete |
| `JournalSlots.TornWriteIsAtomic` | Kernel/src/mutation_journal_runtime.go:139-190 | after any torn write that does not split the header, over a slot in any state that it cannot revive, a reader finds exactly the previous or the new record |
| `JournalSlots.AtomicIff` | Kernel/src/mutation_journal_runtime.go:139-190 | every tear of a write leaves the previous or the new record if and only if the write cannot complete a newer-numbered earlier attempt whose header it finds |
| `JournalSlots.Revived` | Kernel/src/mutation_journal_runtime.go:139-190 | otherwise some tear makes the reader find that earlier attempt |
| `JournalSlots.WrittenStamped` | Kernel/src/mutation_journal_runtime.go:164-190 | whatever arrives of a write, every header, and so every record, sits in slot (s-1) mod 2 |
| `JournalSlots.RunIsAtomic` | Kernel/src/mutation_journal_runtime.go:139-190 | over every sequence of complete and torn writes the reader's number never goes back, and if no write can complete an earlier attempt each write is atomic |
| `JournalSlots.OneCrashIsAtomic` | Kernel/src/mutation_journal_runtime.go:139-190 | any number of writes that landed followed by one torn write are atomic, whatever the payloads |
| `JournalSlots.CompleteWriteIsRead` | Kernel/src/mutation_journal_runtime.go:164-190 | a complete write is what the next reader finds |
| `JournalSlots.TwiceTornRevives` | Kernel/src/mutation_journal_runtime.go:139-190 | a family of two interrupted writes after which the reader finds a record that is neither the previous nor the new one |
| `JournalSlots.WriteMutationJournal` | Kernel/src/mutation_journal_runtime.go:164-190 | writes the encoded slot, numbered modulo 2^64, over the slot the previous number does not occupy and touches nothing else; refuses empty and oversized payloads |
| `JournalSlots.WrappedIsUnreadable` | Kernel/src/mutation_journal_runtime.go:110-114 | the number after the last one is zero, which no reader accepts |
| `JournalBytes.CompleteWriteRefines` | Kernel/src/mutation_journal_runtime.go:357-381 | a slot write that arrived whole is the engine's journal write |
| `JournalBytes.TornWriteRefines` | Kernel/src/mutation_journal_runtime.go:357-381 | an interrupted slot write that cannot complete an earlier attempt leaves the engine's disk as before or with the new record |
| `JournalBytes.RevivedDisk` | Kernel/src/mutation_journal_runtime.go:357-381 | otherwise some interruption leaves the engine a record of an earlier attempt |
| `JournalBytes.RewriteRefines` | Kernel/src/mutation_journal_runtime.go:383-395 | a rewritten file has a blank region, no record and nothing to revive |
| `JournalSlots.BuildSlot` | Kernel/src/mutation_journal_runtime.go:164-190 | the buffer filled field by field is the encoded slot |
| `JournalSlots.ReadMutationJournal` | Kernel/src/mutation_journal_runtime.go:139-162 | returns the valid record with the highest sequence, from the slot its number belongs to |
| `Bytes.LittleEndianRoundTrip` | Kernel/src/mutation_journal_runtime.go:106-126 | a number that fits its field is read back |
| `Engines.Engine.ResolveIdLocal` | Kernel/src/kernel.go:540-569 | returns the live record and pages it in |
| `Engines.Engine.ListTagLocal` | Kernel/src/kernel.go:855-896 | for a non-empty tag and whatever the Store's index lists under it: sorted, every live record that carries the tag, and only those exactly if no record is listed for a feature alone |
| `Engines.ListedExactIff` | Kernel/src/kernel.go:855-896 | stored postings of either kind of image, additions and cached records minus removals hold every live record with the tag, and nothing else exactly if no record is listed for a feature alone; always so for images without features and tags outside the reserved prefix |
| `Engines.FeatureIsListed` | Kernel/src/store.go:387-396 | for every record and every feature of it that is not also a tag, a body opened from its current image lists it under the reserved key though no live record carries it |
| `Engines.ShadowedInsertsMislist` | Kernel/src/kernel.go:4036-4055 | after two inserts over one tombstone and an upsert the record is listed under a tag of the first insert that it does not carry |
| `Engines.Engine.LocalIDs` | Kernel/src/kernel.go:3967-3996 | exactly the sorted live ids |
| `Engines.Engine.UpsertOnOwner` | Kernel/src/fabric_write_runtime.go:122-154 | the in-place upsert is the modelled one |
| `Engines.Engine.DeleteExplicit` | Kernel/src/fabric_write_runtime.go:193-213 | deletes a live record and leaves a tombstone; reports a missing one |
| `Engines.Engine.TagDeltaAdd` | Kernel/src/kernel.go:831-841 | the loop over a record's tags adds exactly its pairs |
| `Engines.Engine.TagDeltaRemove` | Kernel/src/kernel.go:843-853 | the loop over a record's tags removes exactly its pairs |
| `Engines.Engine.ApplySpeculative` | Kernel/src/speculative_fabric_commit.go:86-141 | the in-place apply is the modelled one |
| `Engines.Engine.PhysicalOwnerMemory` | Kernel/src/speculative_fabric_commit.go:29-48 | the live record, without paging in |
| `Engines.Engine.RebuildPendingTagDeltas` | Kernel/src/persistence_runtime.go:83-128 | the loops compute the tag deltas of the pending ids against the Store |
| `Engines.Engine.CopyForPersistence` | Kernel/src/persistence_runtime.go:35-68 | copies every live record and leaves the live view alone |
| `Engines.Engine.FinalizePersisted` | Kernel/src/persistence_runtime.go:138-252 | the in-place finalization is the modelled one |
| `Engines.Engine.SnapshotMutationJournal` | Kernel/src/mutation_journal_runtime.go:212-247 | one entry per pending id, in id order |
| `Engines.Engine.Load` | Kernel/src/mutation_journal_runtime.go:277-336 | loading gives the reloaded overlay, and clears a journal its base already holds |
| `Engines.Engine.PersistIncremental` | Kernel/src/mutation_journal_runtime.go:338-381 | succeeds exactly if the body is not dirty, or the file can be read and nothing is pending, or what is pending is in the journal already, or the write ends well; whatever lands is durable on both branches, also if its write is reported as failed (which `JournalBytes.TornWriteRefines` shows of slot writes that cannot complete an earlier attempt); with nothing pending nothing changes |
| `Engines.Engine.RewriteBody` | Kernel/src/kernel.go:4282-4330 | a rewrite succeeds exactly if its write does, leaves the live view alone, makes it durable if anything landed, and on success leaves nothing pending |
| `BodyHistory.ListingIsExact` | Kernel/src/kernel.go:855-896 | after any sequence of mutations, speculative applies and discards, saves that end or fail, and restarts from images of either kind, tag listing finds every live record with the tag and is exact exactly if none is listed for a feature alone; id paging is exact |
| `BodyHistory.FailedSaveRepeats` | Kernel/src/persistence_runtime.go:138-252 | after a failed save the body is as it was and can be saved again |
| `BodyHistory.NextHealthy` | Kernel/src/persistence_runtime.go:138-252 | every such event, a discard of a record that the running save already copied included, keeps the overlay invariant |
| `Transfer.TransferMemory` | Kernel/src/remote_durability_runtime.go:352-425 | from a durable source, at every crash point and on every return the moved version is durable in source or destination; a successful move leaves it in the destination only; a source edited after the copy is kept; and a transfer to another body that holds nothing under the id succeeds if no step on the way fails and the source is not edited |
| `Transfer.DurableDeleteSource` | Kernel/src/remote_durability_runtime.go:203-231 | succeeds exactly if the source still equals the copy, its tombstone persists and the file can be read back, and then the record is gone from the file; a source that differs from the copy is untouched; after a failure it is live as before, except when the persist already rebound the body |
| `Transfer.MarkSourceDeletedIfUnchanged` | Kernel/src/remote_durability_runtime.go:148-180 | tombstones the source exactly if it still equals the copy |
| `Transfer.RestoreSource` | Kernel/src/remote_durability_runtime.go:182-201 | brings the record back after a failed deletion |
| `Transfer.RollbackCandidate` | Kernel/src/remote_durability_runtime.go:297-350 | forgets exactly an unpersisted candidate that is still as it was added, and nothing else |
| `Transfer.PrepareTarget` | Kernel/src/remote_durability_runtime.go:280-295 | a conflict exactly with a different live record, a full target exactly without one and without room, an undurable target exactly if the persist fails, and done exactly if the destination file can then be read and holds the copied version |
| `Transfer.DurableTargetMatches` | Kernel/src/remote_durability_runtime.go:131-146 | accepts exactly a readable destination file that holds the intended version |
| `JsonNumbers.JsonMonotone` | Kernel/src/kernel.go:4023-4028 | a JSON round trip keeps the order of integers |
| `JsonNumbers.JsonIdempotent` | Kernel/src/kernel.go:4023-4028 | a number read back once is read back unchanged |
| `JsonNumbers.Nearest` | Kernel/src/kernel.go:4023-4028 | no double is nearer to an integer than the one read back, and of two equally near ones it is the one with the even significand |
| `JsonNumbers.ExactBelow` | Kernel/src/mesh_proposal_replay_runtime.go:385-389 | integers up to 2^53 survive a JSON round trip |
| `JsonNumbers.RoundsDown` | Kernel/src/mesh_proposal_replay_runtime.go:385-389 | 2^53 + 1 does not |
| `ProposalReplay.AtMostOnce` | Kernel/src/mesh_proposal_replay_runtime.go:502-631 | in every reachable state no request was dispatched twice, and a dispatched one is refused from then on, whether its receipt is there or collected |
| `ProposalReplay.DispatchedIsHeld` | Kernel/src/mesh_proposal_replay_runtime.go:549-560 | a started or dispatched request has a durable receipt or a durable fence, through every crash |
| `ProposalReplay.DoneWasDispatched` | Kernel/src/mesh_proposal_replay_runtime.go:576-604 | a done receipt was dispatched |
| `ProposalReplay.OneExecutionPerSlot` | Kernel/src/mesh_proposal_replay_runtime.go:525-559 | at most one proposal of a slot executes in a process |
| `ProposalReplay.FencesNeverGoBack` | Kernel/src/mesh_proposal_replay_runtime.go:237-273 | over every run the durable slot revision and acked-through never decrease, and the live ones only by a restart, to no less than the disk |
| `ProposalReplay.ExecutingIsNeverCollected` | Kernel/src/mesh_proposal_replay_runtime.go:294-350 | no step removes an executing receipt from disk, and only a restart can drop one that was never dispatched |
| `ProposalReplay.GoneIsAcknowledged` | Kernel/src/mesh_proposal_replay_runtime.go:324-333 | a dispatched request whose receipt is gone is durably acknowledged through its revision |
| `ProposalReplay.RepeatedAckIff` | Kernel/src/mesh_proposal_replay_runtime.go:324-333 | repeating the ACK of a collected receipt succeeds in every reachable state exactly if JSON does not round the revision down |
| `ProposalReplay.RoundedAckIsStranded` | Kernel/src/mesh_proposal_replay_runtime.go:237-273 | for every revision that JSON rounds down, a run ends with its receipt collected and its ACK refused |
| `ProposalReplay.StepInv` | Kernel/src/mesh_proposal_replay_runtime.go:397-436 | every step of prepare, dispatch, finalize, ACK, background save and crash keeps the ledger invariant |
| `ProposalExecution.Sovereign.Prepare` | Kernel/src/mesh_proposal_replay_runtime.go:502-561 | starts a proposal exactly if its id has no receipt, its slot is idle, its revision is above the fence of the slot if there is one, the ledger has room, both records fit and the barrier succeeds; each refusal has its exact condition and, unless a write failed, changes nothing |
| `ProposalExecution.Sovereign.Finalize` | Kernel/src/mesh_proposal_replay_runtime.go:576-604 | reports success exactly when the done receipt is durable |
| `ProposalExecution.Sovereign.ExecuteOnce` | Kernel/src/mesh_proposal_replay_runtime.go:606-631 | dispatches exactly a proposal that meets those conditions and whose request id the Frame took, which was never dispatched before; the result is recorded exactly if its write and barrier succeed |
| `ProposalExecution.Sovereign.Restart` | Kernel/src/mesh_proposal_replay_runtime.go:52-66 | a new process finds the durable ledger and no executing slot, and forgets no dispatch |
| `ProposalExecution.Sovereign.Ack` | Kernel/src/mesh_proposal_replay_runtime.go:294-350 | succeeds exactly for an already acknowledged receipt, changing nothing, or for an accepted one whose fence and deletion became durable; a success means a durable fence; refusals by missing slot, revision, receipt or identity have their conditions |
| `ProposalExecution.Sovereign.Collect` | Kernel/src/mesh_proposal_replay_runtime.go:237-292 | fence first, deletion second, each behind its own barrier with one retry |
| `Spools.DeferredKeeps` | Kernel/src/mesh_journal_runtime.go:267-299 | deferring holds the request, keeps one proposal per Memory and drops only an equal request, a proposal for the same Memory or an ACK for the same receipt, whose place it takes; without one it is appended |
| `Spools.ReplacedKeeps` | Kernel/src/mesh_journal_runtime.go:354-387 | swapping a proposal for its ACK keeps every other entry and removes the proposal |
| `Spools.RemovedKeeps` | Kernel/src/mesh_journal_runtime.go:319-352 | removing an entry keeps every other entry |
| `Spools.Spool.Persist` | Kernel/src/mesh_journal_runtime.go:230-265 | the spool in memory follows the record only after the barrier, within the entry limit |
| `Spools.Spool.Defer` | Kernel/src/mesh_journal_runtime.go:267-299 | success means the request is durable; the loop replaces the entry with its logical key or appends |
| `Spools.Spool.ReplaceExact` | Kernel/src/mesh_journal_runtime.go:354-387 | succeeds exactly if the source is spooled and the write succeeds; the ACK is then durable in its place |
| `Spools.Spool.RemoveExact` | Kernel/src/mesh_journal_runtime.go:319-352 | removes the exact entry durably, or fails exactly if the write does; a missing one is no error |
| `Spools.Spool.FlushAll` | Kernel/src/mesh_journal_runtime.go:413-451 | whatever the replies and writes do, every proposal is still spooled, or its ACK is, or its ACK was answered; within the limit the entries left are exactly what each reply leaves, up to the first failing write, and all later ones; if everything is answered and every write succeeds the spool is empty |
| `Mesh.SentWasDurable` | Kernel/src/mesh_journal_runtime.go:478-505 | nothing is transmitted before it was durable in a spool, and everything dispatched came from such a proposal, at most once |
| `Mesh.SpoolsHoldOneProposal` | Kernel/src/mesh_journal_runtime.go:267-311 | no copy of any spool ever holds two proposals for one Memory |
| `Mesh.SpooledAckIsBacked` | Kernel/src/mesh_journal_runtime.go:389-404 | every spooled ACK names, with its own slot and revision, a receipt the Sovereign holds durably or has durably fenced, and one durably done or fenced unless a reply named it between the write of its result and the next write to disk |
| `Mesh.RemovedAckIsFenced` | Kernel/src/mesh_journal_runtime.go:406-411 | an ACK leaves a spool only when the Sovereign durably refuses its proposal |
| `Mesh.UnsavedIff` | Kernel/src/mesh_authority_runtime.go:209-240 | the results that the events call unsaved are those done in memory and not on disk; a reply names an unsettled receipt exactly if it is unsaved and its slot was not acknowledged past it |
| `Mesh.RepliesRecordedIff` | Kernel/src/mesh_authority_runtime.go:209-240 | for every history, each reply names a receipt that is durably done or collected if and only if no reply names one whose result is unsaved; then every spooled ACK is durably done or fenced |
| `Mesh.SwappedAckSettledIff` | Kernel/src/mesh_journal_runtime.go:389-404 | a reply turned into a spooled ACK is settled exactly if the result was saved when the reply was given, or the slot was durably acknowledged past it |
| `Mesh.CoveredAcksSettle` | Kernel/src/mesh_authority_runtime.go:209-240 | a history in which each failed finalization is followed by a barrier or a restart before the next direct reply names recorded receipts only, and every spooled ACK is settled |
| `Mesh.NoFailureIsCovered` | Kernel/src/mesh_proposal_replay_runtime.go:598-603 | a history without failed finalizations is such a history |
| `Mesh.EarlyAckIsStranded` | Kernel/src/mesh_authority_runtime.go:236-240 | for every proposal a history leads to its ACK in a durable spool while the restarted Sovereign finds the receipt executing |
| `Mesh.AbandonedForEver` | Kernel/src/mesh_proposal_replay_runtime.go:337-339 | nothing finishes, collects or repeats such a request, so its ACK is refused in every continuation |
| `Mesh.FullFlushSettles` | Kernel/src/mesh_authority_runtime.go:222-235 | an approval, which persists first, names only durably settled receipts |
| `Mesh.NextInv` | Kernel/src/mesh_journal_runtime.go:230-524 | every event at a node, on the network or at the Sovereign keeps the cross-node invariant |
| `MeshProgress.NodeIsSpool` | Kernel/src/mesh_journal_runtime.go:230-387 | at a node, deferring, exchanging and removing an entry are the spool's calls, however the write ends, and a restart is its recovery |
| `MeshProgress.AnswerableCanLeave` | Kernel/src/mesh_journal_runtime.go:413-451 | every spooled request that the Sovereign can answer as things stand can leave the spool durably: a proposal is exchanged for its ACK, any other request is removed |
| `MeshProgress.AcceptedCanBeCollected` | Kernel/src/mesh_proposal_replay_runtime.go:237-350 | an ACK that is accepted can be collected and answered |
| `MeshProgress.FreshCanStart` | Kernel/src/mesh_proposal_replay_runtime.go:502-561 | a delivered proposal with a newer revision for an idle slot can be started |
| `MeshProgress.StartedCanBeAccepted` | Kernel/src/mesh_proposal_replay_runtime.go:576-631 | one that was started can be recorded durably and accepted without being dispatched again |
| `LazySnapshots.LazySnapshot.RecordBaseline` | Kernel/src/speculative_lazy.go:106-139 | the first version read stays the baseline and its owner stays the owner; refused exactly beyond the working-set limit or for another owner |
| `LazySnapshots.LazySnapshot.RecordHint` | Kernel/src/speculative_lazy.go:68-89 | an owner hint moves only while the id has no baseline |
| `LazySnapshots.LazySnapshot.ClearHint` | Kernel/src/speculative_lazy.go:91-104 | forgets exactly the expected hint of an id without a baseline |
| `LazySnapshots.LazySnapshot.PageIn` | Kernel/src/speculative_lazy.go:106-150 | paging in takes the lazy step of the transaction model, or refuses exactly for another owner or beyond the limit; a dropped working copy is read again under its first baseline |
| `Serializability.CommitIsCanonical` | Kernel/src/scheduler_runtime.go:46-123 | if records only read or executed still equal their baselines, counters read have not moved, missed ids are still missing and listings would come out the same, committing gives the Fabric, observations and Frame of running the program in place |
| `Serializability.UndisturbedCommits` | Kernel/src/scheduler_runtime.go:46-123 | for every program, a run that nobody disturbs validates, and committing it is running the program in place |
| `Serializability.CanonicalWrites` | Kernel/src/scheduler_runtime.go:23-44 | a run leaves of a record what it last wrote to it, and brings no record back |
| `Serializability.CanonicalCounts` | Kernel/src/kernel.go:1018-1022 | a run counts each execution of a record once, modulo 2^64 |
| `Serializability.MissIsSeen` | Kernel/src/scheduler_runtime.go:46-123 | the private run and a run in place see that a record is missing exactly if they do not show one |
| `Serializability.HistoryIsSerial` | Kernel/src/scheduler_runtime.go:46-123 | any history of such commits and of replays is the serial history in commit order |
| `Serializability.RunSimulates` | Kernel/src/speculative_lazy.go:106-139 | the speculative run and the run in place observe the same, record by record |
| `Serializability.StaleObservationDiverges` | Kernel/src/speculative_fabric_commit.go:206-219 | whenever an observation would come out differently at the commit, some program's diff validates and commits to something else than running in place |
| `Serializability.ObservationsDiffer` | Kernel/src/speculative_fabric_commit.go:206-219 | a changed record, a moved counter, an appeared record and a changed listing each make an observation differ |
| `Serializability.WriteSkew` | Kernel/src/speculative_fabric_commit.go:206-219 | two validated commits can swap two records, which no serial order does |
| `Serializability.NothingCreated` | Kernel/src/speculative_txn.go:162-166 | a run without creation has an empty created part |
| `TransactionDiff.DiffSnapshot` | Kernel/src/speculative_txn.go:145-168 | the two loops compute exactly the changed, deleted, created and counted ids against the baselines |
| `TransactionDiff.ReadyIffValidates` | Kernel/src/speculative_fabric_commit.go:161-219 | validation over owner bodies decides what validation of the live view decides |
| `TransactionDiff.CommitShows` | Kernel/src/speculative_fabric_commit.go:221-228 | after a commit each owner shows the committed Fabric |
| `TransactionDiff.CommitRun` | Kernel/src/scheduler_runtime.go:107-117 | diff and commit over the owners refine the commit of the transaction model |
| `SpeculativeCommit.Commit` | Kernel/src/speculative_fabric_commit.go:152-229 | true exactly if nothing is created and every planned id has an owner, a baseline and a live record that, if changed or deleted, equals the baseline; then every planned id is as planned with the locked counter plus the delta and all else is unchanged; on false no body changes |
| `SpeculativeCommit.Admit` | Kernel/src/speculative_fabric_commit.go:156-219 | planning and validation decide readiness and give one job per planned id |
| `SpeculativeCommit.Validate` | Kernel/src/speculative_fabric_commit.go:204-219 | the first phase accepts exactly the ready ids and only reads |
| `SpeculativeCommit.ApplyAll` | Kernel/src/speculative_fabric_commit.go:221-227 | the second phase applies each job to its owner |
| `SpeculativeCommit.WorkedAt` | Kernel/src/speculative_fabric_commit.go:221-227 | jobs for distinct ids do not disturb each other |
| `SpeculativeCommit.WorkedSound` | Kernel/src/speculative_fabric_commit.go:86-141 | applying validated jobs keeps the overlay invariant |
| `CommitLocking.InterleavingIsAtomic` | Kernel/src/speculative_fabric_commit.go:200-229 | every interleaving of commits and direct mutations, lock by lock and record by record, equals a history of whole commits and single mutations in which each commit found its records, and those it changes or deletes as its baselines say; a commit is in it, once, exactly if it was decided |
| `CommitLocking.CheckDecides` | Kernel/src/speculative_fabric_commit.go:200-229 | a commit is refused exactly at a record that is gone or has moved, and decided exactly when all were found |
| `CommitLocking.PassesIsReady` | Kernel/src/speculative_fabric_commit.go:200-229 | that check is the one the commit over owner bodies makes of each planned id |
| `CommitLocking.LeavesIsApplied` | Kernel/src/speculative_fabric_commit.go:86-141 | the records of that model follow the bodies, a discarded record that shows its stored version again included |
| `CommitOwners.CommitOwnersOf` | Kernel/src/speculative_fabric_commit.go:50-73 | each owner once, ordered by path and then by body id |
| `CommitOwners.OwnersAreRanked` | Kernel/src/speculative_fabric_commit.go:66-84 | that order is increasing in one ranking of all bodies, for every commit |
| `CommitOwners.RankIsIdentity` | Kernel/src/speculative_fabric_commit.go:66-72 | distinct bodies have distinct ranks |
| `CommitLocking.SomeCommitAdvances` | Kernel/src/speculative_fabric_commit.go:50-84 | acquiring in one order cannot deadlock |
| `CommitLocking.ItemLocked` | Kernel/src/speculative_fabric_commit.go:75-84 | from the first check to the last write a commit holds the lock of every item |
| `CommitLocking.StepInv` | Kernel/src/speculative_fabric_commit.go:200-229 | every step keeps locks, reads and the replayed history in agreement |
| `IndexTables.EntryRoundTrip` | Kernel/src/store.go:438-449 | decoding inverts encoding of an index entry |
| `IndexTables.FindHash` | Kernel/src/store.go:168-197 | binary search over the bytes finds the first entry with the hash, or none exactly if there is none |
| `IndexTables.Lookup` | Kernel/src/store.go:219-243 | finds exactly the item with the key, for every hash function, colliding ones included |
| `IndexTables.EncodeIndex` | Kernel/src/store.go:438-449 | the section lists the entries in order |
| `IndexTables.SortRecs` | Kernel/src/store.go:398-403 | a permutation in hash order |
| `IndexTables.Build` | Kernel/src/store.go:364-437 | data and index hold exactly the items, unless one exceeds its ceiling |
| `StoreIndex.BuildIndexedSections` | Kernel/src/store.go:364-437 | for every list with distinct ids the image holds exactly these records, refused exactly if a record or a tag list exceeds its ceiling |
| `StoreIndex.GetID` | Kernel/src/store.go:219-243 | the record of the list with this id, or none exactly if there is none |
| `StoreIndex.TagIDs` | Kernel/src/store.go:244-288 | the sorted ids of the records of the list under the key |
| `StoreIndex.AllIDs` | Kernel/src/store.go:338-353 | every id of the list, each once |
| `StoreIndex.PhysicalFeatureIDs` | Kernel/src/store.go:290-295 | the sorted ids listed under the reserved key of the feature |
| `StoreIndex.FeatureAnswerExactIff` | Kernel/src/store.go:290-336 | for images of both kinds and either answer of the probe, a Store answers a feature as a scan of its unshadowed records exactly under a condition on authored tags that spell the feature's key |
| `StoreIndex.FirstID` | Kernel/src/store.go:297-313 | the id of the record the first index entry points to, some id of the list, absent exactly for an empty one |
| `StoreIndex.HasPhysicalFeatureIndex` | Kernel/src/store.go:315-336 | accepts exactly an empty Store or one whose first record is listed under its own id feature |
| `StoreIndex.ProbeIsRight` | Kernel/src/store.go:315-336 | without authored tags under the reserved prefix the probe rejects every non-empty image that lists tags only, and every feature is answered as by a scan |
| `StoreIndex.OlderAcceptedIff` | Kernel/src/store.go:315-336 | an image that lists tags only is accepted exactly if its first record carries the reserved key of its own id as a tag |
| `StoreIndex.OlderAcceptedMisses` | Kernel/src/store.go:315-336 | such an image misses a record that has a feature without carrying its key |
| `StoreIndex.ProbeMisses` | Kernel/src/store.go:315-336 | on current images the probe can miss only an id that trimming changes |
| `StoreIndex.TagPostings` | Kernel/src/store.go:244-288 | what an image of either kind lists under any key are the Store's records with that key, reserved keys included |
| `Listing.ListTag` | Kernel/src/kernel.go:855-896 | tag listing over the bytes of the index, for every non-empty tag: every live record with the tag, and only those exactly if none is listed for a feature alone |
| `Listing.ListIds` | Kernel/src/kernel.go:3967-3996 | id paging over the bytes of the index gives exactly the sorted live ids |
| `StoreIndex.TagMap` | Kernel/src/store.go:387-396 | the nested loops list, under each key, the ids of the records that have it |
| `Features.ActivationFeatures` | Kernel/src/activation_runtime.go:97-135 | the sorted, distinct, trimmed features of a record |
| `Features.QueryHits` | Kernel/src/activation_runtime.go:291-303 | a record has as many features of a query as the query has answers in it: at most one if it names the kind it asks for (id, tag, trigger, State key, State value), else one for its id, one for a tag and one for a trigger; none for a blank query |
| `Features.FeaturesMean` | Kernel/src/activation_runtime.go:97-135 | a record has a feature of each kind exactly if it has such an id, tag, trigger, State key or State value, up to space behind it |
| `Features.ExplicitTagFinds` | Kernel/src/activation_runtime.go:291-303 | every tag finds its record when it is asked for as a tag |
| `Features.TagFoundIff` | Kernel/src/activation_runtime.go:291-303 | asked for without its kind, exactly a tag that does not start with space is found as a tag |
| `Strings.TrimSpaceIff` | Kernel/src/activation_runtime.go:291-303 | trimming gives the text without space at its ends that has only space around it |
| `Strings.StringLessIff` | Kernel/src/activation_runtime.go:331-407 | ids are ordered where they first differ, a proper prefix first |
| `Activation.Qualify` | Kernel/src/activation_qualification.go:51-169 | for every Fabric with unique ownership, images of both kinds mixed, every query and every positive page cap, the full scan answers exactly the live records that answer the query, sorted, with their hits, cut at the cap, and activation over the bytes of the indexes returns the same ids, order, count and hit numbers if both count the same hits, so if every body answers every feature of the query exactly; with both answers whole on the page only if they count the same, and for a query of one feature only if every body answers it exactly |
| `Activation.Activate` | Kernel/src/activation_runtime.go:331-407 | the page of what the bodies report, feature by feature, each body answered by its index where the probe finds one and scanned otherwise; without authored tags under the reserved prefix exactly the live records that answer the query, sorted, with their hits, cut at the page cap, or at the default if that is not positive |
| `Activation.CandidateIff` | Kernel/src/activation_runtime.go:331-407 | if the page holds the answer whole, an id is a candidate exactly if its live record answers the query |
| `Activation.ReferenceScan` | Kernel/src/activation_qualification.go:116-169 | the page of what the live records of the Fabric hold, node by node: exactly those that answer the query, sorted, with their hits, cut at the cap |
| `Activation.BuildCorpus` | Kernel/src/activation_qualification.go:51-114 | every live record once with its features, refused exactly if two bodies hold one id |
| `Activation.PhysicalFeatureIds` | Kernel/src/fabric_read_runtime.go:94-166 | the sorted ids that the bodies report, refused exactly if two report one id; with unique ownership exactly the live records with the feature if and only if every body answers it exactly |
| `Activation.StoredFeatureIds` | Kernel/src/fabric_read_runtime.go:100-141 | probe, then index lookup or record-by-record scan of the image: the stored records with the feature that the overlay does not shadow, if and only if the body's index answers it exactly |
| `Activation.OverlayIsExact` | Kernel/src/fabric_read_runtime.go:100-157 | postings outside the overlay plus the overlay are the live records of the body |
| `Activation.AnswersAgreeIff` | Kernel/src/activation_qualification.go:143-168 | equal hit counts give equal answers, and answers that fit the page whole are equal only then |
| `Activation.ReportsAgreeIff` | Kernel/src/fabric_read_runtime.go:94-166 | the bodies report what the Fabric holds exactly if each answers each feature of the query exactly |
| `Activation.UnreservedIsExact` | Kernel/src/fabric_read_runtime.go:94-166 | a Fabric without authored tags under the reserved prefix is answered exactly, whatever the kinds of its images |
| `Grants.AcceptedAtMostOnce` | Kernel/src/mesh_grant_runtime.go:218-359 | over all interleavings, crashes, failed persists, sweeps and prunings no grant is accepted twice, if no call looks for its receipt after the grant has expired |
| `Grants.PausedCallIsAcceptedTwice` | Kernel/src/mesh_grant_runtime.go:323-342 | for every grant a run without that condition accepts it twice |
| `Grants.StepInv` | Kernel/src/mesh_grant_runtime.go:248-292 | every step but such a late lookup keeps accepted grants fenced until they expire |
| `Grants.Consumer.Consume` | Kernel/src/mesh_grant_runtime.go:294-359 | a call that ends before the clock moves accepts exactly an unexpired grant whose nonce is free and whose receipt is missing, if there is room for one, at once or after pruning, and the write and the barriers succeed; it was never accepted before and its receipt is durable; a refused call leaves nonces and history as they were |
| `Grants.Consumer.PruneExpired` | Kernel/src/mesh_grant_runtime.go:218-246 | under pressure, deletes exactly the receipts of grants that the expiry check already rejects; fails exactly if its barrier does |
| `Grants.Consumer.Restart` | Kernel/src/mesh_grant_runtime.go:54 | a new process finds the durable receipts and no nonces |
| `ExternalIo.AdapterAtMostOnce` | Kernel/src/source_adapter_runtime.go:418-504 | over all crashes and failed writes each request reaches the adapter at most once, after its executing mark was durable |
| `ExternalIo.NeverBackToPending` | Kernel/src/source_adapter_runtime.go:312-349 | no run takes a durable request back towards pending |
| `ExternalIo.FoundIsNeverCalled` | Kernel/src/source_adapter_runtime.go:393-416 | a request found past pending on disk with no call under way never reaches the adapter again |
| `ExternalIo.RewriteMarks` | Kernel/src/source_adapter_runtime.go:312-342 | a lifecycle rewrite leaves exactly the lifecycle tags of the new status and every other tag |
| `ExternalIo.Processor.QuarantineAll` | Kernel/src/source_adapter_runtime.go:393-416 | exactly the requests found executing become ambiguous, but those whose rewrite is refused |
| `ExternalIo.Processor.ExecutePending` | Kernel/src/source_adapter_runtime.go:418-468 | calls the adapter exactly for a complete request whose executing mark became durable, never a second time; the request ends failed, executing, response-ready or done under exact conditions on completeness and outcomes, pending exactly if its first write is refused, and the disk follows up to the last durable write |
| `ExternalIo.Processor.DeliverReady` | Kernel/src/source_adapter_runtime.go:366-391 | exactly the ready requests that are delivered and rewritten end done |
| `ExternalIo.Processor.Process` | Kernel/src/source_adapter_runtime.go:470-504 | one pass takes each request from its status at the start to exactly one outcome; what was found executing is not called; exactly the complete pending requests with a durable mark reach the adapter, in id order |
| `ExternalIo.Processor.Restart` | Kernel/src/source_adapter_runtime.go:393-416 | a new process finds what was durable, so interrupted calls are found executing |
| `BodyLocks.OneHolderPerPath` | Kernel/src/remote_body_txn_runtime.go:59-83 | in every interleaving a path has at most one holder, and the registry holds it exactly while someone holds it, waits for it or has not finished releasing it |
| `BodyLocks.OnlyHoldersBlock` | Kernel/src/remote_body_txn_runtime.go:59-83 | a waiting transaction can take its lock exactly if nobody holds the path, and releasing is always possible |
| `BodyLocks.StepInv` | Kernel/src/remote_body_txn_runtime.go:59-83 | every step keeps the reference counts equal to the users of each entry |
| `ShardPlacement.LocalMemoryCountFast` | Kernel/src/scale_runtime.go:13-49 | never below the number of live records; exact if no new id is stored and all index reads succeed |
| `ShardPlacement.FitsIsRoomy` | Kernel/src/shard_runtime.go:78-86 | room by the count is room for one more record, and the other way round where the count is exact |
| `ShardPlacement.CountSets` | Kernel/src/scale_runtime.go:44-48 | the counting formula, for all sets of stored, new, deleted and readable ids |
| `ShardPlacement.ShardedFabric.MountedWritableShard` | Kernel/src/shard_runtime.go:130-162 | the selected shard if it has room by the count, else the primary, else the first mounted storage shard with room in path order, which is then selected; none exactly if none has room |
| `ShardPlacement.ShardedFabric.PlaceRuntimeMemory` | Kernel/src/shard_runtime.go:164-181 | a body is chosen exactly if one has room; it stays within the maximum, the record is live in it unless it holds a tombstone for the id, and no other id and no other body changes |

## Left out

- HTTP, TLS, sockets, daemon plumbing, signatures and key handling: transport is a set of messages that may be lost, repeated and reordered.
- ZIP parsing and file sync: a body file is a base image with a journal region, replaced by an atomic rename or by one slot write that may tear outside its 64-byte header.
- The opcode switch of the kernel beyond the primitives that change the overlay; a transaction program is any deterministic strategy over observed records.
- `Serializability.CommitIsCanonical`: creation is canonical-only as in the source, and `cache_drop` is excluded because it makes a baselined record look deleted; counters must not wrap within one run. A speculative run that ends in an error returns it without validation; that return is not part of a history.
- Aliasing of cached records: `copyMemory` is a value copy, so a caller that keeps a reference into the cache is not modelled.
- `Transfer.TransferMemory`: edits of the source happen between the copy and the deletion; a background persist of such an edit during the move, and writers on the destination meanwhile, are not modelled. Crash points are whole files; an interrupted slot write is one of them under the condition of `JournalBytes.TornWriteRefines`.
- `Engines.Engine.CopyForPersistence`: the in-place copy runs alone; `Persistence.SaveIsInvisible` is where other writers interleave with it.
- `Engines.Engine.PersistIncremental`: no mutation falls between the snapshot of the pending ids and the slot write, and no write revives an earlier attempt.
- `Engines.Engine.RewriteBody`: runs alone, as `Engines.Engine.CopyForPersistence`.
- `ProposalReplay.AtMostOnce`: revisions are unbounded; the float-to-integer conversion of a revision that rounds to 2^64 is implementation-defined in Go and not modelled. A dispatched program is assumed not to write the ledger's own records.
- Undecodable ledger, spool and journal records: their error returns change nothing and are not separate cases.
- `Grants.AcceptedAtMostOnce`: nonces are assumed distinct per grant, as they are drawn at random; the other checks of a grant are a guard that either rejects or not.
- `Activation.Activate`: ids are non-empty, as every writer requires; the non-persistent posting overlay is not modelled.
- `StoreIndex.BuildIndexedSections`: fewer than 2^32 records and keys, so that offsets and counts fit their fields.
- `BodyHistory.ListingIsExact`: a history has no insert over a tombstone, after which listing can fail (`Engines.ShadowedInsertsMislist`), and no recovery of a failed move, which is the one operation that marks a stored record as new (`Engines.DiscardUnlists`).
- `SpeculativeCommit.WorkedSound`: no discarded record is a stored one that a failed move marked new; `Plans.ValidatedPlanSoundIff` says what happens to one that is.
- `TransactionDiff.CommitShows`: as `SpeculativeCommit.WorkedSound`.
- `TransactionDiff.CommitRun`: as `SpeculativeCommit.WorkedSound`.
- `CommitLocking.InterleavingIsAtomic`: readers under the shared lock are not steps.
- `ShardPlacement.ShardedFabric.PlaceRuntimeMemory`: mounting and unmounting shards during a placement is not modelled, and the lookup before a creation is assumed to have missed in every body, with no record hidden behind a tombstone.
- The 24-byte index entries of the oldest bodies, legacy proposal import, remote shards, GPU code and path sandboxing.
- `ExternalIo.Processor.Process`: the fields a rewrite adds to a request (error text, payload, elapsed time) are not modelled, and a barrier that fails part way over several bodies is a step of the state machine (`ExternalIo.AdapterAtMostOnce`), not an outcome of a call.
- Liveness: that spools drain or that a pending request is eventually executed is not claimed, only that they can (`MeshProgress.AnswerableCanLeave`).
