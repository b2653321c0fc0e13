# NKC: verified models of the state the messenger must not corrupt

NKC is a peer-to-peer messenger: an Electron application and a Go worker that
receives files, keeps an offline queue, plans deliveries and talks to the
application over framed pipes. This project models the stateful parts of both
and proves what they keep, over whole runs and across failures.

`dafny verify dfyconfig.toml` checks everything.

| file | models |
|---|---|
| `receive_layout`, `receive_spec`, `receive_store`, `bitmap` | resumable file receive: bitmap, part file, journal, the disk and its steps |
| `receive_safety`, `receive_runs`, `receive_limits`, `receive_transfer`, `receive_progress` | receive across kills and power losses: what survives, where that stops, whole transfers; what each operation answers, and that a transfer whose I/O works gets through |
| `queue_disk`, `queue_spec`, `queue_runs`, `queue_flush`, `queue_crashes`, `queue_work`, `queue_outcomes`, `queue_store` | the offline queue: saving, message life cycle, flush, kills, and what each operation leaves of a message |
| `inbox_spec`, `inbox_protocol`, `inbox_outcomes`, `inbox` | the controller's inbox: accounts, the cursor protocol, and what each request answers |
| `ratchet` | the version 1 key ratchet, and when two parties agree |
| `frame_streams`, `framing`, `worker_client` | the framed pipe in both directions, and the calls waiting on it |
| `scheduler`, `scheduler_order`, `delivery_spec`, `delivery_runs`, `delivery_acks`, `delivery_outcomes`, `delivery_scheduler` | the delivery planner and the loop that follows it |
| `canonical_json`, `device_registry` | canonical JSON, and convergence of the device registry |
| `stable_sort`, `string_order`, `wrappers` | the library sort, key order, shared types |

Each stateful component has a class with the source's fields and methods; every
method is proved equal to a function on values, and the theorems are about those
functions and about runs of them. What those functions answer and leave is stated
apart from them, by the fields, numbers and order a caller sees, in the modules
named `Outcomes`, `Progress` and `Order`. Failures, clocks, network outcomes and other
parties are parameters, so a theorem over all arguments is over all of them.

## What the models assume

- Receive: sync, rename and remove are atomic. A power loss keeps synced bytes,
  may leave any value in unsynced ones, and may undo a rename or removal of the
  journal whose directory has not been synced. A kill keeps the disk as it is, and
  what was unsynced stays unsynced. Creating and sizing the part file survives. A
  failed sync leaves its bytes unsynced, to be synced by the next one. SHA-256 is
  a parameter, and so is whether the platform's directory sync does anything.
- Queue: the crash is the death of the worker, not of the machine. The source
  never syncs the queue files, so nothing is claimed about a power loss.
- Journals and queue files parse back to what was printed; a file cut short does not parse.
- Ratchet: labelled hashes are injective and never collide.
- `StableSort.Sort` stands for Go's stable sort. It keeps the promise of a stable
  sort, and `StableSort.StableSortIsUnique` shows that promise has one result.
- `deterministicUnit` is any number between 0 and 1; floats are reals.
- Dafny characters are Unicode scalar values; JavaScript compares UTF-16 units, so
  keys beyond the basic plane may sort differently.

## Where the code falls short of what it is for

Kept as the code has it; each has the exact condition under which it does hold,
or a proof that it fails:

- A duplicate chunk is acknowledged as checkpointed without a checkpoint; it
  survives exactly if its bit is in the durable bitmap
  (`ReceiveLimits.DuplicateSurvivesIff`, `ReceiveLimits.DuplicateMayBeLost`).
- Where the directory cannot be synced, as on Windows, an acknowledged chunk can
  be lost (`ReceiveRuns.AcknowledgedIsForeverIff`).
- `init` takes an unreadable journal for an absent one, and can then lose a chunk
  exactly if that journal reports one (`ReceiveLimits.UnreadableJournalIsSafeIff`).
- After a kill between the journal's rename and the directory sync, a restart
  counts chunks as durable that a later power loss forgets
  (`ReceiveLimits.RestartOverstatesIff`, `ReceiveLimits.KilledCheckpointOverstatesIff`).
- Finalize and abort remove the part file before the journal and never sync that
  removal: a power loss after them can bring back a journal over no file, after
  every finalize that succeeds and every abort of a checkpointed transfer
  (`ReceiveLimits.FinalizeIsSafeIff`, `ReceiveLimits.AbortIsSafeIff`, `ReceiveLimits.RestartOverNothing`).
- On Linux a longer part file left over from another size is never shortened
  (`ReceiveTransfer.InitLength`); and an uppercase digest is accepted but can never match
  (`ReceiveTransfer.UppercaseDigestIsAccepted`, `ReceiveTransfer.UppercaseDigestNeverFinalizes`).
- A chunk index so large that its offset passes 63 bits wraps around and answers
  another chunk (`ReceiveLayout.AnswersOwnChunkIff`, `ReceiveLayout.WrappedIndexAnswersFirst`).
- With only a backup on disk, saving the queue first deletes it (`QueueDisk.SavesAreAtomicIff`);
  what was saved is lost exactly if the rename then fails, or a kill comes before it
  (`QueueCrashes.SaveKeepsIff`, `QueueCrashes.KillKeepsIff`).
- Cleanup that deletes a device's inbox entry restarts its numbering at 0, and a
  client that holds a cursor then discards items it never saw; one without a
  cursor is unharmed (`InboxProtocol.CleanupMayDiscardIff`).
- The application's receive buffer outlives its worker: a worker started again is
  read correctly exactly if no part of a frame was left (`Framing.RestartReadsIff`).
- Version 1 ratchet parties whose messages cross derive different keys (`Ratchet.AgreementIff`, `Ratchet.CrossingDisagrees`).
- If recording an attempt throws, the id stays marked busy and is never sent again
  (`DeliveryRuns.BusyIff`, `DeliveryRuns.BusyIsNeverSentAgain`).
- An acknowledgement that arrives between its record's listing as timed out and its
  requeue is overwritten; one that arrives after the candidates were listed stays,
  but the record is sent all the same if the plan still gets to it. Exactly
  otherwise it is final (`DeliveryAcks.AckIsFinalIff`, `DeliveryAcks.AckStaysIff`,
  `DeliveryAcks.SentAfterAckIff`).
- The planner's comparator is no order once a third priority appears (`Scheduler.ComparatorIsOrderIff`).
- Canonicalization drops a property named `__proto__` (`CanonicalJson.KeepsMeaningIff`).
- Two latest events of a device with different roles leave its role to arrival order (`DeviceRegistry.ConvergesIff`).

## Model

| member | source | states |
|---|---|---|
| `Bitmap.WithBitSetsOneBit` | native/nkc-worker/receive_store.go:154-155 | setting a bit sets that bit and changes no other |
| `Bitmap.SetBit` | native/nkc-worker/receive_store.go:155 | the bitmap updated in place |
| `Bitmap.BitmapRanges` | native/nkc-worker/receive_store.go:176-191 | the ranges are sorted, separated by gaps, below the total, and cover exactly the set bits |
| `Bitmap.ReportIsUnique` | native/nkc-worker/receive_store.go:176-191 | a bitmap has one such range list only: the report is canonical |
| `Bitmap.RangesAddUp` | native/nkc-worker/receive_store.go:157-174 | the range lengths sum to the number of received chunks |
| `Bitmap.CompleteIffOneRange` | native/nkc-worker/receive_store.go:168-173 | complete is reported exactly when the list is the one range of all chunks |
| `ReceiveLayout.AcceptedManifestIsLaid` | native/nkc-worker/receive_store.go:78-102 | a validated manifest has 1 to 500 non-empty chunks, the last ending with the file |
| `ReceiveLayout.OverwriteKeepsOtherSlots` | native/nkc-worker/receive_store.go:221 | writing a chunk at its offset leaves every other chunk's bytes alone |
| `ReceiveLayout.SlotsDetermineFile` | native/nkc-worker/receive_store.go:211-221 | files that agree chunk by chunk are equal |
| `ReceiveLayout.InspectFile` | native/nkc-worker/fileops.go:31-53 | the chunk count is the least that covers the file, with its digest; a bad chunk size and failing I/O are refused |
| `ReceiveLayout.ReadFileChunkBinary` | native/nkc-worker/fileops.go:66-98 | the chunk read is the file's bytes at the 64-bit offset, shorter only at the end; each error case, and the panic |
| `ReceiveLayout.AnswersOwnChunkIff` | native/nkc-worker/fileops.go:83-86 | an answered chunk is the index's own exactly if its offset fits 63 bits |
| `ReceiveLayout.WrappedIndexAnswersFirst` | native/nkc-worker/fileops.go:83-86 | an index whose offset wraps around to the first chunk |
| `ReceiveLayout.SenderMatchesReceiver` | native/nkc-worker/fileops.go:66-98 | the indices a sender can read are those the receiver takes, with the length it expects |
| `ReceiveStore.Transfer.Init` | native/nkc-worker/receive_store.go:104-142 | result, new state and every disk state in between, with I/O failing at any step, and the panic over a journal whose bitmap is too short |
| `ReceiveStore.Transfer.CheckpointLocked` | native/nkc-worker/receive_store.go:239-277 | the same for the checkpoint: data synced, journal saved and renamed, directory synced, then the commit |
| `ReceiveStore.Transfer.SaveJournal` | native/nkc-worker/receive_store.go:245-272 | the disk after each I/O step, in order, up to the one that fails |
| `ReceiveStore.Transfer.WriteBinary` | native/nkc-worker/receive_store.go:201-237 | every refusal, the duplicate answer, partial writes, and the write followed by a checkpoint when due |
| `ReceiveStore.Transfer.GetStatus` | native/nkc-worker/receive_store.go:157-174 | received counts the set bits, ranges report them, durableThrough is the last of the durable prefix |
| `ReceiveStore.Transfer.Checkpoint` | native/nkc-worker/receive_store.go:279-290 | an unknown transfer is refused; otherwise a checkpoint and then the status |
| `ReceiveStore.Transfer.Finalize` | native/nkc-worker/receive_store.go:292-336 | the new state and answer of a finalize with I/O failing at any step |
| `ReceiveStore.Transfer.Abort` | native/nkc-worker/receive_store.go:338-358 | the new state and answer of an abort with I/O failing at any step |
| `ReceiveSafety.RenameKeeps` | native/nkc-worker/receive_store.go:245-269 | data first, journal second: renaming the journal is safe because the data was synced |
| `ReceiveSafety.WritePartKeeps` | native/nkc-worker/receive_store.go:218-227 | writing a chunk not yet received, whole or in part, touches nothing a restart relies on |
| `ReceiveRuns.CrashSafety` | native/nkc-worker/receive_store.go:104-142 | after any run with kills and power losses, and a kill or power loss after any disk step, a new init succeeds, keeps every guaranteed chunk, after a kill every durable one too (after a power loss, if no kill came before), and every chunk it reports is in the file as accepted |
| `ReceiveRuns.RunKeeps` | native/nkc-worker/receive_store.go:201-277 | the invariant holds in every state of every run of init, write and checkpoint with failures, kills and power losses |
| `ReceiveRuns.GuaranteedSurvives` | native/nkc-worker/receive_store.go:239-277 | a chunk every revealable journal reports stays reported, and in the file with its bytes, over any run with kills and power losses |
| `ReceiveRuns.AcknowledgedIsForeverIff` | native/nkc-worker/receive_store.go:228-236 | a chunk acknowledged as checkpointed and not duplicate is reported and in the file with its bytes after every later run with kills and power losses, exactly where the directory can be synced |
| `ReceiveRuns.RunKeepsDurable` | native/nkc-worker/receive_store.go:239-276 | in runs without kills every journal a power loss can reveal reports every chunk held durable |
| `ReceiveRuns.CleanIffDurable` | native/nkc-worker/receive_store.go:239-244 | dirtyBytes is zero exactly when every received chunk is durable, so skipping the checkpoint is sound |
| `ReceiveRuns.CheckpointedWriteIsDurable` | native/nkc-worker/receive_store.go:228-236 | after a successful new write fewer than 32 MiB are dirty; if it says checkpointed the durable bitmap is the bitmap, and the chunk is guaranteed exactly if the directory sync took effect |
| `ReceiveLimits.DuplicateSurvivesIff` | native/nkc-worker/receive_store.go:218-220 | a duplicate's chunk survives every power loss exactly if its bit is set in the durable bitmap; after a kill only if |
| `ReceiveLimits.DuplicateMayBeLost` | native/nkc-worker/receive_store.go:218-220 | a run in which a duplicate is answered checkpointed and the chunk is then lost |
| `ReceiveLimits.UnreadableJournalIsSafeIff` | native/nkc-worker/receive_store.go:118-126 | starting over an unreadable journal can lead to a reported chunk whose accepted bytes are not in the file, exactly if the journal reports a chunk |
| `ReceiveLimits.RestartOverstatesIff` | native/nkc-worker/receive_store.go:139 | after a kill, some power loss takes back a chunk the restarted worker holds durable, exactly if the journal file reports one the killed worker did not hold durable |
| `ReceiveLimits.KilledCheckpointOverstatesIff` | native/nkc-worker/receive_store.go:267-271 | for a kill within a checkpoint: exactly between the rename and the directory sync, with something to save |
| `ReceiveLimits.FinalizeIsSafeIff` | native/nkc-worker/receive_store.go:323-331 | a finalize can be followed by a power loss that leaves a journal over a missing file exactly if its rename succeeded; by a kill, exactly if besides the journal was not removed |
| `ReceiveLimits.FinalizedMayReturn` | native/nkc-worker/receive_store.go:329-331 | after a finalize that succeeds, some power loss brings back a journal of every chunk and no part file |
| `ReceiveLimits.AbortIsSafeIff` | native/nkc-worker/receive_store.go:345-352 | the same for an abort, exactly if the part file was removed and the journal reported a chunk |
| `ReceiveLimits.RestartOverNothing` | native/nkc-worker/receive_store.go:118-141 | a restart over a journal without its file reports its chunks over zeros and refuses them as duplicates; if it has them all, only the digest check refuses it |
| `ReceiveTransfer.CompleteMeansWholeFile` | native/nkc-worker/receive_store.go:201-237 | chunks of a source in any order with duplicates, kills and power losses: once complete, the part file is the source |
| `ReceiveTransfer.InitLength` | native/nkc-worker/receive_store.go:127-138 | the part file has the right length after init exactly if the platform truncates or no longer file was there |
| `ReceiveTransfer.FinalizeIff` | native/nkc-worker/receive_store.go:292-336 | finalize succeeds exactly on a complete, matching file with a free destination and no I/O failure, and publishes those bytes |
| `ReceiveTransfer.TransferPublishesSource` | native/nkc-worker/receive_store.go:292-336 | end to end, across kills and power losses, a complete transfer with an honest digest publishes exactly the source |
| `ReceiveTransfer.UppercaseDigestNeverFinalizes` | native/nkc-worker/receive_store.go:314-316 | an accepted digest with an uppercase digit never finalizes |
| `ReceiveTransfer.UppercaseDigestIsAccepted` | native/nkc-worker/receive_store.go:91-94 | such digests are accepted |
| `ReceiveProgress.AcceptedIff` | native/nkc-worker/receive_store.go:78-102 | a manifest is accepted exactly for 1 byte to 500 MiB in as many 1 MiB chunks as cover it, 64 hexadecimal digits, and a valid id and file name |
| `ReceiveProgress.InitAnswers` | native/nkc-worker/receive_store.go:104-138 | which of its answers an init gives, for every manifest, journal and I/O failure, in the order they are decided |
| `ReceiveProgress.InitLeaves` | native/nkc-worker/receive_store.go:114-141 | an init takes up the journal's transfer with all it reports durable, or a new one with nothing received, under the given file name; a live one is left alone, and so are journal and destination |
| `ReceiveProgress.CheckpointIff` | native/nkc-worker/receive_store.go:239-277 | a checkpoint succeeds exactly if there is nothing to save or all its I/O works, and then everything received is durable and in the journal |
| `ReceiveProgress.WriteRefuses` | native/nkc-worker/receive_store.go:201-220 | an index out of range, a length that does not reach to the next chunk or the end of the file, and a chunk already received are answered so, and touch nothing |
| `ReceiveProgress.WriteSucceedsIff` | native/nkc-worker/receive_store.go:201-237 | writing a missing chunk succeeds exactly if all its bytes land and any checkpoint due, by 32 MiB or a second, succeeds; if they land, exactly its bit is added |
| `ReceiveProgress.WriteLands` | native/nkc-worker/receive_store.go:221-227 | the bytes that land, all or the first of them, are at the chunk's place in the file, and no other byte of it changes |
| `ReceiveProgress.ArrivalsReceive` | native/nkc-worker/receive_store.go:201-237 | chunks in any order with duplicates, their I/O working: exactly those are received |
| `ReceiveProgress.TransferGetsThrough` | native/nkc-worker/receive_store.go:104-336 | from a fresh init, every chunk of a source in any order with duplicates, their I/O working: finalize answers the manifest's file name and publishes the source |
| `ReceiveProgress.FinalizeAnswers` | native/nkc-worker/receive_store.go:292-336 | once its I/O works, finalize answers incomplete, mismatch, destination exists or success exactly when the bits, the digest and the destination say so |
| `ReceiveProgress.FinalizeLeaves` | native/nkc-worker/receive_store.go:292-336 | a refused finalize keeps the transfer and its files; only success ends it, with the part file as the destination and no journal |
| `ReceiveProgress.AbortIff` | native/nkc-worker/receive_store.go:338-358 | abort succeeds exactly if the file is closed and everything removed, and then nothing of the transfer is left |
| `QueueDisk.SavesAreAtomicIff` | native/nkc-worker/queue.go:226-255 | every save from a disk is atomic under kills exactly if the main file is there, or no backup either, or the backup is the empty state |
| `QueueDisk.SafeIsAtomic` | native/nkc-worker/queue.go:101-121 | from a safe disk, opening after a kill at any step finds the old or the new state, and a failed save keeps the old |
| `QueueDisk.SafeStaysSafeIff` | native/nkc-worker/queue.go:247-252 | a save leaves the disk unsafe exactly if both the rename and the restore fail |
| `QueueDisk.KillRecoversLastSaved` | native/nkc-worker/queue.go:226-255 | over many saves, a kill recovers the last saved state or the one being saved |
| `QueueStore.Store.Open` | native/nkc-worker/queue.go:101-121 | the store opened from main file, backup, or nothing; a blank path, a failed read and a cut-short file are refused |
| `QueueStore.Store.Persist` | native/nkc-worker/queue.go:226-255 | the result and every disk in between, operation by operation |
| `QueueStore.Store.SetFriends` | native/nkc-worker/queue.go:257-277 | the friends become the sorted merge of known and valid given routes |
| `QueueRuns.ListsIsUnique` | native/nkc-worker/queue.go:271-275 | the sorted list does not depend on the order the map is ranged over |
| `QueueStore.Store.Enqueue` | native/nkc-worker/queue.go:279-321 | refusal, revival of a known message, delivered messages left alone, and a new message with its route |
| `QueueSpec.RetryDelay` | native/nkc-worker/queue.go:491-517 | a retry is 1 to 120 seconds ahead and never sooner for more attempts |
| `QueueStore.Store.PatchStatus` | native/nkc-worker/queue.go:537-556 | the patched messages, saved |
| `QueueStore.Store.PatchFailure` | native/nkc-worker/queue.go:519-535 | the first message with the id gets the failure policy, and the queue is saved |
| `QueueStore.Store.PendingForFriend` | native/nkc-worker/queue.go:480-489 | the due messages of a friend in stable order of creation |
| `QueueRuns.PendingIsDue` | native/nkc-worker/queue.go:480-489 | that batch has exactly the friend's due messages and is their stable sort |
| `QueueStore.Store.Flush` | native/nkc-worker/queue.go:627-666 | the queue, posts and count of a flush, with any saves and deliveries failing |
| `QueueFlush.FlushExactly` | native/nkc-worker/queue.go:645-665 | with successful saves: each friend's due messages in order up to the first failure are posted, each delivered or failed, all else untouched, and the count is the number newly delivered |
| `QueueFlush.ThroughIsPrefix` | native/nkc-worker/queue.go:650-663 | what is posted for a friend is a prefix of the batch, all but possibly the last delivered |
| `QueueFlush.NothingPostedTwice` | native/nkc-worker/queue.go:645-663 | no message is posted twice in a flush, whichever saves and deliveries fail |
| `QueueFlush.UnpostedIsBehindFailure` | native/nkc-worker/queue.go:655-658 | a due message not posted is behind a failed one of its own friend |
| `QueueRuns.RunConserves` | native/nkc-worker/queue.go:257-321 | over any run nothing stored is lost, ids stay distinct, friends are listed, delivered is final, payload is empty exactly when delivered |
| `QueueRuns.PostsAreBounded` | native/nkc-worker/queue.go:491-535 | without an enqueue, posts are bounded by the attempts left, at most 15 a message, whatever fails |
| `QueueCrashes.SavedOutlivesKills` | native/nkc-worker/queue.go:101-121 | over any run of operations, failing saves, and kills at any file step with reopening, from main file or backup, what was saved is neither lost nor changed illegally; only the two events of the next two rows are left out |
| `QueueCrashes.KillKeepsIff` | native/nkc-worker/queue.go:226-255 | a kill at any file step of any operation keeps what was saved exactly if it leaves a file, or nothing was saved |
| `QueueCrashes.SaveKeepsIff` | native/nkc-worker/queue.go:239-252 | a save keeps what was saved exactly if it does not remove the only copy and then fail its rename, or nothing was saved |
| `QueueCrashes.EnqueuedIsNeverLost` | native/nkc-worker/queue.go:279-321 | a message whose enqueue reported success is still stored, as itself, in memory and on disk, after any such run |
| `QueueCrashes.SavedDeliveryIsFinal` | native/nkc-worker/queue.go:537-556 | once a save has recorded it delivered, a message stays so, unchanged, over any such run |
| `QueueWork.PostsAreBoundedAcrossKills` | native/nkc-worker/queue.go:491-535 | without an enqueue, posts over any such run are at most the sum of the larger of memory's and disk's work, at most 15 a message: a claim is saved before its post |
| `QueueOutcomes.SaveSucceedsIff` | native/nkc-worker/queue.go:226-255 | a save succeeds exactly if the new file is written and renamed into place, the current one, if seen, having stepped aside |
| `QueueOutcomes.SaveLeaves` | native/nkc-worker/queue.go:226-255 | success leaves the new state, no temporary file and no backup; failure leaves the main file, unless neither file could be put there |
| `QueueOutcomes.FailureOutcome` | native/nkc-worker/queue.go:491-535 | a failed attempt: FAILED now exactly if permanent or the 15th, otherwise PENDING, due at the clock plus the code's base doubled per attempt up to its cap, in numbers |
| `QueueOutcomes.FlushOutcome` | native/nkc-worker/queue.go:645-665 | after a flush with successful saves each posted message is delivered or has failed in that way, field by field, and every other is as it was |
| `QueueOutcomes.PermanentFailureIsFinal` | native/nkc-worker/queue.go:491-517 | a message that failed permanently is FAILED for good and never posted again, over any run without an enqueue, whatever fails |
| `QueueOutcomes.RestingIsNeverPosted` | native/nkc-worker/queue.go:480-489 | a message that is not PENDING stays as it is and is never posted, over any run without an enqueue |
| `QueueOutcomes.BatchInOrder` | native/nkc-worker/queue.go:480-489 | the batch is exactly the friend's due messages, by creation and then by position in the queue |
| `QueueOutcomes.EnqueueOutcome` | native/nkc-worker/queue.go:279-321 | by fields: what is refused; a delivered message is returned as it is, any other known one revived with its attempts reset; a new one holds what was given |
| `QueueOutcomes.RouteOutcome` | native/nkc-worker/queue.go:279-321 | a new message's route replaces its friend's or is appended, and no other route changes |
| `QueueOutcomes.RoutesOutcome` | native/nkc-worker/queue.go:257-277 | of the routes given for a friend the last valid one replaces the known one; routes of friends not given are kept, and the list is sorted |
| `Inbox.Controller.Enqueue` | src/main/onionController.ts:336-359 | duplicates accepted and ignored, full inboxes refused unchanged, otherwise stored and accounted |
| `Inbox.Controller.RemoveItems` | src/main/onionController.ts:361-369 | a prefix is removed and accounted; the clamps at zero never take effect |
| `Inbox.Controller.Poll` | src/main/onionController.ts:466-492 | the acknowledged prefix is removed and the next page returned with its cursor |
| `Inbox.Controller.Cleanup` | src/main/onionController.ts:371-382 | every device loses its expired prefix, drained entries go, and the counters equal the sums over what is left |
| `InboxSpec.RunKeepsAccounts` | src/main/onionController.ts:330-382 | in every run the byte and item accounts equal the sums, ids are distinct per device, and all four caps hold |
| `InboxSpec.EnqueueKeeps` | src/main/onionController.ts:342-358 | an enqueue keeps the accounts, and a refused one changes nothing |
| `InboxProtocol.CursorProtocol` | src/main/onionController.ts:466-492 | over every run that keeps the entry, told by what arrived: items are seen in index order, once, each with the id, time, sender and envelope it was given; unseen ones up to the cursor had expired by their own time to live, or 7 days; later ones wait at their index or had expired |
| `InboxProtocol.RunKeeps` | src/main/onionController.ts:336-382 | absolute indices never change: what was accepted and seen is only ever extended |
| `InboxProtocol.PollAdvances` | src/main/onionController.ts:478-490 | an answered poll brings the first item the client has not passed, if there is one |
| `InboxProtocol.CleanupMayDiscardIff` | src/main/onionController.ts:371-381 | a cleanup can lead to an item discarded unseen and unexpired exactly if it deletes the entry of a client that holds a cursor |
| `InboxProtocol.ForgottenDeviceLosesItem` | src/main/onionController.ts:375-377 | after a deletion, any cursor held discards the next item unseen |
| `InboxProtocol.RunStoresAsGiven` | src/main/onionController.ts:336-340 | over any run, the item accepted at index i has the id, time, sender and envelope of the i-th accepted arrival, and expires at its time plus its time to live, or 7 days |
| `InboxOutcomes.EnqueueOutcome` | src/main/onionController.ts:329-359 | an item is accepted exactly if it waits already or fits within 4096 items and 64 MiB in all, 2048 items and 32 MiB for the device; then it is last, and charged |
| `InboxOutcomes.PollRemoves` | src/main/onionController.ts:472-481 | a poll removes exactly the items up to the index it names; the rest keep their indices |
| `InboxOutcomes.PollAnswersPage` | src/main/onionController.ts:474-491 | the page is the first of what is left, as many as the limit between 1 and 50 allows, with the index of its last item, or the client's own cursor if empty |
| `InboxOutcomes.CleanupOutcome` | src/main/onionController.ts:371-382 | a device keeps its first unexpired item and all behind it; it goes exactly if it has none |
| `Ratchet.Conversation.NextSendKey` | src/crypto/ratchet.ts:126-137 | the key, index and advanced state of a send |
| `Ratchet.Conversation.TryRecvKey` | src/crypto/ratchet.ts:236-271 | a receive succeeds exactly for an index in the window, a fraction rounded up, and otherwise leaves the state |
| `Ratchet.Conversation.DeriveRecvKeyAtIndex` | src/crypto/ratchet.ts:79-110 | the key at the target index, a fraction rounded up, exactly when it is in the window |
| `Ratchet.RunAdvances` | src/crypto/ratchet.ts:126-137 | in every run the chain key is the initial one advanced by sends plus receives |
| `Ratchet.AgreementIff` | src/crypto/ratchet.ts:236-271 | a message in the window gets its sender's key exactly if the sender had received as many as the receiver has now sent |
| `Ratchet.OneWayAlwaysAgrees` | src/crypto/ratchet.ts:236-271 | one-way traffic always agrees, with any skips in the window |
| `Ratchet.CrossingDisagrees` | src/crypto/ratchet.ts:126-137 | if both send first, neither derives the other's key |
| `Ratchet.ReceivedIndexIsSpent` | src/crypto/ratchet.ts:244-246 | an index once received past is never in the window again |
| `Ratchet.WindowByNumbers` | src/crypto/ratchet.ts:79-110 | the window reaches from the next index to maxSkip past it, both included, fractions too |
| `FrameStreams.ChunkingIsInvisible` | src/main/nativeWorkerClient.ts:136-154 | for any bytes, how they are cut into data events makes no difference |
| `FrameStreams.ConsumeResumes` | src/main/nativeWorkerClient.ts:136-154 | consuming can stop anywhere and resume |
| `Framing.FramesRoundTrip` | src/main/nativeWorkerClient.ts:136-154 | frames cut into any data events come out as those frames, in order, nothing left over |
| `Framing.EncodedLayout` | src/main/nativeWorkerClient.ts:87-108 | a frame is the two lengths, most significant byte first, then header and body; none above 1 MiB of header or 32 MiB of body |
| `Framing.EveryByteAccountedFor` | src/main/nativeWorkerClient.ts:136-154 | frames taken and buffer kept are the bytes received, and no whole frame is held back |
| `Framing.WriteResponse` | native/nkc-worker/main.go:230-249 | the worker writes the frame's encoding up to where a write fails, nothing after that, and nothing when over the limits |
| `Framing.CutAnywhereReadsWhole` | src/main/nativeWorkerClient.ts:136-154 | wherever the stream is cut, the application reads exactly the frames that got through whole |
| `Framing.RestartReadsIff` | src/main/nativeWorkerClient.ts:136-139 | a worker started again is read exactly if its predecessor left nothing in the buffer |
| `Framing.RequestFrame` | src/main/nativeWorkerClient.ts:87-108 | the application's encoding of a request, refused over either limit |
| `Framing.ReadRequests` | native/nkc-worker/main.go:270-305 | the frames the worker reads from a stream, and whether an invalid one stopped it |
| `Framing.RequestsRoundTrip` | native/nkc-worker/main.go:270-291 | requests written are the requests read, up to where the stream is cut |
| `WorkerClient.Client.HandleData` | src/main/nativeWorkerClient.ts:136-154 | the frames of buffer and chunk are handled in order, the rest kept, an oversized frame kills the worker |
| `WorkerClient.Client.HandleFrame` | src/main/nativeWorkerClient.ts:156-170 | a frame settles the waiting call it names, and nothing else |
| `WorkerClient.CallsSettleOnce` | src/main/nativeWorkerClient.ts:43-59 | over calls, data, timeouts, write errors and exits, every call waits or is settled, once |
| `WorkerClient.FirstFrameAnswers` | src/main/nativeWorkerClient.ts:156-170 | a waiting call is settled by the first frame that names it: resolved with it exactly if its header says ok, otherwise rejected with its error or the default one |
| `WorkerClient.ResolvedOnlyByOk` | src/main/nativeWorkerClient.ts:43-59 | over any run, a call is only ever resolved with a frame that names it and says ok |
| `Scheduler.PlanSchedule` | native/nkc-worker/scheduler.go:54-91 | the plan computed from the eligible, sorted and cut items |
| `Scheduler.PlanIsOptimal` | native/nkc-worker/scheduler.go:62-81 | with high and normal priorities the plan is the first batch of the stable order of the comparator; what that order is, `SchedulerOrder.PlanByFields` says |
| `SchedulerOrder.PlanByFields` | native/nkc-worker/scheduler.go:54-91 | by the items' fields: the plan picks those that can go, high before normal, then by next attempt, creation and position; what can go and is left out comes after a full batch |
| `SchedulerOrder.HighGoFirst` | native/nkc-worker/scheduler.go:69-81 | if a normal item is picked, every high one that can go is picked and stands before it |
| `SchedulerOrder.PolicyByMode` | native/nkc-worker/scheduler.go:32-36 | each mode's attempts, first delay, longest delay and jitter; other modes have the last one's |
| `SchedulerOrder.NextAttemptByJitter` | native/nkc-worker/scheduler.go:45-52 | the next attempt at both ends and the middle of the jitter, the delay doubling per attempt up to the longest |
| `Scheduler.ComparatorIsOrderIff` | native/nkc-worker/scheduler.go:69-78 | the comparator is a strict weak order exactly without a tangled third priority |
| `Scheduler.NextAttemptBounds` | native/nkc-worker/scheduler.go:45-52 | the next attempt is in the future, between the jittered delay's lower end and the longest delay |
| `DeliveryScheduler.Loop.Tick` | src/delivery/deliveryScheduler.ts:64-238 | the outbox, busy ids and sends after a tick, with others' changes between its steps |
| `DeliveryScheduler.Loop.Deliver` | src/delivery/deliveryScheduler.ts:131-231 | one planned record: skipped, abandoned when the store throws, or recorded, sent and released |
| `DeliveryRuns.TickKeeps` | src/delivery/deliveryScheduler.ts:103-170 | in one tick each record is sent at most once, and only before its expiry |
| `DeliveryRuns.SendsAreBounded` | src/delivery/deliveryScheduler.ts:64-170 | over any run, across modes and ack timeouts, no record is sent more than 15 times |
| `DeliveryRuns.BusyIff` | src/delivery/deliveryScheduler.ts:138-154 | over any run, an id is left marked busy exactly if some tick's recording of its attempt threw |
| `DeliveryRuns.DeliverAllIff` | src/delivery/deliveryScheduler.ts:131-162 | a plan sends exactly the records it gets to: planned, listed, not busy, unexpired, with no throw before or at them |
| `DeliveryRuns.BusyIsNeverSentAgain` | src/delivery/deliveryScheduler.ts:132 | an id left marked busy is never sent again |
| `DeliveryAcks.AckedIsNeverSentAgain` | src/delivery/deliveryScheduler.ts:64-101 | a record acknowledged between ticks is never sent again, over any run |
| `DeliveryAcks.AckStaysIff` | src/delivery/deliveryScheduler.ts:84-92 | an acknowledgement that has come by any point of a tick, the last word on its record, stays exactly if the point is not between the timed-out listing and the requeue |
| `DeliveryAcks.SentAfterAckIff` | src/delivery/deliveryScheduler.ts:103-162 | the record is sent after it exactly if it came in that window or after the candidate listing, and the rest of the plan gets to the record |
| `DeliveryAcks.AckIsFinalIff` | src/delivery/deliveryScheduler.ts:64-162 | it is final, over every later run, exactly outside both windows |
| `DeliveryAcks.AckedCandidateIsSent` | src/delivery/deliveryScheduler.ts:103-162 | a tick in which an acknowledged candidate is sent |
| `DeliveryAcks.LateAckIsOverwritten` | src/delivery/deliveryScheduler.ts:84-92 | ticks in which an acknowledgement is overwritten and the record becomes a candidate again |
| `DeliveryOutcomes.PreparedOutcome` | src/delivery/deliveryScheduler.ts:82-101 | by fields: records with a deadline passed are PENDING and due now, others as they were, but for acknowledgements and removals |
| `DeliveryOutcomes.SweptIff` | src/delivery/deliveryScheduler.ts:82 | the sweep takes away exactly the records that have expired unacknowledged |
| `DeliveryOutcomes.SentOutcome` | src/delivery/deliveryScheduler.ts:148-231 | what a tick sends was listed as due; still there and unacknowledged, it is IN_FLIGHT with deadline now plus the ack timeout exactly if its send ended ok, otherwise its status and deadline are as before; attempt and next attempt are recorded |
| `DeliveryOutcomes.UnsentOutcome` | src/delivery/deliveryScheduler.ts:103-231 | a record not sent is as it was listed, acknowledged, or gone |
| `DeliveryOutcomes.SentOkWaitsForDeadline` | src/delivery/deliveryScheduler.ts:64-170 | over any run, a record sent ok is not sent again in any tick before its deadline |
| `DeliveryOutcomes.FailedWaitsForNextAttempt` | src/delivery/deliveryScheduler.ts:64-231 | over any run, a record whose send failed or threw is not sent again before its next attempt |
| `DeliveryOutcomes.ShownIff` | src/delivery/deliveryScheduler.ts:103-117 | the planner is shown exactly the records due with fewer than four batches due before them in the listing |
| `DeliveryOutcomes.DueIsSentIff` | src/delivery/deliveryScheduler.ts:103-162 | with no throw and at most a batch listed, a tick sends exactly the records that are due, not busy and have attempts left, if the planner answers |
| `CanonicalJson.CanonicalDecidesEquality` | src/crypto/canonicalJson.ts:10-23 | trees canonicalize alike exactly if they differ only in key order, `__proto__` properties left out |
| `CanonicalJson.CanonicalIsIdempotent` | src/crypto/canonicalJson.ts:10-23 | without `__proto__`, canonicalizing again changes nothing, and equality is equality up to key order |
| `CanonicalJson.KeepsMeaningIff` | src/crypto/canonicalJson.ts:16-20 | canonicalization keeps a tree's meaning exactly if it has no `__proto__` property |
| `CanonicalJson.AssignOrdered` | src/crypto/canonicalJson.ts:16-20 | assigning sorted keys lands them in JavaScript's enumeration order |
| `DeviceRegistry.Registry.UpdateFromRoleEvent` | src/devices/deviceRegistry.ts:86-108 | the entry is replaced exactly by a newer epoch, or the same epoch and no earlier time |
| `DeviceRegistry.FoldIsLatest` | src/devices/deviceRegistry.ts:86-108 | a device's entry is that of a latest event about it |
| `DeviceRegistry.LastLatestDecides` | src/devices/deviceRegistry.ts:86-108 | of a device's latest events the last to arrive decides role, epoch and time, and when it was seen |
| `DeviceRegistry.Converges` | src/devices/deviceRegistry.ts:86-108 | any order and repetition of the same events gives the same epoch and time, and the same role unless latest events disagree |
| `DeviceRegistry.ConvergesIff` | src/devices/deviceRegistry.ts:86-108 | every arrival order agrees exactly if the latest events share one role |
| `StableSort.SortIsStable` | native/nkc-worker/queue.go:487 | the library sort: a sorted rearrangement that keeps ties in order |
| `StableSort.StableSortIsUnique` | native/nkc-worker/scheduler.go:69-78 | a stable sort has one result |

## Left out

- ReceiveRuns.CrashSafety: does not cover the removals inside finalize and abort, whose windows `ReceiveLimits.FinalizeIsSafeIff` and `ReceiveLimits.AbortIsSafeIff` state exactly.
- ReceiveRuns.RunKeeps: takes an existing journal to be readable; `ReceiveLimits.UnreadableJournalIsSafeIff` states what happens otherwise.
- ReceiveProgress.TransferGetsThrough: starts without a journal and without a longer part file left over; `ReceiveTransfer.InitLength` states when that matters.
- Receive: several transfers at once (their paths are disjoint), base64 transport of chunks, and file locking.
- QueueCrashes.SavedOutlivesKills: from a backup alone, leaves out the failing rename and the kill that `QueueCrashes.SaveKeepsIff` and `QueueCrashes.KillKeepsIff` show to lose everything.
- QueueSpec.RetryDelay: failure texts are classified outside the model, as permanent or not and a code.
- Queue: route normalization is a parameter, and migration of the older queue format is not part of this model.
- Queue: IN_FLIGHT messages left by a failed save or a kill stay so; no liveness is claimed for them.
- InboxProtocol.CursorProtocol: one client a device, as the loopback route has; rate limiting and request parsing are left out.
- Ratchet: version 2, with its Diffie-Hellman steps and rotation, whose agreement the code does not establish.
- WorkerClient.CallsSettleOnce: call ids are taken to be fresh, as random UUIDs; JSON parsing is a parameter.
- Scheduler.NextAttemptBounds: delays are real numbers, so double rounding is not modelled.
- DeliveryScheduler.Loop.Tick: takes the store's calls other than the attempt's update not to throw; logging is left out.
- DeliveryOutcomes.DueIsSentIff: at most a batch is listed and no update throws; beyond that `DeliveryOutcomes.ShownIff`, `SchedulerOrder.PlanByFields` and `DeliveryRuns.DeliverAllIff` state what is shown, picked and sent.
- DeliveryRuns.TickKeeps: the store lists each record at most once, in any order; new records start with no attempts and an unused id.
- CanonicalJson: text and UTF-8 encoding of the canonical tree, and prototypes other than by the dropped property.
- DeviceRegistry: conflict detection, listeners and storage of the registry.
- User interface, IPC wiring, sockets, Tor processes and timers.
