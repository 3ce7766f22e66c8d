# Offline messaging and snapshots of a Tox core, modelled in Dafny

This project models the offline-messaging engine of a Go Tox core (`async/`) and its binary snapshot
codec (`toxcore_persistence.go`), and proves what they keep over every run and every input.
`dafny verify dfyconfig.toml` checks all of it.

| files | what they model |
|---|---|
| `Common`, `BigEndian`, `Bits`, `Grouping` | shared values, the order-preserving filter, big-endian integers, bitwise operations, grouping a list into indexes |
| `Wal` | the write-ahead log: framed, checksummed records in a byte file, and the recovery that reads them back |
| `Epochs`, `StoreSpec`, `Storage`, `StorageRuns` | the message store: two tables, their indexes, expiry, epochs, limits, replay |
| `CrashRecovery` | store and log together: every run with its checkpoints, every byte at which a crash may cut the file |
| `Pending`, `PendingProgress` | messages waiting for pre-keys, as a protocol of concurrent senders, and the manager object; what wakes a waiting sender, and that its messages are then sent |
| `PreKeyPool` | the sender's pool of one-time keys: merging, consumption, rate limit |
| `PreKeySpec`, `PreKeyReuse`, `PreKeyStore` | the receiver's bundles: as values over whole runs, when a key that left can leave again, and as heap objects whose keys are wiped in place |
| `SnapshotSpec`, `Snapshot` | the snapshot format as a list of fields, the printer, and the offset-driven reader |
| `Lamport` | the logical clock: compare-and-swap loops of many callers, and causality across processes |
| `NodeSelection` | choosing storage nodes by XOR distance |
| `Erasure` | splitting, reassembling and decoding shards |
| `Contracts` | that the contracts assumed of foreign code can be met |

How the pieces are modelled:

- A store is its messages in arrival order (`arrivals`, `obfArrivals`, ghost fields). `Filed` and `FiledObf`
  say that the maps and indexes are exactly the table and the grouping of that list. Methods are proved
  against functions of the list, and runs are folds of those functions.
- Code under one mutex is one atomic step. `Pending` and `Lamport` interleave such steps arbitrarily.
- Clocks, random identifiers, generated keys, map iteration order, the success of a disk write or of a send,
  and the result of a signature check are parameters or arbitrary choices.
- The JSON codec, the CRC, the message serializer and the Reed-Solomon code are function values constrained by a
  `Valid()` contract: encodings round-trip, an encoding cut short does not decode, any `k` shards
  determine a code word. Nothing is assumed about the size of an encoding. `Contracts.EnvironmentExists` and
  `Contracts.CodeExists` give values that meet these contracts.

Where a promise does not hold of the code, a lemma gives the exact condition, and where that is not an
example by itself, another gives an input or a schedule on which it fails:

- The comment on `Checkpoint` (`async/wal.go:399`) says that it truncates committed entries; the code writes a
  marker, drops no record and saves no state, and recovery skips everything before the marker. After a later expiry
  pass the recovered store equals the live one exactly when no unexpired live message was stored before the last
  checkpoint (`CrashRecovery.ReplayRestoresLive`); right after a checkpoint, exactly when there are no live messages
  (`CrashRecovery.CheckpointedRestoresIffEmpty`).
- The log writer accepts records that the reader refuses. A log reads back in full exactly when no record
  exceeds the reader's limit (`Wal.LogReadsBack`).
- A legacy message stored under an identifier in use leaves table and index in disagreement
  (`StoreSpec.StoreAgreesIffFresh`).
- The legacy capacity check counts legacy messages only: an accepted legacy store exceeds the capacity exactly when the
  total had reached it, and under every capacity some run reaches twice of it (`StorageRuns.TotalAfterStore`,
  `StorageRuns.TotalCanReachTwiceCapacity`).
- The pending list stays in queueing order while at most one sender holds messages for a friend; whenever two
  do, some schedule disorders it (`Pending.RunKeepsOrder`, `Pending.TwoHoldersCanDisorder`).
- A backup restored for an unknown peer makes a used identifier usable again exactly when the bundle still offered
  that identifier at the moment of the export (`PreKeySpec.RestoreInRunAcceptsIffOffered`). A backup from before the
  use always did, unless an import or a restore brought the key in since; one from after the use, with no restore
  since, did only if the identifier repeats, and right after the use exactly then (`PreKeySpec.RestoreReopensIff`).
- A one-time private key can leave the store twice: handing out removes its record, so an older backup merged later
  brings it back. A key that left can leave again exactly when a later merge carries its identifier while no
  key has it, or a restore goes back to before; after a check-and-mark the record stays, and only a restore can
  (`PreKeyReuse.IdLeavesAgainIff`, `PreKeyReuse.LeavesAgainIff`, `PreKeyReuse.TakenKeyLeavesTwice`).
- The used-count cleanup test drops exactly the exhausted bundles, unless an import has merged keys in
  (`PreKeySpec.CleanupDropsOnlyExhausted`, `PreKeySpec.MergedKeysCanBeDropped`).
- String lengths and the friend count are truncated when printed, an all-zero public key reads as none, and a time
  outside 64-bit nanoseconds, the zero time included, wraps around. A save comes back exactly when it is
  `Representable` (`SnapshotSpec.RoundTripIffRepresentable`).
- The clock's comment promises strict order for causally related events; it is strict exactly below the
  64-bit maximum (`Lamport.CausalityStrictIffUnsaturated`), so from new clocks in every run of fewer than 2^64 events
  (`Lamport.NewClocksOrderStrictly`).
- Node selection depends on map order exactly when nodes that hash alike have different addresses, and
  hashes do collide (`NodeSelection.OrderIndependentIff`, `NodeSelection.SwappedWordsCollide`).
- Shards without data are counted as available: the count is exact if and only if each of them follows a shard with data
  for its slot (`Erasure.CountExactIffBlanksCovered`, `Erasure.EmptyShardsOvercount`).

## Model

| member | source | states |
|---|---|---|
| Wal.ReadFrame | async/wal.go:211-256 | Whatever follows it, a record is read back as itself with exactly its bytes consumed if its payload is within 10 MiB and its checksum is that of its own encoding with the checksum cleared, and is refused otherwise |
| Wal.ReadTornFrame | async/wal.go:211-256 | No strict prefix of a record of any size is read as a record |
| Wal.CutLogReadsPrefix | async/wal.go:184-256 | Cutting the file at any byte and reading it back gives exactly the whole entries before the cut, in order, up to the first record the reader refuses |
| Wal.LogReadsBack | async/wal.go:320-345 | An uncut file reads back up to its first oversized record, and in full if and only if there is none |
| Wal.TrackExact | async/wal.go:462-499 | With increasing numbers, the maps that recovery builds lose nothing: committed set, checkpoint, and exactly the pending entries |
| Wal.TrackKeys | async/wal.go:489-499 | Whatever was read, entries are filed under their own numbers |
| Wal.SortedSurvivorsAreUncommitted | async/wal.go:503-515 | Any increasing listing of the surviving map entries equals the in-order filter of the log |
| Wal.LogStepKeeps | async/wal.go:302-430 | Logging, commit, checkpoint and reopening from the bytes keep the readable part in order and at most at the counter, oversized records included; reopening changes nothing while every record can be read |
| Wal.LogRunKeeps | async/wal.go:158-430 | The same over every run that commits only numbers handed out |
| Wal.RecoveryIsInOrderFilter | async/wal.go:433-515 | For every such run, whatever it logged, map-then-sort recovery of the bytes is the plain in-order filter of the readable part: pending, not committed, above the last checkpoint |
| Wal.CheckpointForgets | async/wal.go:400-430 | Right after a checkpoint there is nothing to recover |
| Wal.CommitTakesOut | async/wal.go:361-387 | A commit takes out of recovery the entries with its number, and nothing else |
| Wal.UncommittedIsOutstanding | async/wal.go:302-515 | For every run whose records the reader takes, the in-order filter of the log is what the run left outstanding: each entry appended, in order, unless its number was committed or a checkpoint came after it |
| Wal.RecoveryReturnsOutstanding | async/wal.go:433-515 | Map-then-sort recovery of the bytes returns exactly that |
| BigEndian.PutAt | async/wal.go:320-345 | Each printed byte is the number's digit to base 256, the most significant first |
| BigEndian.GetFirst | async/wal.go:211-256 | The first byte read counts most |
| Wal.WriteAheadLog.constructor | async/wal.go:107-181 | Opening resumes the counter at the largest readable number and counts the readable entries; a torn tail still leaves the log recoverable |
| Wal.WriteAheadLog.ScanForMaxSequence | async/wal.go:184-208 | The loop returns the maximum sequence and the number of readable entries |
| Wal.WriteAheadLog.WriteEntry | async/wal.go:320-345 | Appends one frame; a well-ordered file stays so when a pending entry's number is new |
| Wal.WriteAheadLog.LogEntry | async/wal.go:302-318 | Refused when closed; otherwise one pending entry with the next number is appended, and order holds unless the 64-bit counter wraps |
| Wal.WriteAheadLog.Commit | async/wal.go:361-387 | Refused when closed; otherwise appends a commit mark and keeps the log valid |
| Wal.WriteAheadLog.Checkpoint | async/wal.go:400-430 | Refused when closed; otherwise appends a marker with the current number and resets the entry count |
| Wal.WriteAheadLog.ReadAllEntries | async/wal.go:462-499 | The loop builds the tracking maps of exactly the readable entries |
| Wal.WriteAheadLog.Recover | async/wal.go:433-458 | On any file, returns exactly the surviving entries in increasing order; when the readable part is in order, its in-order filter |
| Wal.WriteAheadLog.ValidIsOpen | async/wal.go:433-458 | A log in good order can be recovered from, and reads back up to its first oversized record |
| Wal.FilterUncommitted | async/wal.go:503-515 | Whatever the map order, returns exactly the surviving entries in increasing order |
| Wal.SortBySequence | async/wal.go:503-515 | Sorts entries with distinct numbers without losing or adding any |
| Epochs.EpochManager.EpochContains | async/epoch.go:72-107 | From genesis on, a time lies between the start of its epoch and the start of the next |
| Epochs.EpochManager.EpochMonotone | async/epoch.go:72-86 | Epochs never run backwards under a clock that does not |
| Epochs.EpochManager.GetRecentEpochs | async/epoch.go:112-140 | Lists exactly the epochs that validation accepts, each once, newest first |
| StoreSpec.FiledAgrees | async/storage.go:242-271 | A table and index that file one list agree: each message exactly once under its recipient, nothing else indexed, no empty list |
| StoreSpec.FiledObfAgrees | async/storage.go:642-668 | The same for pseudonym and epoch, with no empty list or inner map |
| StoreSpec.StoreAgreesIffFresh | async/storage.go:242-271 | Storing keeps table and index in agreement if and only if the drawn identifier is not in use |
| Storage.MessageStorage.Fresh | async/storage.go:176-201 | A new store is empty, with dynamic limits on |
| Storage.MessageStorage.StoreMessage | async/storage.go:242-337 | The refusals, in order, and that a refusal changes nothing; otherwise the message is logged first, then added to the table and at the end of its recipient's list; maps and index still agree when the identifier is fresh |
| Storage.MessageStorage.DeleteMessage | async/storage.go:364-421 | Only the recipient may delete; the deletion is logged first, then exactly that message leaves both maps |
| Storage.MessageStorage.RemoveFromRecipientIndex | async/storage.go:410-493 | Splicing removes exactly the first message with this identifier and drops an emptied list, repeated identifiers included |
| Storage.MessageStorage.SpliceFromIndex | async/storage.go:1205-1219 | The same where list and emptied entry belong to different keys, as in the replay of a deletion |
| Storage.MessageStorage.CleanupExpiredMessages | async/storage.go:427-528 | Keeps exactly the legacy messages at most 24 hours old and the obfuscated ones not past their expiry time, in order, indexes agreeing, and counts the removed ones |
| Storage.MessageStorage.FindExpired | async/storage.go:451-459 | Lists the identifiers of exactly the messages more than 24 hours old, each once |
| Storage.MessageStorage.RemoveAll | async/storage.go:462-476 | Removing them leaves exactly the filter of the arrival list |
| Storage.MessageStorage.FindExpiredObfuscated | async/storage.go:503-511 | Lists the identifiers of exactly the expired obfuscated messages, each once |
| Storage.MessageStorage.RemoveAllObfuscated | async/storage.go:514-528 | Removing them leaves exactly the filter of the arrival list, indexes agreeing |
| Storage.MessageStorage.StoreObfuscatedMessage | async/storage.go:569-668 | The refusals, in order (epoch, expiry, size, total capacity, pseudonym limit, duplicate); otherwise appended and indexed under pseudonym and epoch |
| Storage.MessageStorage.CountForPseudonym | async/storage.go:618-637 | Summing the epoch lists counts the pseudonym's messages |
| Storage.MessageStorage.DeleteObfuscatedMessage | async/storage.go:714-759 | Succeeds if and only if the message exists under that pseudonym, and removes exactly it |
| Storage.MessageStorage.RemoveFromPseudonymIndex | async/storage.go:531-565 | Splicing removes the first message with this identifier, then an emptied epoch, then an emptied pseudonym |
| Storage.MessageStorage.RetrieveMessagesByPseudonym | async/storage.go:673-704 | Returns the requested epochs' lists one after the other; not found if and only if they are all empty |
| Storage.CollectedIsFilter | async/storage.go:673-704 | Over distinct epochs that is the filter of the whole store, each message once |
| Storage.MessageStorage.RetrieveRecentObfuscatedMessages | async/storage.go:708-711 | Returns exactly the pseudonym's messages of the current and the three previous epochs |
| Storage.MessageStorage.RecoverFromWal | async/storage.go:1112-1138 | From any log file, replays exactly what recovery returns onto the maps, counts it and writes a checkpoint; if the entries are in order and could have been written by the store, table and index agree |
| Storage.MessageStorage.ReplayEntries | async/storage.go:1141-1149 | The loop is the fold of the single replays on the maps, for any entries; sound entries keep table and index in agreement |
| Storage.MessageStorage.ReplaySingleEntry | async/storage.go:1152-1221 | For an entry of any content: a store files the decoded message under the entry's identifier and recipient unless present, a delete splices and cleans up, anything else is skipped; a sound entry keeps table and index in agreement |
| Storage.MessageStorage.CleanupOldEpochs | async/storage.go:899-912 | Keeps exactly the messages at most three epochs behind the current one, indexes agreeing |
| Storage.MessageStorage.CleanupPseudonym | async/storage.go:915-947 | One pseudonym's share of that cleanup |
| StorageRuns.RunWithinLimits | async/storage.go:286-295 | In every reachable state each kind is within the capacity, every recipient and pseudonym within the limit, and the total within twice the capacity |
| StorageRuns.TotalAfterStore | async/storage.go:618-637 | An accepted obfuscated store leaves the total within the capacity; an accepted legacy store does so if and only if the total was below it |
| StorageRuns.TotalCanReachTwiceCapacity | async/storage.go:286-295 | Under every capacity, limit and clock some run from the empty store reaches twice the capacity |
| StorageRuns.LegacyAcceptedIff | async/storage.go:242-295 | A legacy message is stored if and only if it has 1 to 1388 bytes, there is room and its recipient is below the limit; each error names the first of these that fails |
| StorageRuns.ObfAcceptedIff | async/storage.go:589-646 | An obfuscated message is stored if and only if its epoch is the current or one of the three before, it has not expired, has 1 to 1388 bytes, both kinds leave room, its pseudonym is below the limit and its identifier is new; each error names the first that fails |
| StorageRuns.StepRetains | async/storage.go:569-947 | After any call an obfuscated message is stored if and only if it was and the call does not remove it, or the call stores it; identifiers stay unique |
| StorageRuns.RunRetains | async/storage.go:569-947 | After every run from the empty store, resubmitted identifiers included, a message is stored if and only if some call accepted it and no later call removes it |
| StorageRuns.AcceptedIsRetrievable | async/storage.go:569-947 | After every run up to now, a message is in recent-epoch retrieval if and only if it is at most three epochs old and was accepted by a call after which it was not deleted and no expiry pass ran past its time |
| StorageRuns.AcceptedStays | async/storage.go:642-711 | An accepted message stays retrievable until it is deleted, expires or is more than three epochs old, whatever else happens and however often its identifier is submitted again |
| StorageRuns.LegacyStepRetains | async/storage.go:242-528 | After any call a legacy message is stored if and only if it was and the call does not remove it, or the call stores it |
| StorageRuns.LegacyRunRetains | async/storage.go:242-528 | Over every run with new identifiers a legacy message is stored if and only if some call stored it, after which its recipient did not delete it and no expiry pass ran more than 24 hours after its timestamp |
| CrashRecovery.LiveIsStored | async/storage.go:242-528 | Under fixed limits the live messages of a run are exactly what the store holds after its calls, so its acceptance and retention theorems apply to them |
| CrashRecovery.RecoveryCountsAll | async/storage.go:1141-1171 | For every run the count that recovery reports is the number of entries since the last checkpoint |
| CrashRecovery.RefinesStep | async/storage.go:242-493 | Every call and every checkpoint keeps: live store = logged messages without what expiry removed; replay of the entries since the last checkpoint = logged messages without what was stored before it; both in order |
| CrashRecovery.RunRefines | async/storage.go:242-493 | The same over every run, with what expiry removed still expired later |
| CrashRecovery.RecoveryIsSinceCheckpoint | async/wal.go:462-515 | Recovery returns exactly the entries after the last checkpoint mark |
| CrashRecovery.ReplayRestoresLive | async/storage.go:1141-1221 | For every run with checkpoints anywhere, recovery replays exactly the entries since the last one: every later live message comes back in order, the only extras had expired, and after one later expiry pass the stores are equal if and only if no unexpired live message is older than the checkpoint |
| CrashRecovery.NoCheckpointRestoresAll | async/storage.go:1141-1221 | Without a checkpoint every live message comes back in order; one later expiry pass makes the stores equal, and without expiry they are equal at once |
| CrashRecovery.PrefixWithLog | async/storage.go:325-401 | Every length of the log is reached after some prefix of the run |
| CrashRecovery.CrashAnywhere | async/wal.go:184-256 | After a cut at any byte, and with records too large to read, recovery gives the state after some prefix of the run: never a gap or a reordering; the whole run if nothing was cut and every record fits |
| CrashRecovery.CheckpointedRestoresIffEmpty | async/wal.go:400-430 | Right after a checkpoint, recovery restores the live messages if and only if there are none |
| CrashRecovery.CutLogIsSound | async/wal.go:433-486 | What such a log yields is in order and can be replayed |
| CrashRecovery.Restart | async/storage.go:1112-1138 | The opened log and new store, run on a cut file, end in such a prefix state with table and index agreeing |
| Pending.StepMoves | async/manager.go:252-285 | Each step takes a queued message from its place to one determined place |
| Pending.StepConserves | async/manager.go:941-1018 | Each step keeps every queued message in exactly one place: pending, held by one sender, sent or discarded |
| Pending.RunConserves | async/manager.go:941-1018 | The same over every interleaving |
| Pending.EveryInterleaving | async/manager.go:195-285 | From the initial state every interleaving conserves messages and keeps channels sound |
| Pending.OnlyClearOrStopDiscards | async/manager.go:407-423 | Only clearing a friend or a stop seen while waiting discards a message; the records only grow |
| Pending.StepChannels | async/manager.go:886-918 | Each step keeps registered channels distinct, allocated and open |
| Pending.RunClosesOnce | async/manager.go:910-918 | In every run a signal or stop closes a channel that is still open, so none is closed twice |
| PendingProgress.ClosedIff | async/manager.go:910-918 | A step closes a channel if and only if it signals the friend the channel is registered for, or stops the manager whose stop channel it is |
| PendingProgress.RegisteredIff | async/manager.go:886-961 | A channel is registered when its friend comes online without one, and stays until a signal, the friend's removal or a timeout; coming online again keeps it |
| PendingProgress.RunningIff | async/lifecycle.go:6-15 | The manager runs from a start to the next stop; exactly the start of a stopped manager makes a stop channel, new and open |
| PendingProgress.RunWaitsSound | async/manager.go:964-1017 | In every run a sender waits on a channel registered for no other friend and different from every stop channel |
| PendingProgress.WakesIffSignalled | async/manager.go:964-979 | However others act, a waiting sender can find the pre-keys ready if and only if its channel was closed before, or its friend was signalled since while the channel was registered |
| PendingProgress.SeesStopIffStopped | async/manager.go:964-979 | It can see a stop if and only if the manager it waits under was stopped before or since |
| PendingProgress.StartsSendingIff | async/manager.go:948-1017 | A sender starts to send if and only if its pre-keys suffice or its wait ends with its channel closed; without pre-keys and without a channel its batch goes back in front |
| PendingProgress.ReadyBatchIsSent | async/manager.go:981-1017 | A batch whose pre-keys suffice can be sent in full and in order without waiting |
| PendingProgress.SignalDelivers | async/manager.go:910-979 | A signal is never lost: whatever others do afterwards, the sender can go on, woken or by its timer, and its batch can be sent in full and in order |
| PendingProgress.StopReaches | async/manager.go:964-979 | A stop reaches every sender waiting under the running manager, whatever others do afterwards |
| PendingProgress.OnlineThenSignalDelivers | async/manager.go:886-1017 | Once the friend has come online and a sender waits, a signal while its channel is registered lets everything that was queued be sent in order |
| Pending.StepKeepsOrder | async/manager.go:941-1018 | While one sender holds messages for a friend, held then pending messages stay in queueing order |
| Pending.RunKeepsOrder | async/manager.go:941-1018 | The same over every run with one holder throughout |
| Pending.TwoHoldersCanDisorder | async/manager.go:941-997 | Whenever two senders hold messages for a friend, some continuation disorders the pending list |
| Pending.DisorderIsReachable | async/manager.go:1002-1018 | Such a schedule exists from the initial state |
| Pending.BatchIsRun | async/manager.go:982-997 | The batch loop is a run of single sends: successes recorded in order, failures back in front in order |
| Pending.AsyncManager.QueuePendingMessage | async/manager.go:278-285 | Appends at the end of the friend's list and changes nothing else |
| Pending.AsyncManager.TakeQueued | async/manager.go:1002-1012 | Takes the whole list and the channel to wait on in one step |
| Pending.AsyncManager.PrependPendingMessages | async/manager.go:941-945 | Puts a batch back in front of what was queued meanwhile |
| Pending.AsyncManager.ResolveTimedOutPreKeyWait | async/manager.go:948-961 | Proceeds if and only if the channel was closed meanwhile; otherwise the batch is re-queued; the channel is forgotten either way |
| Pending.AsyncManager.SendPendingBatch | async/manager.go:982-997 | Counts the successes and re-queues exactly the failures, in order |
| Pending.AsyncManager.WaitForPreKeyReady | async/manager.go:964-979 | Without a channel the batch goes back; otherwise, after whatever others did meanwhile, proceeds if and only if the channel was closed, re-queues on a timeout and drops the batch on a stop |
| Pending.AsyncManager.SendQueuedMessages | async/manager.go:1002-1018 | A whole send, with others acting arbitrarily during the wait, is a run of the protocol that leaves the sender holding nothing; counts the successes exactly |
| Pending.AsyncManager.SignalPreKeyReady | async/manager.go:910-918 | The friend's channel, if there is one, is closed and forgotten |
| Pending.AsyncManager.PrepareReadyChannel | async/manager.go:886-904 | Registers a new channel unless there is one |
| Pending.AsyncManager.Start | async/manager.go:195-232 | Makes a new stop channel unless already running |
| Pending.AsyncManager.Stop | async/lifecycle.go:6-15 | Closes the stop channel once |
| Pending.AsyncManager.ClearPendingMessagesForFriend | async/manager.go:407-423 | Drops the friend's list and channel and returns how many messages were dropped |
| PreKeyPool.UniqueSound | async/forward_secrecy.go:671-689 | Merging keeps each identifier once and loses none |
| PreKeyPool.MergeUniquePreKeys | async/forward_secrecy.go:671-689 | The loops compute the first occurrence of each identifier, in order |
| PreKeyPool.RunTracks | async/forward_secrecy.go:356-389 | Over every run the kept timestamps are the suffix of the whole history that can still matter |
| PreKeyPool.WindowCount | async/forward_secrecy.go:356-389 | Spaced consumptions never exceed the limit in any closed window |
| PreKeyPool.RateLimitHolds | async/forward_secrecy.go:356-389 | Over every run of exchanges and sends no closed window holds more than ten consumptions, although only a pruned suffix is kept |
| PreKeyPool.SendAcceptedIff | async/forward_secrecy.go:315-389 | After every run a send is let through if and only if it has 1 to 1372 bytes, at least twenty keys are left, and fewer than ten were consumed in the last five minutes |
| PreKeyPool.UsedInOrder | async/forward_secrecy.go:328-349 | Over every run the used keys followed by the pool are the keys received, in the order they were received |
| PreKeyPool.MergeAppendsNewcomers | async/forward_secrecy.go:671-689 | Merging keeps the pool as it is and appends the unknown identifiers, each once, in order |
| PreKeyPool.RunDistinct | async/forward_secrecy.go:328-349 | Pools have distinct identifiers, and no send leaves fewer than nineteen keys |
| PreKeyPool.ReuseNeedsExchange | async/forward_secrecy.go:489-507 | Two sends use the same identifier only if a verified exchange carrying it came in between |
| PreKeyPool.ForwardSecurityManager.ProcessPreKeyExchange | async/forward_secrecy.go:643-669 | Refuses an empty or unverified exchange, otherwise merges; other peers are untouched |
| PreKeyPool.ForwardSecurityManager.ConsumeForSend | async/forward_secrecy.go:315-389 | The refusals, in order; otherwise the first key is taken and the consumption recorded; other peers are untouched |
| PreKeyPool.ForwardSecurityManager.PruneBefore | async/forward_secrecy.go:360-365 | The loop drops exactly the leading timestamps before the cutoff |
| PreKeySpec.CheckAndMarkOnce | async/prekeys.go:604-641 | After a successful check-and-mark, no later one for that identifier succeeds while the bundle lives, even with repeated identifiers, removals and merged backups |
| PreKeySpec.ImportKeepsBurned | async/prekeys.go:817-834 | Importing any backup for a known peer leaves its used identifiers used |
| PreKeySpec.RestoreInRunAcceptsIffOffered | async/prekeys.go:751-815 | After any run, a backup exported at any point of it and imported for an unknown peer accepts an identifier if and only if the bundle offered it at that point |
| PreKeySpec.RestoreReopensIff | async/prekeys.go:751-815 | A backup from before a use re-opens the identifier unless an import or a restore brought the key in since; one from after it, with no restore since, does not unless the identifier repeats, and right after the use exactly then |
| PreKeySpec.RunKeepsSole | async/prekeys.go:604-641 | Without restores a used identifier that did not repeat is never offered again |
| PreKeySpec.MarkCounts | async/prekeys.go:543-565 | Marking moves one key from unused to the used count, or changes neither |
| PreKeySpec.TakeCounts | async/prekeys.go:209-303 | Handing out moves one key from unused to the used count, and does nothing when none is left |
| PreKeySpec.UsedCountExact | async/prekeys.go:160-303 | Over every run unused keys plus used count grow only by what merging imports add |
| PreKeySpec.StepPaired | async/prekeys.go:782-842 | If all keys of a bundle have material, so do all after any operation, whatever a merged backup holds |
| PreKeySpec.CleanupDropsOnlyExhausted | async/prekeys.go:644-661 | Without merging imports the used-count test drops exactly the bundles with no unused key |
| PreKeySpec.MergedKeysCanBeDropped | async/prekeys.go:644-661 | After a merge, handing out keys leads to a dropped bundle that still has as many unused keys as were merged in |
| PreKeySpec.ImportPersists | async/prekeys.go:782-842 | If the files agreed with the store before an import whose saves succeed, they do after it |
| PreKeyReuse.LeavesAgainIff | async/prekeys.go:209-303 | Over every run: once a key has left, a key of any given description can leave again if and only if another one was held, a later merge takes one in, or a later restore goes back to a backup that held one; every later release is such a case |
| PreKeyReuse.IdLeavesAgainIff | async/prekeys.go:604-641 | A key whose identifier does not repeat can leave again under it if and only if a later merge carries the identifier while no key has it, or a backup from before is restored; after a check-and-mark only a restore can bring it back |
| PreKeyReuse.HeldHasCause | async/prekeys.go:782-842 | A key held after the release was held besides the released one or let in again |
| PreKeyReuse.TakesInIdIff | async/prekeys.go:817-834 | A merge takes in a key with an identifier if and only if it carries one, unused and with material, while no key has it |
| PreKeyReuse.MergeHolds | async/prekeys.go:817-834 | A merge loses no unused key, and adds exactly those whose identifier is not present when their turn comes |
| PreKeyReuse.CanLeaveIffHeld | async/prekeys.go:209-230 | Handing out keys one after the other reaches a key if and only if the bundle holds it unused |
| PreKeyReuse.TakenKeyLeavesTwice | async/prekeys.go:817-834 | Every key, handed out and then merged back from an older backup, leaves a second time by check-and-mark |
| PreKeyStore.ClonePreKey | async/prekeys.go:594-601 | The copy has the same contents and a fresh key pair |
| PreKeyStore.PreKeyBundle.FindById | async/prekeys.go:604-616 | Finds the first key with the identifier |
| PreKeyStore.PreKeyBundle.MarkKeyAsUsedSecurely | async/prekeys.go:543-565 | The refusals, in order; otherwise that one stored key is wiped and flagged, all others keep their contents |
| PreKeyStore.PreKeyBundle.CheckAndMark | async/prekeys.go:604-641 | Returns a copy with the original private key while the stored one is wiped; nothing changes on refusal |
| PreKeyStore.PreKeyBundle.TakeAvailable | async/prekeys.go:209-230 | Hands out a copy of the first unused key; none available if and only if all are used |
| PreKeyStore.PreKeyBundle.ExtractAndProcess | async/prekeys.go:242-292 | The stored pair is wiped and its record removed while the returned copy keeps the private key |
| PreKeyStore.PreKeyBundle.RemoveKeyFromSlice | async/prekeys.go:295-303 | The loop removes exactly one position |
| PreKeyStore.PreKeyBundle.Export | async/prekeys.go:751-775 | The backup holds copies of exactly the unused keys and shares no key pair |
| PreKeyStore.PreKeyBundle.Adopt | async/prekeys.go:797-815 | An adopted bundle holds copies of exactly the keys with material and shares no key pair |
| PreKeyStore.PreKeyBundle.MergeFrom | async/prekeys.go:817-834 | Appends copies of the unused keys with new identifiers, in order, keeps all own keys and tells whether any was added, also when merged into itself |
| PreKeyStore.PreKeyStore.GeneratePreKeys | async/prekeys.go:160-206 | A full bundle of fresh unused keys replaces the peer's old one, also when the save fails; nothing changes when the random source fails |
| PreKeyStore.PreKeyStore.CheckAndMarkPreKeyUsed | async/prekeys.go:623-641 | One peer's bundle is marked, all others keep their contents; a failed save reports an error but the key stays used |
| PreKeyStore.PreKeyStore.GetAvailablePreKey | async/prekeys.go:209-230 | One peer's bundle loses its first unused key, all others keep their contents |
| PreKeyStore.PreKeyStore.ImportBundle | async/prekeys.go:790-840 | Adopts for an unknown peer, merges into a known one; all others keep their contents and nothing is shared with the caller; tells whether a save is called for |
| PreKeyStore.PreKeyStore.ImportPreKeys | async/prekeys.go:782-842 | A missing backup or another version is refused; otherwise the bundles are imported in order, all of them or up to and including the first whose save fails, also when the backup lists bundles of the store itself |
| PreKeyStore.PreKeyStore.CleanupExpiredBundles | async/prekeys.go:644-661 | Keeps exactly the bundles with fewer than 200 uses that are at most 30 days old, and counts the others |
| PreKeyStore.UnmergedSurvivesIff | async/prekeys.go:644-661 | A generated bundle, used in any way but never merged into, survives the cleanup if and only if it has an unused key and is at most 30 days old |
| SnapshotSpec.FieldsAreLocal | toxcore_persistence.go:86-153 | A successful read of any field list takes a prefix and depends on nothing after it |
| SnapshotSpec.ReadPrinted | toxcore_persistence.go:93-150 | Printed fields that fit are read back, whatever follows |
| SnapshotSpec.ReadPrintedFriends | toxcore_persistence.go:263-351 | Friend entries printed in any order are read back as the listed part of the map |
| SnapshotSpec.FriendsAreLocal | toxcore_persistence.go:263-351 | Reading n entries takes at least 50 bytes each and depends on nothing after them |
| SnapshotSpec.ParsePrinted | toxcore_persistence.go:36-83 | Every representable save, printed in any friend order at any time and followed by anything, parses back with exactly its bytes consumed |
| SnapshotSpec.ParsedIsRepresentable | toxcore_persistence.go:156-285 | Whatever the parser accepts is a representable save |
| SnapshotSpec.RoundTripIffRepresentable | toxcore_persistence.go:36-285 | A save comes back if and only if its strings have at most 65535 bytes, its public key is not all zero, it has fewer than 2^32 friends and their times are within 64-bit nanoseconds |
| SnapshotSpec.ParseIsLocal | toxcore_persistence.go:156-285 | Parsing takes a prefix and depends on nothing after it |
| SnapshotSpec.PrefixesRejectedIff | toxcore_persistence.go:93-173 | On every input, all strict prefixes are rejected if and only if the input is rejected or accepted with no byte left over |
| SnapshotSpec.TruncationRejected | toxcore_persistence.go:93-285 | Every strict prefix of a printed representable save is rejected |
| SnapshotSpec.OverlongNameMisread | toxcore_persistence.go:63-66 | A name of 65536 zero bytes is read as an empty name and no friends, with bytes left over |
| SnapshotSpec.Layout | toxcore_persistence.go:36-69 | The snapshot byte by byte: magic, version, reserved bytes, time, keys or zeros, nospam, texts with their lengths, status, friend count, friends |
| SnapshotSpec.FriendLayout | toxcore_persistence.go:68-80 | A friend entry byte by byte, its time modulo 2^64 |
| SnapshotSpec.OldVersionParses | toxcore_persistence.go:156-285 | A version 1 snapshot, which has no status, comes back with status 0 |
| Snapshot.MarshalBinary | toxcore_persistence.go:36-83 | The printer's output is the format's, in some order that lists every friend once |
| Snapshot.MarshalHead | toxcore_persistence.go:46-68 | Everything before the friends |
| Snapshot.MarshalFriend | toxcore_persistence.go:70-80 | One friend entry |
| Snapshot.SnapshotReader.ReadBytes | toxcore_persistence.go:127-135 | Truncated if and only if fewer bytes remain; otherwise those bytes, and the offset moves past them |
| Snapshot.SnapshotReader.ReadUint | toxcore_persistence.go:106-123 | The same for big-endian integers |
| Snapshot.SnapshotReader.ReadLengthPrefixedString | toxcore_persistence.go:138-148 | Agrees with the format's length-prefixed field, error cases included |
| Snapshot.SnapshotReader.UnmarshalHeader | toxcore_persistence.go:176-212 | Bad magic and unsupported version are refused in that order; otherwise the version is kept and flags and timestamp are skipped |
| Snapshot.SnapshotReader.UnmarshalKeyPair | toxcore_persistence.go:215-232 | 64 bytes, read as no key pair if the public half is all zero |
| Snapshot.SnapshotReader.UnmarshalSelfInfo | toxcore_persistence.go:235-260 | Nospam, name, message and, from version 2, status; older versions have status 0 |
| Snapshot.SnapshotReader.UnmarshalFriends | toxcore_persistence.go:263-285 | An impossible count is refused, otherwise the loop reads that many entries, later ones overwriting |
| Snapshot.SnapshotReader.UnmarshalFriendEntry | toxcore_persistence.go:318-336 | Agrees with the format's friend entry, error cases included |
| Snapshot.SnapshotReader.ReadFriendStrings | toxcore_persistence.go:340-351 | Name, message and signed timestamp |
| Snapshot.UnmarshalBinary | toxcore_persistence.go:156-173 | On every byte string, terminates in bounds with exactly the result the format defines |
| Snapshot.SaveAndLoad | toxcore_persistence.go:36-173 | Printing and parsing returns the save if and only if it is representable |
| Lamport.Apply | async/lamport.go:38-69 | The new value exceeds the clock and the received value, by one at most over the larger, or all are stuck at the maximum |
| Lamport.Linearizable | async/lamport.go:38-69 | Every interleaving of the compare-and-swap loops is a sequence of atomic operations in order of return |
| Lamport.ConcurrentCallsDistinct | async/lamport.go:38-69 | Two calls return increasing values, or both the maximum |
| Lamport.SwapSucceedsUnlessAnotherReturned | async/lamport.go:38-69 | The loops make progress: a caller that has loaded returns its operation's timestamp with the next swap unless another call returned in between |
| Lamport.HappensBeforeTransitive | async/lamport.go:16-18 | The modelled happens-before relation is transitive |
| Lamport.CausalityNeverReversed | async/lamport.go:38-69 | In every multi-process run causally related events get increasing timestamps, or both the maximum |
| Lamport.CausalityStrictIffUnsaturated | async/lamport.go:16-18 | The order is strict if and only if the earlier timestamp is below the maximum |
| Lamport.SaturatedClockTies | async/lamport.go:38-69 | A run in which a message and its receipt get the same timestamp |
| Lamport.StampIsLongestChain | async/lamport.go:38-69 | From new clocks an event's timestamp is the length of the longest causal chain that ends at it, up to the maximum, and never exceeds the number of events so far |
| Lamport.NewClocksOrderStrictly | async/lamport.go:16-18 | In every run of fewer than 2^64 events from new clocks, causally related events get strictly increasing timestamps |
| NodeSelection.CalculateNodeHash | async/client.go:1608-1619 | The nested loops compute the exclusive or of the key's four little-endian words |
| NodeSelection.WordIsLittleEndian | async/client.go:1612-1615 | The inner loop reads a word little-endian |
| NodeSelection.HashBits | async/client.go:1608-1619 | Each bit of the hash is the parity of that bit in the key's four words |
| NodeSelection.SwappedWordsCollide | async/client.go:1608-1619 | Exchanging the first two words of any key leaves its hash unchanged |
| Bits.XorBit | async/client.go:1622-1624 | Exclusive or compares bit by bit |
| Bits.XorInjective | async/client.go:1622-1624 | Two hashes are equally far from a target if and only if they are equal |
| NodeSelection.ZeroDistanceIff | async/client.go:1622-1624 | A node is at distance 0 if and only if it hashes like the target |
| NodeSelection.NearerIff | async/client.go:1622-1624 | Of two nodes that hash differently the nearer is the one that agrees with the target in the highest bit in which they differ |
| NodeSelection.CollectCandidateNodes | async/client.go:1088-1098 | In whatever map order, lists every known node once at its distance |
| NodeSelection.SortCandidatesByDistance | async/client.go:1101-1105 | Some permutation in order of distance |
| NodeSelection.SelectClosestNodes | async/client.go:1108-1117 | The first addresses, as many as allowed; none for a negative limit |
| NodeSelection.FindStorageNodes | async/client.go:1080-1085 | The nearest min(n, known) nodes, nearest first, none farther than a node left out; none for a limit of 0 or less |
| NodeSelection.ChosenAgreesFirst | async/client.go:1080-1131 | In the highest bit in which a chosen node and one left out differ, the chosen one agrees with the target |
| NodeSelection.ExactHashFirst | async/client.go:1080-1131 | A known node that hashes like the target comes first |
| NodeSelection.SameRanks | async/client.go:1080-1131 | Two selections of the same size have equal distances at every rank |
| NodeSelection.SelectionDetermined | async/client.go:1080-1131 | The addresses are determined when nodes that hash alike share their address |
| NodeSelection.OrderIndependentIff | async/client.go:1080-1131 | They never depend on iteration order or tie-breaking if and only if that holds |
| NodeSelection.SmallerSelectionIsPrefix | async/client.go:1080-1131 | A smaller selection is a prefix of a larger one, so a sender's three nodes are the first of a retriever's five |
| Erasure.ShardSize | async/erasure.go:130-136 | The smallest size for which the data shards hold all bytes |
| Erasure.SplitIntoShards | async/erasure.go:139-156 | The loop fills the data shards row by row with the message and zeros, and leaves parity rows zero |
| Erasure.SplitKeepsMessage | async/erasure.go:130-156 | No byte is dropped: the data shards, cut to the length, are the message, for every length and shard count |
| Erasure.ReassembleData | async/erasure.go:224-240 | The loop returns the data shards one after the other, cut to the length |
| Erasure.ExtractRawShards | async/erasure.go:205-221 | The loop keeps the first shard for each valid index |
| Erasure.ExtractGenuine | async/erasure.go:205-221 | For genuine shards in any order with repeats, exactly the listed rows are found and each counted once |
| Erasure.CountExactIffBlanksCovered | async/erasure.go:205-221 | For every list the count is at least the number of rows found, and equal if and only if every shard without data follows one with data for its slot |
| Erasure.SlotIsFirst | async/erasure.go:205-221 | For every list a filled slot holds the data of the first shard that fills it |
| Erasure.EmptyShardsOvercount | async/erasure.go:205-221 | Any number of shards without data is counted although nothing was received |
| Erasure.EncodeMessage | async/erasure.go:107-126 | Empty data is refused; otherwise shard i is row i of the message's code word |
| Erasure.DecodeShards | async/erasure.go:177-200 | The method computes `Decoded`, error cases in order |
| Erasure.DecodeIffEnough | async/erasure.go:177-240 | Genuine shards, in any order, with repeats, gaps and foreign indices, give back the message if and only if they cover at least k rows; otherwise they are refused as too few |
| Erasure.DecodeOutcomes | async/erasure.go:177-240 | No shards and a length below 1 are the first errors; a shorter length gives that much of the message |

## Left out

- Wal.LogRunKeeps: for runs of fewer than 2^64 steps, because the 64-bit sequence counter wraps; `Wal.WriteAheadLog.LogEntry` states the wrap itself.
- Wal.RecoveryIsInOrderFilter: the same.
- Wal.WriteAheadLog.WriteEntry: a failed or partial write, after which the buffered writer takes no more; the file then ends in a torn record, as in the cut-file theorems.
- Wal.WriteAheadLog.LogEntry: a failed write, which still consumes a number.
- Wal.WriteAheadLog.Commit: a failed write.
- Wal.WriteAheadLog.Checkpoint: a failed write.
- CrashRecovery.ReplayRestoresLive: drawn message identifiers are assumed new among the messages logged and not deleted, since the code draws 16 random bytes and does not look; runs have fewer than 2^64 steps.
- CrashRecovery.NoCheckpointRestoresAll: the same.
- CrashRecovery.CrashAnywhere: one crash cut followed by recovery; opening does not cut off a torn tail, so appends after one are not modelled.
- StorageRuns.LegacyRunRetains: for runs whose drawn identifiers are new among the stored ones.
- StorageRuns.RunWithinLimits: the list of legacy arrivals is the code's table as long as drawn identifiers are new; a reused one makes the table smaller than the list.
- Wal.SortBySequence: the library sort is modelled by insertion.
- NodeSelection.SortCandidatesByDistance: the library sort is modelled by insertion; the theorems hold for every sorted permutation.
- PreKeyStore.PreKeyStore.GetAvailablePreKey: requires that the first unused key has material, because the code dereferences it; `PreKeySpec.StepPaired` shows that every operation keeps all keys so.
- PreKeyStore.PreKeyBundle.TakeAvailable: the same.
- PreKeyStore.PreKeyBundle.ExtractAndProcess: the same, for the key it is called on.
- Pending.AsyncManager.SendQueuedMessages: others act during the wait only; the protocol itself interleaves all steps.
- Snapshot.UnmarshalBinary: starts from an empty save, as its callers do; fields set before a late failure are not modelled.
- Erasure.DecodeIffEnough: over an assumed code in which any k rows determine the word.
- Lamport.Linearizable: the loops are steps of a machine rather than loops, because their interleaving is the point.
- Storage keeps messages as values: updates in place are modelled on the maps and lists, sharing of message pointers between them is not.
- A nil obfuscated message, legacy retrieval, statistics, capacity probing and recalculation of limits: single-branch members.
- Obfuscated messages and expiry are not logged by the code, so no durability is claimed for them.
- Truncating and closing the log, flushing and syncing: the file is a byte sequence. A checkpoint that the log schedules itself is an event like any other.
- The friend's online status, address book, handlers, retrieval loops and storage-node discovery of the manager; whether pre-keys suffice and whether a send succeeds are arbitrary.
- Refresh and expiry of the sender's pool, signed pre-keys, encryption and signature checking: a signature check is a flag.
- JSON save data, options, and restoring a running instance from a save.
- Sorting messages by Lamport timestamp and the shard storage of `async/erasure.go`.
- Transport, NAT traversal, bootstrap, conferences, audio and video, the C interface, push notifications and adaptive scheduling.
