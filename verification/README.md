# RFID gateway: crash recovery, stream framing, session lifecycle and queues

The gateway reads RFID tags from antennas over TCP, caches the readings, confirms tool movements to a server, and has a
deployment helper that changes file metadata under a journal. This project models the parts where a mistake would be
silent and proves what they keep.

- `DataTransaction`, `RecordCodec`, `Journal`: the journaled flip of one directory between 0775 and 0700. The disk has a
  visible and a durable copy of the mode and of the names `record` and `record.new`. Every system call may fail or be
  the last one before a crash, after every call any item may become durable on its own, and a power loss keeps the
  durable copies and may tear files that were never synced. The two names of a rename may reach the disk separately,
  which is weaker than the atomicity of POSIX.1-2017 `rename()`; the flag `atomicRename` rules that out, and only the
  claim that no `record.new` is ever thrown away needs it.
- `OwnershipTransaction`: the progress journal over several objects, for any number of entries (the source has three).
- `ChainwayFrame`, `ChainwayStream`, `ChainwayCommands`: the Chainway UR4 frame, its reassembly and its tag payload.
- `GenericStream`, `GenericPacket`: the generic packet and its reassembly. EPC lengths come from the PC word as in the
  GS1 EPC UHF Gen2 air interface, section 6.3.2.1.2.2.
- `Readings`: from the octets of a connection to the readings handed to the cache.
- `Session`: the Chainway session as a transition system over the program counters of its goroutines.
- `CacheWriter`, `Ingestion`: the buffered writer of the cache, and the whole way from octets to its rows.
- `ConfirmationQueue`, `QueueBlocking`: the capped queue with bounded retries, and when its oldest rows block it.
- `ConfigPolicy`: the budgeted check of a parsed YAML tree and the comparison of two settings.
- `Bytes`, `Hex`, `Wrappers`: octets, exclusive or, hexadecimal text, and optional values.

Code that updates state is a class or a loop proved against a specification function or an invariant; what the source
promises is then proved about that function or over whole histories (`Campaign`, `DataReader`, `Ingest`, `History`,
`EveryInterleavingIsSafe`, `FairRunCloses`). What the specification functions mean is stated once more without them: as a
condition on the inputs (`RunDecides`, `StartsUnlessCancelled`, `ChecksumIsParity`, `GoodIffReached`, `FlushSpelled`) or
on literal frames, lines and payloads (`KnownFrames`, `KnownLines`, `KnownTags`).

Results about what the code does not give, each with its exact condition and a concrete input:

- A resumed multi-object run may leave a false journal. Unlike the single-directory transaction (line 185 of
  transaction.go) it syncs no directory before it goes on, so after a failed directory sync it may mutate while the
  durable journal lags. `OwnershipTransaction.RunOneBehind` says before the call when that cannot happen and when a fault
  makes it happen, `LaggingJournalLost` and `MissingJournalLost` are such runs, and `Campaign` shows that a sync before
  each run is enough. What is then found is refused by every later run: `HaltedForGood`.
- Every run refuses for good once an entry whose Before and After coincide is recorded under a pending journal (lines
  311-314 of ownership_transaction.go): the condition is `Stuck`, the permanence `HaltedForGood`, the input
  `CoincidingEntryRefused`.
- The comment at line 272 of toolssync.go keeps exhausted confirmations queued for inspection. With a hundred of them
  older than every confirmation that may be sent, each flush sends nothing and reports the VPS online, until creations at
  the cap have evicted enough of them. `QueueBlocking.EverySnapshotShowsNoneIff` and `SomeSnapshotShowsNoneIff` are the
  exact conditions with ties in creation time, `RunWhileBlocked` the course of a blocked queue over any creations and
  flushes, `NewcomerWaits` the input.
- The bound on generic chunk sizes is tight: `GenericStream.OversizedChunkLosesFrame`.
- The comment at line 315 of packet.go says bits 10-15 hold the EPC length; the code, and the standard, take bits 11-15:
  `GenericPacket.EpcMeaning`.

## Model

| member | source | states |
|---|---|---|
| DataTransaction.WritebackKeepsConsistent | internal/deploy/homebrew/transaction.go:86-110 | The journal invariant survives any item reaching the disk on its own, in any combination and at any moment |
| DataTransaction.PowerLossKeepsConsistent | internal/deploy/homebrew/transaction.go:86-110 | It survives a power loss that keeps, item by item, the durable copy and tears any file never synced |
| DataTransaction.ConsistentIsSafe | internal/deploy/homebrew/transaction.go:157-348 | The invariant read out: the mode is 0775 or 0700, `record` is absent or whole and never torn, it agrees with either copy of the mode, and a done record exists, even as `record.new`, only once its mode does |
| DataTransaction.NamedDirectionPermitted | internal/deploy/homebrew/transaction.go:194-278 | From every consistent state without a torn `record.new`, the direction named by `record.new`, else by `record`, else apply, is one a run may complete |
| DataTransaction.OppositeRefused | internal/deploy/homebrew/transaction.go:256-267 | While work is pending in one direction, the other direction is not permitted |
| DataTransaction.StageBegins | internal/deploy/homebrew/transaction.go:92-95 | Creating `record.new` leaves `record` and the mode as they were, with the new name durable or not |
| DataTransaction.StageAdvances | internal/deploy/homebrew/transaction.go:97-102 | Writing or syncing it changes only that file, under whichever copies name it |
| DataTransaction.StagePromotes | internal/deploy/homebrew/transaction.go:103-105 | After the rename each of the two names may be durable or not |
| DataTransaction.PromotionSettles | internal/deploy/homebrew/transaction.go:106-109 | After the directory sync both names are the same in both copies |
| DataTransaction.StagedConsistent | internal/deploy/homebrew/transaction.go:86-102 | The journal invariant holds at every point between creation and rename of the next record |
| DataTransaction.PromotedConsistent | internal/deploy/homebrew/transaction.go:103-109 | It holds at every point after the rename of a synced record |
| DataTransaction.FinishedMayRepeat | internal/deploy/homebrew/transaction.go:268-273 | A finished direction may be run again |
| DataTransaction.Disk.constructor | internal/deploy/homebrew/transaction.go:157-160 | Before any run: mode 0775 in both copies and no journal |
| DataTransaction.Disk.Syscall | internal/deploy/homebrew/transaction.go:35-53 | One system call takes effect or does not, and anything visible may become durable after it |
| DataTransaction.Disk.Fchmod | internal/deploy/homebrew/transaction.go:301-312 | The mode change, remembered with the store it was made in |
| DataTransaction.Disk.SyncRecord | internal/deploy/homebrew/transaction.go:86-110 | Interrupted at any call it leaves the invariant; on success the record is in authority in both copies and `record.new` is gone |
| DataTransaction.Disk.PromoteTemp | internal/deploy/homebrew/transaction.go:112-123 | A recovered `record.new` is synced before it is renamed, so authority is never torn |
| DataTransaction.Disk.DropTemp | internal/deploy/homebrew/transaction.go:235-240 | Removing `record.new` keeps the record and the mode and settles both copies |
| DataTransaction.Disk.Recover | internal/deploy/homebrew/transaction.go:194-248 | Promotes, discards or refuses a leftover `record.new`: what proceeds is settled with exactly the recovered record, what is refused changed nothing and could not have completed, a torn one always refuses |
| DataTransaction.Disk.SyncRoot | internal/deploy/homebrew/transaction.go:185-187 | From the first directory sync on, the run decides on durable names only |
| DataTransaction.Disk.Transition | internal/deploy/homebrew/transaction.go:249-296 | On a settled journal, without faults: completes exactly when the record allows the direction and refuses otherwise, and a refusal leaves the visible state alone; a finished one is left untouched |
| DataTransaction.Disk.ChangeMode | internal/deploy/homebrew/transaction.go:297-339 | Every chmod is made under the durable pending record of the same direction from exactly the pre-mode; on success, also on the resumed path that skips the chmod, the post-mode is durable while the record is still pending |
| DataTransaction.Disk.Carry | internal/deploy/homebrew/transaction.go:297-347 | The done record is written only on the durable post-mode, and success means both are durable |
| DataTransaction.Disk.Run | internal/deploy/homebrew/transaction.go:157-348 | The whole run: invariant at every interruption, write-ahead order of every chmod, success means mode and done record durable, without faults success exactly when selected and permitted, otherwise the mode is untouched, a torn `record.new` stops everything, repetition is idle; with atomic renames no `record.new` is ever thrown away, so the equal-record and leftover branches (lines 235-240) are not reached |
| DataTransaction.Campaign | internal/deploy/homebrew/transaction.go:86-347 | All of that over any sequence of runs of any selection and direction, each cut short anywhere, and power losses |
| DataTransaction.FinishAndRepeat | internal/deploy/homebrew/transaction.go:194-347 | After any history without a torn `record.new`, one fault-free run in the named direction finishes, and a second one succeeds and leaves it finished |
| DataTransaction.PermittedIff | internal/deploy/homebrew/transaction.go:194-278 | The directions a visible journal allows, record by record: a `record.new` that differs from the record decides; else pending work goes on, finished work may be repeated or turned round, and from nothing only an apply begins |
| DataTransaction.ModesSpelled | internal/deploy/homebrew/transaction.go:249-347 | In every consistent store, for either copy of the record with either copy of the mode: 0775 without a record and under a done rollback, 0700 under a done apply, and one of the two while pending |
| DataTransaction.WriteAheadSpelled | internal/deploy/homebrew/transaction.go:297-312 | A chmod is 0775 to 0700 under a pending apply, or 0700 to 0775 under a pending rollback, the record being the same in both copies |
| DataTransaction.RunDecides | internal/deploy/homebrew/transaction.go:159-348 | A fault-free run completes exactly when the selection is the target in its original state and the visible journal allows the direction; then both copies hold the mode and the done record and no `record.new`; else the mode stays |
| DataTransaction.TurnRound | internal/deploy/homebrew/transaction.go:256-278 | What is done in one direction can be turned round, from apply to rollback and back |
| DataTransaction.WholeLife | internal/deploy/homebrew/transaction.go:157-348 | Applied twice, rolled back twice and applied again, nothing failing: every run completes, and the modes go 0775, 0700, 0700, 0775, 0775, 0700 |
| RecordCodec.PrintFits | internal/deploy/homebrew/transaction.go:86-98 | Every record of any uint64 identity and uint32 owner prints to at most 512 bytes |
| RecordCodec.Read | internal/deploy/homebrew/transaction.go:128-155 | What is accepted is in range and equal to its own canonical print |
| RecordCodec.ReadIffPrinted | internal/deploy/homebrew/transaction.go:86-155 | A byte string reads as a record exactly when it is the printed form of it: round trip and uniqueness at once |
| RecordCodec.ReadableIff | internal/deploy/homebrew/transaction.go:24-33 | The records a file can hold are those whose identity fits 64 bits and whose owner fits 32 |
| RecordCodec.KnownLines | internal/deploy/homebrew/transaction.go:24-33 | Four literal journal lines, one for each direction and phase, and the record each reads as |
| RecordCodec.ProperPrefixRefused | internal/deploy/homebrew/transaction.go:143-155 | No proper prefix of a written record is accepted, so a torn file is never authority |
| RecordCodec.OneNewline | internal/deploy/homebrew/transaction.go:91-91 | A printed record has its only newline at the end |
| RecordCodec.Number | internal/deploy/homebrew/transaction.go:147-152 | A number is accepted only in range and in the form it would be printed |
| RecordCodec.DecimalCanonical | internal/deploy/homebrew/transaction.go:147-152 | Printed numbers have no leading zero and denote what was printed |
| RecordCodec.CanonicalIsDecimal | internal/deploy/homebrew/transaction.go:150-152 | A digit string without leading zero is the print of its value |
| OwnershipTransaction.PrefixCurrent | internal/deploy/homebrew/ownership_transaction.go:129-132 | The scan stops at the first unrecorded object |
| OwnershipTransaction.HeldFacts | internal/deploy/homebrew/ownership_transaction.go:223-234 | A journal in force is well formed and matches the objects; once done, all are at post |
| OwnershipTransaction.MutationKeeps | internal/deploy/homebrew/ownership_transaction.go:311-318 | Mutating the object the progress points at keeps the journal true |
| OwnershipTransaction.ProgressKeeps | internal/deploy/homebrew/ownership_transaction.go:325-330 | Recording that object, once it is at post, keeps it true and moves the progress by one |
| OwnershipTransaction.DurableHoldsIffKept | internal/deploy/homebrew/ownership_transaction.go:154-184 | The durable journal is true of the objects as they are exactly when none has changed since it was written, except the one it points at |
| OwnershipTransaction.MutationExposes | internal/deploy/homebrew/ownership_transaction.go:311-318 | With the durable journal one record behind, mutating the object the visible journal points at makes it false |
| OwnershipTransaction.BlankHolds | internal/deploy/homebrew/ownership_transaction.go:277-291 | Where a direction may be started every object is at its pre-state, so the blank journal is true |
| OwnershipTransaction.RecordedAtPost | internal/deploy/homebrew/ownership_transaction.go:311-314 | A recorded object is at post |
| OwnershipTransaction.CurrentHolds | internal/deploy/homebrew/ownership_transaction.go:311-330 | Whether or not the object in line has been mutated, the journal that points at it stays true |
| OwnershipTransaction.Fixture.constructor | internal/deploy/homebrew/ownership_transaction.go:239-262 | Every object at Before and no journal |
| OwnershipTransaction.Fixture.Step | internal/deploy/homebrew/ownership_transaction.go:243-248 | A hook, observation or call without effect on the objects fails or not, and the visible journal may become durable |
| OwnershipTransaction.Fixture.Inspect | internal/deploy/homebrew/ownership_transaction.go:125-152 | Without faults accepts exactly when the objects match the journal: below the progress at post, the next at pre or post, the rest at pre |
| OwnershipTransaction.Fixture.Record | internal/deploy/homebrew/ownership_transaction.go:154-184 | Replaces the journal as a whole or not at all; success means it is durable and no temporary is left; a leftover temporary makes it fail and stays; when only the last directory sync fails, the new journal is visible and the old one durable |
| OwnershipTransaction.Fixture.WriteTemporary | internal/deploy/homebrew/ownership_transaction.go:159-171 | Creating, writing and syncing the temporary leaves the journal as it was |
| OwnershipTransaction.Fixture.RecordProgress | internal/deploy/homebrew/ownership_transaction.go:325-330 | The progress of the object in line is recorded, or the journal stays as it was |
| OwnershipTransaction.Fixture.RecordDone | internal/deploy/homebrew/ownership_transaction.go:335-345 | The done record is written only when every object is at post |
| OwnershipTransaction.Fixture.Confirm | internal/deploy/homebrew/ownership_transaction.go:319-333 | With the object at post: it ends recorded and durable, or was recorded before; an interruption keeps the journal true |
| OwnershipTransaction.Fixture.Turn | internal/deploy/homebrew/ownership_transaction.go:296-334 | One turn of the loop: it goes on with nothing changed below the recorded progress and everything above durable, or ends as a run may end |
| OwnershipTransaction.Fixture.Mutate | internal/deploy/homebrew/ownership_transaction.go:315-317 | The adapter call takes its object from pre to post, and may have done so even when it fails; it is made under a pending journal pointing at that object |
| OwnershipTransaction.Fixture.MutateIfPre | internal/deploy/homebrew/ownership_transaction.go:297-318 | Mutates only an object at pre that is not yet recorded; refuses exactly a recorded entry whose two states coincide |
| OwnershipTransaction.Fixture.Advance | internal/deploy/homebrew/ownership_transaction.go:296-334 | One iteration: afterwards the object is at post and recorded, or it already was; every interruption keeps the journal true |
| OwnershipTransaction.Fixture.Compare | internal/deploy/homebrew/ownership_transaction.go:270-291 | The comparisons before a new intent accept exactly a true journal, fault-free; a false one, or changed objects without one, is refused |
| OwnershipTransaction.NotAtPre | internal/deploy/homebrew/ownership_transaction.go:279-291 | An object away from its pre-state shows that what is found is false |
| OwnershipTransaction.Fixture.Begin | internal/deploy/homebrew/ownership_transaction.go:270-295 | A new intent starts only from a completed opposite direction or from nothing, with every object at pre, and records a blank progress; what is false is left as it is |
| OwnershipTransaction.Fixture.Proceed | internal/deploy/homebrew/ownership_transaction.go:296-345 | Without faults the loop finishes exactly when no recorded entry has coinciding states |
| OwnershipTransaction.Fixture.Complete | internal/deploy/homebrew/ownership_transaction.go:335-345 | The completion after a whole loop ends as a run may end; success makes the done record durable with all objects at post |
| OwnershipTransaction.Fixture.Run | internal/deploy/homebrew/ownership_transaction.go:239-346 | On any well-formed journal, true or false. Journal invariant at every interruption; each mutation finds its object exactly at pre under a pending journal pointing at it; on a true journal and without faults finishes exactly when startable, no temporary is left and every entry below the recorded progress has Before and After distinct; success puts all objects at post. A leftover temporary, a recorded entry whose states coincide, a false journal, changed objects without one, or the wrong direction: no completion, and objects, journal and temporary stay as they were. Power loss: a run that finds its journal durable keeps the durable one true and at most one record behind; one that finds it a record behind, for distinct entries, has it true exactly when it made a later journal durable or changed nothing, and always unless the object in line was at pre. What a first fault leaves at the intent, at the first mutation and at its record is stated exactly |
| OwnershipTransaction.Fixture.Resume | internal/deploy/homebrew/ownership_transaction.go:263-269 | The same for a run that finds its own journal |
| OwnershipTransaction.Fixture.Start | internal/deploy/homebrew/ownership_transaction.go:270-295 | The same for a run that begins a direction |
| OwnershipTransaction.Fixture.SyncDirectory | internal/deploy/homebrew/ownership_transaction.go:175-183 | The directory sync that ends a record; made by a caller before a run it makes the visible journal the durable one |
| OwnershipTransaction.Fixture.LosePower | internal/deploy/homebrew/ownership_transaction.go:186-235 | What the next run reads after a power loss is the durable journal; it is true exactly when no object but the one it points at has changed since it was written; what was false stays so |
| OwnershipTransaction.Campaign | internal/deploy/homebrew/ownership_transaction.go:239-346 | Over any sequence of interrupted apply and inverse runs and power losses, on any number of objects: the invariant survives exactly when at each loss no object but the one the durable journal points at had changed since that was written, and always when each run follows a sync of the directory; after the first loss that leaves a false journal nothing changes any more. Without power losses, and with Before and After distinct in every entry, the mutations that changed an object number at most one per object and direction |
| OwnershipTransaction.HaltedForGood | internal/deploy/homebrew/ownership_transaction.go:186-346 | From a leftover temporary, a recorded entry whose states coincide, a false journal, or changed objects without one: over any runs in either direction none completes and none changes anything |
| OwnershipTransaction.RunOneBehind | internal/deploy/homebrew/ownership_transaction.go:263-334 | With the durable journal one record behind, for distinct entries, decided before the call: unless the run is going to mutate under a pending journal of its own direction the durable journal survives it in every world, and if it is, a fault at that mutation loses it |
| OwnershipTransaction.AttemptRun | internal/deploy/homebrew/ownership_transaction.go:239-346 | A run after a successful directory sync keeps the durable journal true; a run of what is halted changes nothing |
| OwnershipTransaction.LaggingJournalLost | internal/deploy/homebrew/ownership_transaction.go:263-334 | A concrete run to a false journal: the directory sync of the first progress record fails, the resumed run mutates the second object, power is lost |
| OwnershipTransaction.MissingJournalLost | internal/deploy/homebrew/ownership_transaction.go:263-334 | A concrete run to changed objects without a journal: the directory sync of the intent fails, the resumed run mutates the first object, power is lost |
| OwnershipTransaction.CoincidingEntryRefused | internal/deploy/homebrew/ownership_transaction.go:311-314 | A concrete resumed run that refuses though nothing fails, and a second one that refuses again: the first entry has equal states and is recorded |
| OwnershipTransaction.ResumeAndRestore | internal/deploy/homebrew/ownership_transaction.go:239-346 | From any state of an apply reached without leaving a temporary: the apply finishes, and the inverse then restores every Before state |
| OwnershipTransaction.HoldsSpelled | internal/deploy/homebrew/ownership_transaction.go:223-234 | A pending journal is true exactly when for some k the first k entries are recorded and at their end, the later ones at their beginning, and entry k at either; a done one when all are recorded and at their end |
| OwnershipTransaction.RunDecides | internal/deploy/homebrew/ownership_transaction.go:239-346 | A fault-free run on a true journal completes exactly when there is no leftover temporary, nothing is pending in the other direction, an inverse does not begin from nothing, and no entry recorded under a pending journal has equal states; then every object is at its end and the journal is done |
| OwnershipTransaction.TurnRound | internal/deploy/homebrew/ownership_transaction.go:270-276 | What is done in one direction can be turned round, from apply to inverse and back |
| OwnershipTransaction.WholeLife | internal/deploy/homebrew/ownership_transaction.go:239-346 | Applied and then turned round any number of times, nothing failing, every object is at After or Before by turns, whatever the entries |
| ChainwayFrame.Checksum | internal/chainway/frame.go:46-53 | The accumulator loop computes the function whose value `ChecksumIsParity` gives |
| ChainwayFrame.ChecksumIsParity | internal/chainway/frame.go:46-53 | Bit k of the checksum is the parity of the number of octets in which bit k is set; of no octets it is 0 |
| Bytes.XorIsBitwise | internal/chainway/frame.go:46-53 | Bit k of an XOR is set exactly when bit k of one operand is and of the other is not |
| Bytes.BitValues | internal/chainway/frame.go:46-53 | Two octets with the same bits are the same octet |
| ChainwayFrame.Encode | internal/chainway/frame.go:55-69 | Fills the buffer to exactly the frame of command and data; refused exactly when the total exceeds 2048 octets |
| ChainwayFrame.DecodeEncode | internal/chainway/frame.go:55-93 | Decoding an encoded frame gives back command and data, for all data up to 2040 octets |
| ChainwayFrame.EncodeDecode | internal/chainway/frame.go:71-93 | Every accepted frame is the encoding of what was decoded from it |
| ChainwayFrame.KnownFrames | internal/chainway/frame.go:71-93 | Three literal frames, the stop-inventory frame among them, and what each decodes to; and a literal input for every error |
| ChainwayFrame.LongestPayload | internal/chainway/frame.go:55-93 | A payload fits a frame exactly when it has at most 2040 octets |
| ChainwayFrame.SingleByteCorruptionRefused | internal/chainway/frame.go:71-93 | Changing any single octet of an accepted frame, header, length, payload, checksum or trailer, makes it refused |
| ChainwayFrame.ChecksumDetectsChange | internal/chainway/frame.go:46-53 | Changing one octet changes the checksum |
| ChainwayStream.ParseIsTheLeftmostParse | internal/chainway/frame.go:115-155 | Frames and tail are the extractor's exactly when they cut the stream into garbage, frame, garbage, ..., tail with every skipped position starting neither an accepted frame nor a wait |
| ChainwayStream.LeftmostParseUnique | internal/chainway/frame.go:115-155 | There is only one such cut |
| ChainwayStream.ParseIsLeftmost | internal/chainway/frame.go:115-155 | The parse is one |
| ChainwayStream.SkippedNeverStartsFrame | internal/chainway/frame.go:130-144 | A position once skipped can start no frame whatever octets follow |
| ChainwayStream.EncodedFramesRecovered | internal/chainway/frame.go:115-155 | Encoded frames among octets free of 0xA5 come out exactly, in order, with nothing retained |
| ChainwayStream.ParseResumes | internal/chainway/frame.go:116-155 | Parsing a stream is parsing a prefix and then its tail followed by the rest |
| ChainwayStream.TailBelowMaxFrame | internal/chainway/frame.go:123-150 | What is retained is always shorter than 2048 octets, so the 64 KiB cap never fires |
| ChainwayStream.FeedIsParse | internal/chainway/frame.go:116-187 | With any cap of at least 2047, feeding chunks is parsing their concatenation |
| ChainwayStream.ChunkInvariance | internal/chainway/frame.go:95-155 | With the default cap, two ways of cutting the same octets, with chunks of any size, give the same frames and the same tail |
| ChainwayStream.SkipToHeader | internal/chainway/frame.go:167-175 | Jumping to the first header, or keeping only a trailing 0xA5, loses nothing the parse would use |
| ChainwayStream.Capped | internal/chainway/frame.go:177-187 | The cap keeps a suffix no longer than itself, and everything when it fits |
| ChainwayStream.FirstHeader | internal/chainway/frame.go:189-196 | The first header at or after a position, or none |
| ChainwayStream.HeaderIndex | internal/chainway/frame.go:189-196 | The index loop finds it |
| ChainwayStream.StreamExtractor.WithMaxBuffer | internal/chainway/frame.go:107-113 | A cap that is not positive means the default |
| ChainwayStream.StreamExtractor.Append | internal/chainway/frame.go:115-155 | Terminates, returns exactly the frames of the retained octets and the chunk, and retains the capped tail, at most the cap, for every positive cap |
| ChainwayStream.StreamExtractor.KeepPossibleHeaderStart | internal/chainway/frame.go:167-175 | Keeps a trailing 0xA5 and nothing else |
| ChainwayStream.StreamExtractor.EnforceMaxBuffer | internal/chainway/frame.go:177-187 | Applies the cap as specified |
| ChainwayStream.StreamExtractor.Reset | internal/chainway/frame.go:162-165 | Forgets the retained octets |
| GenericStream.ParseIsTheSplit | amg-rfid-shared-go/protocol/packet.go:84-117 | Frames and tail are the extractor's exactly when the stream is garbage, frame, ..., tail with garbage free of start octets and each frame as long as its octet 5 says |
| GenericStream.SplitUnique | amg-rfid-shared-go/protocol/packet.go:84-117 | There is only one such split |
| GenericStream.ParseIsSplit | amg-rfid-shared-go/protocol/packet.go:84-117 | The parse is one |
| GenericStream.ParseShape | amg-rfid-shared-go/protocol/packet.go:102-116 | Every frame starts with 0x7C or 0xCC and is 7 octets plus its octet 5 long, and a tail has at most 261 octets |
| GenericStream.ParseResumes | amg-rfid-shared-go/protocol/packet.go:84-117 | Parsing a stream is parsing a prefix and then its tail followed by the rest |
| GenericStream.FeedIsParse | amg-rfid-shared-go/protocol/packet.go:84-141 | With chunks of at most the cap less 261 octets, feeding chunks is parsing their concatenation |
| GenericStream.ChunkInvariance | amg-rfid-shared-go/protocol/packet.go:84-141 | With the default cap, two ways of cutting the same octets into chunks of at most 65536 - 261 give the same frames and the same tail |
| GenericStream.OversizedChunkLosesFrame | amg-rfid-shared-go/protocol/packet.go:86-89 | For every cap of at least 261 that bound is tight: a chunk one octet longer can lose a retained packet it completes |
| GenericStream.FirstSOIIndex | amg-rfid-shared-go/protocol/packet.go:143-150 | The first start octet, or none |
| GenericStream.LastSOIIndex | amg-rfid-shared-go/protocol/packet.go:152-159 | The last start octet: none follows it, and -1 means there is none |
| GenericStream.LastStart | amg-rfid-shared-go/protocol/packet.go:152-159 | The same, as a function |
| GenericStream.StreamExtractor.WithMaxBuffer | amg-rfid-shared-go/protocol/packet.go:76-82 | A cap that is not positive means the default |
| GenericStream.StreamExtractor.Append | amg-rfid-shared-go/protocol/packet.go:84-117 | Caps first, then returns exactly the frames and the tail of what the cap kept; never retains more than the cap |
| GenericStream.StreamExtractor.EnforceMaxBuffer | amg-rfid-shared-go/protocol/packet.go:129-141 | Keeps everything, or the octets from the last start octet, or nothing |
| GenericStream.StreamExtractor.Reset | amg-rfid-shared-go/protocol/packet.go:124-127 | Forgets the retained octets |
| GenericPacket.SumFirst | amg-rfid-shared-go/protocol/packet.go:222-226 | The accumulator loop sums the first octets |
| GenericPacket.CalculateChecksum | internal/antenna/manager.go:626-633 | The octet that makes the whole sum to 0 mod 256 |
| GenericPacket.SumParts | amg-rfid-shared-go/protocol/packet.go:222-226 | The sum of no octets is 0, of one is that octet, and of a concatenation the sum of the parts |
| GenericPacket.ValidateChecksum | amg-rfid-shared-go/protocol/packet.go:259-275 | Accepts exactly packets of at least 7 octets that sum to 0 mod 256 |
| GenericPacket.EpcMeaning | amg-rfid-shared-go/protocol/packet.go:302-344 | The EPC text is the upper-case hex of the octets announced by the top five bits of the PC word, less a leading 00 30 00 |
| GenericPacket.PrefixSpelled | amg-rfid-shared-go/protocol/packet.go:325-332 | An EPC that goes on after 00 30 00 loses those three octets, and any other nothing |
| GenericPacket.KnownPackets | amg-rfid-shared-go/protocol/packet.go:184-344 | Literal packets and tag data, and the fields each is decoded to |
| GenericPacket.ParsePacket | amg-rfid-shared-go/protocol/packet.go:184-257 | Error cases in order, the header fields, the info octets, the hex of the packet, the checksum verdict as zero sum mod 256, and the tag UID only for a UII response that parses |
| Hex.UpperHexInjective | internal/chainway/commands.go:113-115 | The hex text determines the octets |
| Hex.LowerHexSplit | amg-rfid-shared-go/protocol/packet.go:325-332 | Hex of a concatenation is the concatenation of the hex |
| Hex.KnownHex | internal/chainway/commands.go:113-115 | All sixteen digits, and the order of the two digits of an octet |
| ChainwayCommands.Split | internal/chainway/commands.go:75-111 | The fields found are well formed and together are the payload |
| ChainwayCommands.ParseTag | internal/chainway/commands.go:77-111 | Accepts exactly the payloads that split; of a payload laid out as PC, EPC, TID and user data, RSSI and antenna it reports just those fields, the RSSI when it lies strictly between 0 and 200 dBm below zero |
| ChainwayCommands.TagDataPartition | internal/chainway/commands.go:77-111 | A payload is the concatenation of well-formed fields exactly when it splits into them, so the partition is complete and unique |
| ChainwayCommands.KnownTags | internal/chainway/commands.go:77-111 | A literal payload without TID and one that is too short, and literal RSSI words at the limits |
| ChainwayCommands.KnownTagWithTid | internal/chainway/commands.go:77-111 | A literal payload with TID and user data, and its fields |
| Readings.StoredRssi | internal/antenna/protocol_handler.go:170-175 | The stored RSSI of a usable magnitude is at most 200 |
| Readings.GenericReadingIffParsed | internal/antenna/protocol_handler.go:78-123 | On an extracted frame the handler stores EPC e exactly when the separate packet parser accepts it with a good checksum as tag data carrying e |
| Readings.GenericReadingSpelled | internal/antenna/protocol_handler.go:77-123 | A frame yields a reading exactly when its octets are in place, sum to 0 mod 256 and announce enough data; the reading has the EPC and the RSSI at the positions the PC word gives, and the antenna and gateway of the connection |
| Readings.GenericTagsBecomeReadings | internal/antenna/protocol_handler.go:77-123 | Tags packed by a generic reader, among octets that begin no packet, become exactly their readings in order |
| Readings.ChainwayReadingSpelled | internal/antenna/protocol_handler.go:164-182 | A reading carries the location of its port if there is one and else the antenna of the connection, the hex of the EPC, and the RSSI rounded half up to whole dBm, 0 when unknown |
| Readings.ChainwayReadingComesFromFields | internal/antenna/protocol_handler.go:148-200 | A frame yields a reading exactly when it is the encoding of a tag notification with well-formed fields, the reading being that of the fields, its RSSI in 0..200 |
| Readings.NotificationsBecomeReadings | internal/antenna/protocol_handler.go:148-200 | Notifications encoded by a reader, among octets free of 0xA5, become exactly their readings in order |
| Readings.ReceiveStep | internal/antenna/manager.go:598-617 | With 4096-octet reads, one read completes exactly the frames the whole stream gains, under either framing |
| Readings.ReadingsOfConcat | internal/antenna/manager.go:617-622 | Readings of frames in a row are the readings of the first frames, then of the others |
| Readings.AntennaPipeline.constructor | internal/antenna/manager.go:524-536 | Nothing handed over, nothing published |
| Readings.AntennaPipeline.StoreAndPublish | internal/antenna/protocol_handler.go:218-234 | Hands over one reading; publishes and counts it exactly when the cache took it |
| Readings.AntennaPipeline.HandleGenericFrame | internal/antenna/protocol_handler.go:77-123 | Hands over exactly the readings of the frame, none or one, and counts exactly the reader errors |
| Readings.AntennaPipeline.HandleGenericUIIData | internal/antenna/protocol_handler.go:202-238 | Hands over exactly the reading the tag data carries, if it parses |
| Readings.AntennaPipeline.HandleChainwayFrame | internal/antenna/protocol_handler.go:148-200 | Hands over exactly the readings of the frame, none or one |
| Readings.AntennaPipeline.HandlePacket | internal/antenna/manager.go:524-562 | Whatever the protocol, hands over exactly the readings of the frame; an error stops nothing |
| Readings.AntennaPipeline.HandleAll | internal/antenna/manager.go:616-622 | Hands over the readings of all frames in order |
| Readings.AntennaPipeline.DataReader | internal/antenna/manager.go:581-624 | The readings handed to the cache are a function of the concatenated octets alone, however the reads cut them |
| Session.InitialInv | internal/antenna/manager.go:138-167 | The state Start leaves satisfies the session invariant |
| Session.StartKeepsOrder | internal/antenna/manager.go:245-259 | Each step of the start attempt keeps the commands in order |
| Session.OwnerKeepsOrder | internal/antenna/manager.go:306-327 | So does each step of the stop attempt, which waits for the start attempt first |
| Session.LinkKeepsOrder | internal/antenna/manager.go:268-302 | Each step of the watchdog and the clock keeps probes strictly increasing in the last received time |
| Session.MonitorKeepsControl | internal/antenna/manager.go:179-208 | Each step of the monitor closes Done only after the stop attempt has returned |
| Session.CallerKeepsControl | internal/antenna/manager.go:210-243 | So does each step of any Stop caller, on the normal and on the timeout path |
| Session.StepKeepsInv | internal/antenna/manager.go:138-334 | Every step of every goroutine and caller keeps the invariant |
| Session.RunKeepsInv | internal/antenna/manager.go:138-334 | So does every schedule |
| Session.InvIsSafe | internal/antenna/manager.go:304-334 | Under the invariant: one stop-inventory at most, none before the start attempt is over or in a session that goes on, nothing started after it; and once Done is closed the whole trace is stop alone or start and stop |
| Session.EveryInterleavingIsSafe | internal/antenna/manager.go:138-334 | That holds after every schedule, with parent cancellation at any time and any number of Stop callers; and the watchdog probes at most once per value of the last-received time |
| Session.StartsUnlessCancelled | internal/antenna/manager.go:245-255 | Start-inventory is sent exactly when the first step of the start attempt finds the session not cancelled: a session that is already ending never turns RF on, and a live one does |
| Session.StartWriteDecides | internal/antenna/manager.go:254-258 | The start attempt goes on to cancel exactly when its write failed |
| Session.FailedStartCancels | internal/antenna/manager.go:254-258 | After a failed start write the next step of the start attempt has cancelled the session, in every schedule |
| Session.CancelledBy | internal/antenna/manager.go:179-302 | What cancels a session, and that nothing else does: its parent, a failed start write, the watchdog giving up, the end of the read loop, Stop or the monitor while it runs |
| Session.DoneBy | internal/antenna/manager.go:179-243 | Done is closed by the monitor or by a Stop caller, each at its last step |
| Session.StopDecides | internal/antenna/manager.go:211-224 | Stop returns at once on a session that no longer runs, and ends one that does |
| Session.TickDecides | internal/antenna/manager.go:285-301 | A tick ends the link past one threshold, sends one probe for each silence past the other, and else does nothing |
| Session.ProbeDecides | internal/antenna/manager.go:292-299 | A failed probe ends the link, and a written one goes on watching |
| Session.DoneStepIsSilent | internal/antenna/manager.go:329-334 | After Done no step sends an inventory command or reopens it |
| Session.SilentAfterDone | internal/antenna/manager.go:245-334 | Nor does any schedule: RF cannot be turned on after Done |
| Session.StepsShrink | internal/antenna/manager.go:180-334 | Every step of the start attempt, the stop attempt or the monitor decreases the measure, and no other step increases it |
| Session.NoCyclicWait | internal/antenna/manager.go:179-334 | Once cancelled, until Done is closed, one of those steps is enabled: no circle of waits between the start signal, the once guards and the wait group |
| Session.MeasureSpent | internal/antenna/manager.go:180-334 | A schedule spends the measure by at least its number of such steps |
| Session.CancelledSessionCloses | internal/antenna/manager.go:180-334 | From a cancelled state every schedule takes at most as many of those steps as the measure, and one that leaves none of them possible has closed Done |
| Session.CriticalStaysEnabled | internal/antenna/manager.go:180-334 | No other goroutine can take an enabled one of those steps away |
| Session.FairRunCloses | internal/antenna/manager.go:180-334 | In every endless run in which no goroutine is left standing before a step it can take, a cancelled session closes Done, whoever cancelled it |
| Session.SilentLinkIsCancelled | internal/antenna/manager.go:268-302 | Over any schedule without a receive, a link silent past the threshold is cancelled by at most three steps of the watchdog, wherever it stood, waiting for a probe included |
| Session.SilentStep | internal/antenna/manager.go:277-301 | On a silent link each step of the watchdog brings it nearer to cancelling, and no other step sets it back |
| Session.WatchStaysConsistent | internal/antenna/manager.go:268-302 | The watchdog ends only with the session cancelled, and a link it found dead is cancelled or about to be |
| Session.SilentLinkCloses | internal/antenna/manager.go:180-334 | In every fair endless run a link that is silent for good is cancelled and Done is closed |
| Session.DeadLinkCloses | internal/antenna/manager.go:180-334 | In every fair endless run a link found dead, by silence or by a failed probe, closes the session, whatever is received later |
| Session.StopReturns | internal/antenna/manager.go:210-243 | In every fair endless run every call of Stop returns |
| CacheWriter.Cache.constructor | internal/cache/sqlite.go:576-584 | Nothing accepted, nothing stored |
| CacheWriter.Cache.Store | internal/cache/sqlite.go:551-574 | Accepts exactly a reading with antenna, EPC, time and RSSI of at least 0 while open with room in the buffer, at the end of the queue; a refusal changes nothing |
| CacheWriter.Cache.FlushBatch | internal/cache/sqlite.go:646-714 | The batch becomes rows, in order and once, and is emptied |
| CacheWriter.Cache.TakeReading | internal/cache/sqlite.go:588-602 | One reading moves from the channel; nothing is lost or reordered, and the hundredth turns the batch into rows |
| CacheWriter.Cache.Periodic | internal/cache/sqlite.go:604-609 | A tick turns the batch into rows |
| CacheWriter.Cache.StoreAll | internal/cache/sqlite.go:551-574 | Of Store calls in a row exactly those are accepted that are valid, come while the cache is open and find room after the ones accepted before; they are queued in order |
| CacheWriter.Cache.DrainAndFlush | internal/cache/sqlite.go:611-634 | When a flush is acknowledged everything accepted before it is in the table, in order and once, whatever arrives meanwhile |
| CacheWriter.Cache.BeginClose | internal/cache/sqlite.go:839-850 | Closing loses nothing already accepted into the queue by itself |
| CacheWriter.Cache.WriterExits | internal/cache/sqlite.go:636-641 | On exit the rows are a prefix of the accepted readings, lacking exactly what is still in the channel |
| CacheWriter.Cache.Turn | internal/cache/sqlite.go:586-643 | What each call and each turn of the writer does to the accepted readings, the channel, the batch and the rows; a flush is served exactly when the writer still runs |
| CacheWriter.Cache.Run | internal/cache/sqlite.go:551-644 | Over any schedule rows, batch and channel together are the accepted readings and rows only grow; with room for all calls exactly the valid readings offered before Close are accepted; exactly the flush requests that meet a writer still running are served, and a served one has stored everything accepted before the schedule |
| Ingestion.StoreReadings | internal/antenna/protocol_handler.go:218-221 | Readings offered in order are stored, those the cache accepts, in order, while the writer takes its turns; only ones with antenna, EPC and time are, and all of those when the cache is open with room |
| Ingestion.Ingest | internal/antenna/manager.go:581-624 | From octets to rows: after a flush the rows end with exactly the readings the pipeline published, which are those of the stream, however it was cut, less those refused; with an open cache and room, exactly those with antenna, EPC and time |
| ConfirmationQueue.OldestExists | internal/localstore/store.go:433-437 | Among any unsynced rows there is an oldest |
| ConfirmationQueue.DistinctIds | internal/localstore/store.go:476-510 | A snapshot holds as many rows as entries |
| ConfirmationQueue.ReachedByAge | internal/localstore/store.go:476-510 | An unsynced row is in the answer if fewer than the limit may precede it, and is not if the limit must |
| ConfirmationQueue.SnapshotUntouched | internal/sync/toolssync.go:273-288 | Entries of a fresh snapshot are distinct and were sent as often as their count says |
| ConfirmationQueue.GrownKeeps | internal/localstore/store.go:413-474 | Creations leave pending snapshot entries as they were, or evict them |
| ConfirmationQueue.GrownSent | internal/localstore/store.go:413-474 | Creations count no sends |
| ConfirmationQueue.RestUntouched | internal/sync/toolssync.go:288-313 | Dealing with one entry leaves the others as they were |
| ConfirmationQueue.SendRecorded | internal/sync/toolssync.go:288-313 | Each entry below the limit adds exactly one send, and one success if it was delivered |
| ConfirmationQueue.LocalStore.constructor | internal/cache/sqlite.go:235-244 | An empty table with an empty ledger |
| ConfirmationQueue.LocalStore.Evict | internal/localstore/store.go:430-444 | Deletes one unsynced row with the least creation time, and nothing else |
| ConfirmationQueue.LocalStore.Insert | internal/localstore/store.go:447-458 | Adds one unsynced row with a fresh id, and nothing else |
| ConfirmationQueue.LocalStore.CreateConfirmation | internal/localstore/store.go:413-474 | At the cap exactly one oldest unsynced row is evicted and otherwise none; the unsynced rows are the old ones less that, and the new one |
| ConfirmationQueue.LocalStore.GetUnsyncedConfirmations | internal/localstore/store.go:476-510 | Up to the limit of distinct unsynced rows in creation order, none older left out |
| ConfirmationQueue.LocalStore.SendOne | internal/sync/toolssync.go:296-312 | Success marks the row synced, failure adds one retry; every created row stays pending, synced or evicted, was sent at most ten times and delivered at most once, and exhausted rows are not marked synced |
| ConfirmationQueue.LocalStore.CreateAll | internal/localstore/store.go:413-474 | Creations in a row, each as specified: old rows are unchanged or evicted, the cap is kept |
| ConfirmationQueue.CreatedThen | internal/localstore/store.go:413-474 | Creations in a row, and then others, are all of them in a row |
| ConfirmationQueue.LocalStore.FlushOne | internal/sync/toolssync.go:288-313 | One turn of the flush with creations arriving before it |
| ConfirmationQueue.LocalStore.FlushAll | internal/sync/toolssync.go:287-313 | The loop over the snapshot, with creations before each entry |
| ConfirmationQueue.LocalStore.PerformFlush | internal/sync/toolssync.go:271-321 | Exactly the snapshot entries below ten retries are sent, once each, and exactly those delivered succeed; rows keep their content; a flush with nothing to send is the creations that arrive during it; the VPS is reported online exactly when every entry sent was delivered, and keeps its status when the queue is empty; when every creation names the same cap, it evicts no more than its creations would at that cap |
| ConfirmationQueue.FlushSpelled | internal/sync/toolssync.go:271-321 | Entry by entry: one with fewer than ten retries is sent once, is synced if it was delivered and has one retry more if not; any other, and any row outside the first hundred, is not sent |
| ConfirmationQueue.EvictingOnce | internal/localstore/store.go:430-444 | A creation evicts one row at the cap and none below it |
| ConfirmationQueue.History | internal/sync/toolssync.go:271-321 | From an empty queue, over any creations and flushes: every id is pending, synced or evicted, at most ten sends and one delivery each, and never more unsynced rows than the cap |
| QueueBlocking.SendableShows | internal/sync/toolssync.go:273-294 | A row that may be sent, with fewer than a hundred exhausted rows not newer than it, brings such a row into every snapshot |
| QueueBlocking.BlockedShowsNone | internal/sync/toolssync.go:273-294 | If every row that may be sent waits behind a hundred older exhausted ones, no snapshot contains one |
| QueueBlocking.SnapshotPreferring | internal/localstore/store.go:478-484 | The query may answer rows of equal age in either order, so there is a snapshot for either preference |
| QueueBlocking.EverySnapshotShowsNoneIff | internal/sync/toolssync.go:273-294 | With ties answered in any order, no snapshot contains a row that may be sent exactly when every such row has a hundred exhausted rows older than it |
| QueueBlocking.SomeSnapshotShowsNoneIff | internal/sync/toolssync.go:273-294 | And some snapshot contains none exactly when every such row has a hundred exhausted rows not newer than it |
| QueueBlocking.SnapshotSendsIff | internal/sync/toolssync.go:273-294 | With distinct creation times the two conditions are one, and a snapshot contains a row that may be sent exactly when the queue is not blocked |
| QueueBlocking.SentNothingIff | internal/sync/toolssync.go:288-297 | A flush sends nothing exactly when its snapshot contains no row that may be sent |
| QueueBlocking.FlushBlocked | internal/sync/toolssync.go:273-321 | A flush of a blocked queue sends nothing, reports the VPS online, and is no more than the creations that arrive during it, so without any it leaves the table as it was; one that sends nothing found a queue that may block, and with distinct creation times one that was blocked |
| QueueBlocking.BlockedIffHead | internal/sync/toolssync.go:273-294 | A queue with something to send is blocked exactly when a hundred exhausted rows are older than all of that |
| QueueBlocking.HeadAfterCreation | internal/localstore/store.go:413-474 | A creation evicts at most one row, from that head, and adds nothing to it |
| QueueBlocking.HeadAfterAll | internal/localstore/store.go:413-474 | Creations in a row take one row from the head each at the cap, and none below it |
| QueueBlocking.StepComes | internal/localstore/store.go:413-474 | So does each step of a script of creations and flushes |
| QueueBlocking.StepWhileBlocked | internal/sync/toolssync.go:273-321 | A creation, or a flush that finds a hundred rows at the head, sends nothing and only creates |
| QueueBlocking.RunWhileBlocked | internal/sync/toolssync.go:273-321 | Over any script of creations and flushes, creations during flushes included, that brings no more evictions than the head has rows: the head shrinks by the evictions at the cap only, every flush that finds a hundred rows there sends nothing and reports the VPS online, and the first that finds fewer finds a queue that is not blocked |
| QueueBlocking.FailedOnceMore | internal/sync/toolssync.go:288-304 | A flush while the server takes nothing fails each of a hundred rows once more |
| QueueBlocking.BlockedQueue | internal/sync/toolssync.go:273-321 | The code reaches a blocked queue: a hundred confirmations failed ten times each, and one created after |
| QueueBlocking.NewcomerWaits | internal/sync/toolssync.go:273-321 | There the new confirmation is not sent to a server that would take it, and the VPS is reported online |
| ConfigPolicy.FitsInTurn | internal/deploy/homebrew/config_policy.go:75-114 | Spending the shared budget on one part and then on the next is spending it on both together |
| ConfigPolicy.PrefixFits | internal/deploy/homebrew/config_policy.go:75-80 | If the whole fits the budget, so does what was visited so far |
| ConfigPolicy.ValidPolicyNode | internal/deploy/homebrew/config_policy.go:74-114 | Accepts exactly the trees whose nodes, mapping keys aside, fit the budget, lie at depth 64 or less, and are each of an allowed kind and tag with unique string keys other than `<<`; on success the budget is down by exactly the number of nodes |
| ConfigPolicy.GoodIffReached | internal/deploy/homebrew/config_policy.go:74-114 | All that is visited in a tree is good exactly when every node that values and items lead to, by any path, is good and at most 64 steps down |
| ConfigPolicy.GoodNodeSpelled | internal/deploy/homebrew/config_policy.go:77-113 | What one node must be: a scalar with one of six tags, a `!!seq` sequence, or a `!!map` mapping of pairs whose keys are strings other than `<<`, no two alike |
| ConfigPolicy.ItemsCounted | internal/deploy/homebrew/config_policy.go:75-77 | A sequence costs one of the budget, and what each item costs |
| ConfigPolicy.EntriesCounted | internal/deploy/homebrew/config_policy.go:75-77 | A mapping costs one, and what each value costs; keys cost nothing |
| ConfigPolicy.SoundSpelled | internal/deploy/homebrew/config_policy.go:36-43 | The root is accepted exactly when it is a mapping alone, of at most 10000 nodes, all that is reached in it being good |
| ConfigPolicy.ValidMapping | internal/deploy/homebrew/config_policy.go:82-98 | The loop over a mapping: exactly good unique keys and acceptable values |
| ConfigPolicy.ValidSequence | internal/deploy/homebrew/config_policy.go:99-108 | The loop over a sequence: exactly acceptable items |
| ConfigPolicy.KeyStep | internal/deploy/homebrew/config_policy.go:88-94 | A bad or repeated key spoils the whole mapping; a good new key extends it |
| ConfigPolicy.ValuePrefix | internal/deploy/homebrew/config_policy.go:87-98 | The nodes visited so far are the first nodes of the mapping |
| ConfigPolicy.ItemPrefix | internal/deploy/homebrew/config_policy.go:103-107 | The nodes visited so far are the first nodes of the sequence |
| ConfigPolicy.SoundRoot | internal/deploy/homebrew/config_policy.go:40-43 | The accepted root has unique keys |
| ConfigPolicy.BindsStep | internal/deploy/homebrew/config_policy.go:47-62 | One more entry adds its own binding and no other |
| ConfigPolicy.OnlyBinding | internal/deploy/homebrew/config_policy.go:49-52 | Where keys are unique, a key bound to something else than a string has no string binding at all |
| ConfigPolicy.BindsSpelled | internal/deploy/homebrew/config_policy.go:52-60 | A setting is bound where its key is followed by a string scalar |
| ConfigPolicy.ScanMapping | internal/deploy/homebrew/config_policy.go:44-65 | Finds both settings exactly when both are bound to strings, and then their only values; the duplicate-key refusal at lines 49-51 cannot be reached |
| ConfigPolicy.ScanStep | internal/deploy/homebrew/config_policy.go:47-62 | What the scan holds for a setting is its binding in the entries seen |
| ConfigPolicy.ObserveConfigPolicy | internal/deploy/homebrew/config_policy.go:36-72 | Refused exactly when the root is not an acceptable mapping or a setting lacks a string value; otherwise each comparison is exactly whether the mapping binds the setting to the selected value |
| Bytes.XorCancels | internal/chainway/frame.go:46-53 | XOR with a fixed octet on either side tells different octets apart |

## Left out

- System calls, path walking, ownership and lock checks, symbolic links, evidence hashing and plan reports: the selected object is either exactly the expected one or the run refuses.
- File systems whose fsync reports success without durability; a failed fsync changes nothing durable here, and hooks are steps that may fail.
- JSON, YAML and hex libraries: the journal text is the exact form they print, and a lenient parse followed by the canonical comparison accepts exactly that form. A nil mapping key, on which the source would panic and which the YAML decoder never produces, counts as a bad key.
- DataTransaction.Disk.Run: files other than `record`, `record.new` and the target, and a second process, are not modelled; the lock excludes it.
- OwnershipTransaction.Fixture.Run: what the adapter has changed survives a power loss, as its states are simulated; objects change only through the adapter; the inventory check is a step that may fail; a journal file that the reader refuses is not modelled, since the code replaces it only as a whole.
- ConfigPolicy.ObserveConfigPolicy: starts at the parsed tree; the trust, selection and staleness refusals before it are file checks.
- Readings.AntennaPipeline.DataReader: read errors, deadlines and cancellation only end the chunks; timestamps, log lines, last-tag statistics and auto-reading updates are left out, and the event bus is a sequence of published readings.
- ChainwayCommands.ParseTag: RSSI is a whole number of tenths, where the source uses a float that is exact enough for the same rounding; command frame builders and the stop-response parser are single expressions.
- ChainwayStream.StreamExtractor.Append: buffers are values, so slice aliasing and the copy made for each returned frame are not captured; the same holds for the generic extractor.
- Session.EveryInterleavingIsSafe: one Start per manager, as cmd/gateway/main.go:386-400 does; the clock is monotone, a watchdog tick reads time and timestamp at once, and read-power probes are ordered only among themselves.
- Session.FairRunCloses: fairness includes that each write of a command returns; the generic protocol's goroutines are not modelled.
- CacheWriter.Cache.FlushBatch: no database faults; the source drops a batch after three failures and may duplicate rows on a retry after partial inserts.
- CacheWriter.Cache.Store: the 100 ms wait for room is the writer's turns before it, not a time; a Store that passes the closed check just before Close is not modelled, nor the 5 s timeout of Flush.
- CacheWriter.Cache.BeginClose: waiting for the writer, and closing the channel and the database after it, are not steps; `WriterExits` is what the wait is for.
- ConfirmationQueue.LocalStore.PerformFlush: no database faults; there is one flush at a time, as in the ticker loop. A send and its bookkeeping are one step after the creations: the send touches no row, so creations that come between the two find and leave the rows they would have found and left just before it.
- Backoff arithmetic, heartbeat and adaptive delays, web server, TUI, updater, clients and configuration loading: I/O, timing or field-by-field checks.
