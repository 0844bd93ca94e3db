# slatedb-go, verified

slatedb-go is an LSM key-value store on object storage. One writer process puts writes into a WAL,
uploads frozen WALs, applies them to a memtable and flushes frozen memtables to L0; one compactor
process merges L0 into sorted runs. The two share an append-only sequence of manifest versions, written
by conditional put and guarded by epochs. Reads search the tiers from newest to oldest.

This project models the store in Dafny and proves it correct in two layers that meet in the read path.

**The protocols (a table is a map).** `Fencing.dfy` is a state machine over any number of writers and
compactors that share the manifests. `Lsm.dfy` is a state machine over the whole database: writes,
freezes, WAL and memtable flushes, manifest loads and writes by both processes, compactions, crashes and
restarts at any point. A run is any sequence of actions; an impossible action changes nothing, so the
theorems hold for every sequence. Beside the system runs its specification, which is only the list of the
writes. `LsmInvariant.dfy` and the `*Steps` files hold the inductive invariant and its preservation.
`LsmProgress.dfy` says what each step and each round of steps accomplishes. `Rivals.dfy` puts any number of
writers and compactors over one database and proves that the newest ones run as in the machine with one of each,
as long as no fenced writer uploads a WAL.

**The data path (a table is bytes).** Rows, blocks, Bloom filters, SST files, their builders and
iterators, the k-way merge, sorted runs, the compaction executor, the KV table and the filter cache are
imperative methods and classes, each proved against a function or a list.

**The two joined.** `StoredLsm.dfy` is the database machine with its files: a flush uploads what
`KvTables.FlushImmTable` delivers and a compaction what `Executors.ExecuteCompaction` delivers. Its runs are
runs on tables, and by induction over runs (`StoredInvariant.dfy`) the files found by id hold what is listed.
`Database.dfy` is the database as objects: manifest store, fenced clients, writer and compactor state, stored
files. Each of its methods is one action of that machine, so after any calls the objects are in the state
that the run reaches, and `Databases.Database.Get` answers from their bytes with the latest write.

The main results:

- reads return the latest write in every run, on tables, on files and on the objects
  (`LsmTheorems.ReadsSeeLatestWrites`, `Reads.GetInRun`, `Databases.Database.Get`);
- in every run what is listed is stored (`StoredInvariant.RunsAreStored`);
- crash recovery rebuilds exactly the fold of the uploaded WALs, precisely when the replay's closing
  assertion holds (`LsmGuarantees.CrashRecovery`);
- fencing over whole runs, and no lost update between writer and compactor;
- with any number of rival writers and compactors, if no fenced writer uploads a WAL, the newest ones refine the
  machine with one of each and the newest writer reads the latest writes (`Rivals.NewestRunsAlone`,
  `Rivals.NewestReadsLatestWrites`);
- rounds of steps get their work done from every state: a flush makes all writes durable, a memtable flush brings
  every durable write into the SSTs of the latest manifest, a compaction round replaces L0 by one run there
  (`LsmProgress.FlushMakesDurable`, `LsmProgress.FlushToL0Publishes`, `LsmProgress.CompactionRound`);
- compaction preserves meaning, from stored inputs to stored outputs, and delivers exactly when every filter
  can be built (`Executors.ExecuteCompaction`, `Executors.OutputsCompact`);
- round trips and byte layouts for rows, blocks, filters and SST files, exact seeks, no false negatives.

Where a property fails in the code, the code is kept, a concrete run or input shows the failure, and the
property is proved to hold exactly under a stated condition:

- an empty value becomes a tombstone when it goes through an SST (`internal/sstable/builder.go:154`), so a
  memtable flush or a crash can change an answer: `LsmReads.EmptyValueIsLost` and
  `LsmReads.EmptyValueLostInCrash`, exact over all runs in `LsmTheorems.ReadsSeeLatestWrites`;
- the WAL id moves before the upload, so a manifest write followed by a crash makes the assertion at
  `slatedb/db.go:300` fail on reopening: `LsmReads.ManifestAheadOfWals`, exact in
  `LsmGuarantees.CrashRecovery`;
- a row's time survives only if it is unset, or not on a whole second and a whole number of
  milliseconds: `Rows.WholeSecondIsLost`, exact in `Rows.TimeSurvives` and `Rows.RowRoundTripExact`;
- a key of 2^16 bytes or more, or a value of 2^32 bytes or more, is encoded with a truncated length and does not
  come back: `Rows.LongKeyIsLost` and `Blocks.LongKeyInBlock`, exact in `Rows.RowRoundTrip`;
- a filter whose length comes out as zero panics: `SstBuilders.FilterFailsAt`, exact in `Bloom.Build` and
  wherever a filter is built;
- WAL uploads are not fenced, so a fenced writer can replace a rival's WAL and a durable write is lost:
  `WalUploads.FencedWriterReplacesWal` and `Rivals.FencedUploadLosesWrite`. An upload replaces a WAL exactly if
  more WALs have been added since its writer opened the database than that writer has uploaded
  (`WalUploads.ReplacesExact`); a run replaces none exactly if it ends with as many WALs as uploads
  (`WalUploads.UploadsCount`); it replaces none if no fenced writer uploads (`WalUploads.UploadedWalsStay`);
- a cloned KV table has size zero whatever it holds: `KvTables.KvTable.Clone`;
- a job with both L0 SSTs and runs merges iterators that were never set: `Executors.LoadIterators`.

Where code and comments disagree the model follows the code. A comment at
`internal/sstable/block/block.go:133` says that decoding extracts the first key; the code takes the prefix
length of the first row for a key length, so the decoded first key of a built block is always empty. The
block round trip says so, and the iterators, which do not use that field, are proved to restore every key.

What the libraries do is a parameter, with what is assumed of it in `Formats.Lossless`: compression
and FlatBuffers decode what they encoded, a checksum is a 32-bit number. The key hash and the number of
probes are arbitrary. `PlainFormats.dfy` gives formats that meet the assumption and, with them and any filter
settings, a stored SST for every sorted list of rows that fit and whose filter can be built, so the theorems
about stored files speak of all of them. Rows fit the format if keys are shorter than 2^16 and values shorter
than 2^32 bytes; reading files back asks this of the writes that are in uploaded WALs, not of all writes. The
conditional put of a manifest is one atomic step, although the code checks and then uploads
(`slatedb/store/object_store.go:43-59`). Uploading, popping and applying a frozen WAL is one step, with one
flusher at a time. SST ids are handed out in ascending order.

The straight-line methods of `DbState` and `FenceableManifest` are proved equal to the machine's functions
and have no rows of their own; what they amount to is stated for the methods of `Databases.Database`.

## Model

| member | source | states |
|---|---|---|
| `Tables.TableOfIsLatest` | slatedb/table/kvtable.go:38-70 | A table built by writes holds, for each key, exactly the value of the last write to it (both directions) |
| `Tables.SearchIsLookup` | slatedb/db.go:145-211 | Searching tiers newest first, stopping at the first that has the key, is a lookup in the overlay of all tiers |
| `Manifests.ManifestStore.WriteManifest` | slatedb/store/manifest_store.go:248-258 | A taken id is refused and nothing changes; a free id gains exactly this version |
| `Manifests.ManifestStore.ReadLatestManifest` | slatedb/store/manifest_store.go:286-309 | The version with the greatest id, nothing when there is none |
| `Fencing.NextKeepsInv` | slatedb/store/manifest_store.go:44-208 | Every action of every client keeps the fencing invariant and never changes or drops a stored version |
| `Fencing.FencingInvariant` | slatedb/store/manifest_store.go:44-116 | In every run: ids are consecutive from 1, both epochs never decrease along ids, live clients of one kind have distinct epochs, and the panic of the epoch check is unreachable |
| `Fencing.RefreshExact` | slatedb/store/manifest_store.go:92-116 | In every run, for clients of both kinds: a refresh takes the latest version, answers fenced if and only if that carries a larger epoch of the client's kind, and ok if and only if it carries the client's own |
| `Fencing.UpdateExact` | slatedb/store/manifest_store.go:84-116 | In every run an update adds the next version with the given state if and only if the client holds the latest version and its own epoch; it is fenced or outdated exactly otherwise, and then nothing changes |
| `Fencing.JoinExact` | slatedb/store/manifest_store.go:44-82 | In every run fencing succeeds if and only if the client holds the latest version; then the next version differs from it by one in that kind's epoch, which becomes the client's; if it fails only the client's own copy is raised |
| `Fencing.NeverOverwritten` | slatedb/store/manifest_store.go:183-192 | Once stored, a version is never changed, however the run goes on |
| `Fencing.OnlyTheNewestWrites` | slatedb/store/manifest_store.go:84-90 | A write that succeeds appends the next id, keeps both epochs of the previous version, and its writer's epoch is the largest of its kind ever stored |
| `Fencing.FencedNeverWrites` | slatedb/store/manifest_store.go:108-116 | After a version with a larger epoch of its kind exists, a client never changes the store again; it is told fenced or version-exists |
| `WriterState.DbState.RefreshDbState` | slatedb/state/db_state.go:298-319 | L0 is cut at the compactor's mark; runs and mark are taken over; WAL ids and memory stay |
| `WriterState.DbState.ReplayWal` | slatedb/db.go:254-302 | The loop replays the listed WALs in order over the memtable; the returned flag is the closing assertion |
| `WriterState.CutExact` | slatedb/state/db_state.go:298-319 | Cutting a list at a mark leaves exactly what is in front of the first SST with that id, or everything |
| `WriterState.FlushFreezes` | slatedb/flush.go:57-78 | Flushing a WAL freezes the memtable under that WAL's id if and only if it has become full; otherwise the memtable keeps the rows and records the id |
| `WriterState.ReplayFreezes` | slatedb/db.go:264-298 | Replaying a WAL freezes the memtable under the same condition and moves the next WAL id past it if it is due |
| `WriterState.ReplayLeavesRoom` | slatedb/db.go:254-302 | After the replay of any list of WALs the mutable memtable is not full |
| `CompactorStates.MaybeScheduleCompaction` | slatedb/size_tiered_compaction.go:9-29 | From four L0 SSTs on, one compaction of all of L0 into the next run id, with uint32 wrap-around |
| `CompactorStates.ScheduledExact` | slatedb/size_tiered_compaction.go:9-29 | One compaction is asked for if and only if L0 has at least four SSTs; its sources are the L0 ids position by position, its destination 0 without runs, one past the newest run id below the uint32 limit, and 0 at the limit |
| `CompactorStates.CompactorState.OneOfTheSourceRunsMatchesDestination` | slatedb/compactor_state.go:133-143 | True exactly when the destination is among the source runs |
| `CompactorStates.CompactorState.SubmitCompaction` | slatedb/compactor_state.go:111-131 | Accepted, and recorded, exactly when no in-flight compaction has the destination and an existing run of that id is a source |
| `CompactorStates.CompactorState.RefreshDbState` | slatedb/compactor_state.go:145-166 | Takes the writer's L0 in front of the compactor's own mark and the WAL ids; keeps its runs and mark |
| `CompactorStates.CompactorState.RemainingL0` | slatedb/compactor_state.go:170-230 | The L0 SSTs that are not sources, in their order |
| `CompactorStates.CompactorState.MergedRuns` | slatedb/compactor_state.go:170-230 | The one-pass merge equals the recursive insertion of the output in id order with the source runs gone |
| `CompactorStates.CompactorState.RunsInIdOrder` | slatedb/compactor_state.go:233-239 | True exactly when run ids strictly decrease below the uint32 limit |
| `CompactorStates.CompactorState.FinishCompaction` | slatedb/compactor_state.go:170-230 | Sources leave L0 and the runs, the output enters, the mark moves; a failing assertion is reported and changes nothing |
| `CompactorStates.CompactorState.StartCompaction` | slatedb/compactor.go:214-258 | The loops collect the sources by id, in source order; none stands for a job with a missing source, for which the code appends a zero handle (unreachable, by `LsmGuarantees.JobsAreComplete`) |
| `CompactorStates.InsertRunDescends` | slatedb/compactor_state.go:170-239 | Inserting an output whose id is a source keeps run ids strictly decreasing |
| `CompactorStates.OrderAssertionExact` | slatedb/compactor_state.go:216-239 | For ordered runs the assertions of a finish hold if and only if the output id is below 2^32 - 1 and the compaction has a source |
| `CompactorStates.AcceptedExact` | slatedb/compactor_state.go:111-131 | A compaction is accepted if and only if its destination is not in flight and every run that finishing it would drop is one of its sources |
| `CompactorStates.FinishReplacesSources` | slatedb/compactor_state.go:170-230 | Submitting and finishing an accepted compaction replaces exactly its sources by the output: every other SST and run stays, the mark moves only for an SST source, and the compactions in flight are those from before |
| `CompactorStates.JobExact` | slatedb/compactor.go:214-258 | A job holds, in source order, an SST of L0 or of a run for every SST source and a run for every run source; there is none if and only if one is missing |
| `LsmTheorems.StepKeepsInv` | slatedb/flush.go:57-247 | Every action of writer and compactor keeps the system invariant: each copy of the state is a window of one history of SSTs, and tiers cover consecutive WALs |
| `LsmTheorems.RunKeepsInv` | slatedb/compactor.go:143-303 | Every run of every length reaches only states that satisfy the invariant |
| `LsmTheorems.SstsHold` | slatedb/state/db_state.go:283-319 | In a state of the invariant, L0 and runs together hold exactly the fold of the WALs up to the last compacted one |
| `LsmTheorems.CommittedHolds` | slatedb/db.go:165-210 | Memtables, L0 and runs together are exactly the uploaded WALs applied in order: as SSTs keep them up to the larger of the last compacted WAL and the WALs recovered at the last open, as written above |
| `LsmTheorems.UncommittedHolds` | slatedb/db.go:148-163 | With the WALs in front they are exactly all writes, with the same line between kept and written |
| `LsmTheorems.ReadsSeeLatestWrites` | slatedb/db.go:145-211 | In every run, both read levels answer with the latest write as it is kept, and with the latest write itself if and only if that is not an empty value in a WAL that has been through an SST |
| `LsmGuarantees.DurableWritesStay` | slatedb/flush.go:57-78 | The durable writes of a run are a prefix of those of every continuation, crashes included |
| `LsmGuarantees.OpenRecovers` | slatedb/db.go:254-302 | Reopening succeeds if and only if the latest manifest's next WAL id is at most one above the uploaded WALs; then the tiers are exactly the durable writes |
| `LsmGuarantees.CrashRecovery` | slatedb/db.go:254-302 | A crash after any run: WAL ids are gapless, reopening succeeds under that exact condition, and the recovered map is the fold of all uploaded WALs, which is all durable writes |
| `LsmGuarantees.WriterLosesNoCompaction` | slatedb/flush.go:195-225 | In every run, a manifest that the writer adds keeps the previous runs, mark, compactor epoch and, as its oldest part, the previous L0 |
| `LsmGuarantees.CompactorLosesNoFlush` | slatedb/compactor.go:288-303 | In every run, a manifest that the compactor adds keeps the WAL ids, the writer epoch and every L0 SST in front of its own mark |
| `LsmGuarantees.NoVersionListsItsMark` | slatedb/compactor_state.go:145-166 | No version ever stored lists its own L0 mark among its L0 SSTs |
| `LsmGuarantees.SchedulerInvariant` | slatedb/size_tiered_compaction.go:9-29 | In every run at most one compaction is in flight; its sources are an oldest suffix of the current L0, at least four long, its destination the next run id; run ids strictly decrease below the limit |
| `LsmGuarantees.JobsAreComplete` | slatedb/compactor.go:214-258 | In every run the job of a scheduled compaction holds exactly the SSTs of L0, none missing |
| `LsmGuarantees.FinishTakesTheSources` | slatedb/compactor_state.go:170-230 | Finishing leaves exactly the newer L0 SSTs, marks the newest source, puts the output in front of the runs, and asserts if and only if the id limit is reached |
| `LsmProgress.FlushLeavesRoom` | slatedb/flush.go:57-78 | In every run the mutable memtable is not full after a WAL flush, for every limit that the empty table does not reach |
| `LsmProgress.OpenLeavesRoom` | slatedb/db.go:254-302 | In every run the mutable memtable is not full after the database is opened |
| `LsmProgress.MemtableNeverFull` | slatedb/db.go:304-310 | In every run with one limit the mutable memtable is never full |
| `LsmProgress.FlushMakesDurable` | slatedb/flush.go:40-78 | After every run, freezing the WAL and flushing the frozen ones makes all writes durable in their order and leaves no WAL behind |
| `LsmProgress.FlushesReachL0` | slatedb/flush.go:227-247 | Flushing memtables under new ids takes them from the queue oldest first and moves the last compacted WAL to the last one flushed |
| `LsmProgress.FlushToL0Publishes` | slatedb/db.go:312-329 | After every run, once a WAL has reached the memtable: freezing it, flushing all frozen ones and writing the manifest puts all durable writes into the SSTs of the latest version, which counts every uploaded WAL as compacted |
| `LsmProgress.WriterLoadTakesOver` | slatedb/flush.go:195-202 | In every run a load gives the writer the latest version with its runs and mark, cuts its L0 there, and changes nothing else |
| `LsmProgress.WriterWriteExact` | slatedb/flush.go:204-225 | In every run a write adds the next version with the writer's state if and only if the writer holds the latest one |
| `LsmProgress.WriterPublishes` | slatedb/flush.go:209-225 | In every run a load followed by a write adds the writer's state as the next version |
| `LsmProgress.OpenWriterFences` | slatedb/db.go:351-373 | In every run opening adds a version that differs by one in the writer epoch; a writer that comes up has that epoch, the manifest's SSTs and the WAL id after the uploaded ones |
| `LsmProgress.StartCompactorFences` | slatedb/compactor.go:92-137 | In every run starting a compactor adds a version that differs by one in the compactor epoch; the compactor has that epoch, the manifest's state and nothing in flight |
| `LsmProgress.CompactorLoadTakesOver` | slatedb/compactor.go:177-201 | In every run a load gives the compactor the latest version with its WAL ids and the L0 SSTs in front of its own mark; runs, mark and jobs stay |
| `LsmProgress.CompactorWriteExact` | slatedb/compactor.go:288-303 | In every run a write adds the next version with the compactor's state if and only if the compactor holds the latest one |
| `LsmProgress.CompactorPublishes` | slatedb/compactor.go:288-303 | In every run a load followed by a write adds the compactor's state as the next version |
| `LsmProgress.ScheduleTakesL0` | slatedb/compactor.go:203-258 | In every run scheduling puts exactly the compaction of all of L0 and its job in flight if nothing is in flight and L0 has at least four SSTs, and changes nothing otherwise |
| `LsmProgress.FinishInstallsRun` | slatedb/compactor.go:260-286 | In every run the result of the job in flight becomes the newest run, its newest source the mark, and only the newer SSTs stay in L0 |
| `LsmProgress.CompactionRound` | slatedb/compactor.go:177-303 | From every state with nothing in flight and four SSTs in L0: schedule, finish, load and write leave a manifest version with the output as its newest run and of L0 only what was flushed since |
| `LsmReads.LoadKeepsTiers` | slatedb/flush.go:195-202 | Taking over the compactor's manifest changes neither overlay that reads search |
| `LsmReads.BackgroundKeepsReads` | slatedb/flush.go:57-100 | In every run a background step of writer or compactor changes an Uncommitted answer if and only if it flushes a memtable that shows an empty value for the key; likewise a Committed answer, WAL flushes set aside |
| `LsmReads.FlushMemtableReads` | slatedb/flush.go:227-247 | A memtable flush keeps an answer if and only if the memtable does not show an empty value for the key |
| `LsmReads.EmptyValueIsLost` | internal/sstable/builder.go:149-158 | A run in which a key reads as an empty value before a memtable flush and as not found after it |
| `LsmReads.EmptyValueLostInCrash` | slatedb/db.go:254-302 | A run in which a key reads as an empty value before a crash and as not found after reopening, with no memtable flushed |
| `LsmReads.ManifestAheadOfWals` | slatedb/db.go:254-302 | A run in which a manifest written between freeze and upload makes the next open fail its assertion |
| `Keys.LessIsLexicographic` | internal/iter/merge.go:101-110 | The key order is that of bytes.Compare: one key is below another if and only if, after a common part, it ends first or has the smaller byte |
| `MergeSorts.LeastItem` | internal/iter/merge.go:101-110 | The popped item is least by key, then by iterator index |
| `MergeSorts.MergeSort.constructor` | internal/iter/merge.go:30-49 | The heap starts with the head of every non-empty input |
| `MergeSorts.MergeSort.NextEntry` | internal/iter/merge.go:65-86 | Delivers the least remaining key with the value of the first input that has it, strictly above the last one; nothing else is lost or repeated; ends exactly when nothing remains |
| `MergeSorts.Drain` | internal/iter/merge.go:30-86 | Draining yields strictly increasing keys whose table is the overlay of the inputs, first input on top |
| `Rows.ComputePrefixChunks` | internal/sstable/block/row.go:297-318 | For every pair of slices and every positive chunk size: the length of the longest common prefix, modulo 2^16 |
| `Rows.LcpIs` | internal/sstable/block/row.go:292-294 | A common prefix after which the slices differ or end is the longest |
| `Rows.TimeSurvives` | internal/sstable/block/row.go:81-93 | A time is restored if and only if it is unset, or has non-zero nanoseconds that are whole milliseconds |
| `Rows.WholeSecondIsLost` | internal/sstable/block/row.go:81-93 | A concrete whole-second time comes back as the zero time |
| `Rows.EncodeRow` | internal/sstable/block/row.go:149-189 | The buffer filled with a moving offset is exactly the concatenation of the row's fields |
| `Rows.BigEndian` | internal/sstable/block/row.go:149-189 | The integers written are the base-256 digits of the number, the high byte first |
| `Rows.RowHead` | internal/sstable/block/row.go:149-170 | Where prefix length, suffix length, suffix, sequence number and flags stand in an encoded row, and what bits the flags are |
| `Rows.RowTail` | internal/sstable/block/row.go:170-189 | Where the times that are set stand, in milliseconds and two's complement, and the value behind its length |
| `Rows.RowRoundTrip` | internal/sstable/block/row.go:191-288 | Decoding an encoded row, whatever bytes follow, restores every field, times as far as they are stored, if and only if the suffix is shorter than 2^16 and the value shorter than 2^32 bytes; then peeking restores prefix length and suffix |
| `Rows.RowRoundTripExact` | internal/sstable/block/row.go:149-261 | The round trip is the identity if and only if both lengths fit and both times survive |
| `Rows.PeekExact` | internal/sstable/block/row.go:263-288 | Peeking at an encoded row of any size restores the suffix up to its length modulo 2^16 |
| `Rows.LongKeyIsLost` | internal/sstable/block/row.go:149-189 | A row with a suffix of 65536 bytes peeks as the empty key |
| `Blocks.LongKeyInBlock` | internal/sstable/block/block.go:166-186 | The block of one entry with a key of 65536 bytes shows the empty key in its place |
| `Blocks.BlockBuilder.Add` | internal/sstable/block/block.go:166-186 | A row is accepted exactly when the block is empty or stays within the block size; refused rows change nothing |
| `Blocks.BlockBuilder.Build` | internal/sstable/block/block.go:199-208 | The built block has the first key, the rows and the offsets of the entries added; an empty builder builds nothing |
| `Blocks.EncodeBlock` | internal/sstable/block/block.go:58-79 | The loop's bytes are rows, offsets and count, compressed and checksummed |
| `Blocks.AcceptsExact` | internal/sstable/block/block.go:166-186 | A builder refuses a row if and only if it holds one already and the encoded body with the row would exceed the block size |
| `Blocks.BodyLayout` | internal/sstable/block/block.go:58-79 | In an encoded body the rows follow one another, offset i is where row i starts, the count ends it, and each row stores the length of what it shares with the first key |
| `Blocks.OffsetsExact` | internal/sstable/block/block.go:160-186 | For block sizes below 2^16 no offset is truncated, even when the first row is oversized |
| `Blocks.BlockRoundTrip` | internal/sstable/block/block.go:58-138 | Decoding an encoded block restores rows and offsets; the first key always decodes as empty |
| `Blocks.ReadRow` | internal/sstable/block/row.go:72-79 | Row i of a block decodes, and peeks, to entry i with its full key restored from the first key |
| `Blocks.FirstFullKey` | internal/sstable/block/iterator.go:133-148 | The first full key of a built block is its first entry's key |
| `Blocks.BlockIterator.constructor` | internal/sstable/block/iterator.go:22-27 | Iterating from the start yields the block's entries |
| `Blocks.BlockIterator.AtKey` | internal/sstable/block/iterator.go:31-82 | Seeking yields exactly the entries at or above the key |
| `Blocks.BlockIterator.NextEntry` | internal/sstable/block/iterator.go:100-123 | Delivers the next entry, key restored, and ends exactly when none is left |
| `Blocks.FromIsFilter` | internal/sstable/block/iterator.go:31-82 | On a sorted list the suffix a seek delivers contains an entry if and only if the list does and its key is not below |
| `Bloom.SetBit` | internal/sstable/bloom/bloom.go:168-172 | Sets that bit of the buffer and no other |
| `Bloom.ProbesForKey` | internal/sstable/bloom/bloom.go:147-160 | The loop's probes are the iterated double-hash positions, all inside the bit array |
| `Bloom.ProbeExact` | internal/sstable/bloom/bloom.go:147-160 | Probe i stands at the low half of the hash plus i times the high half plus (i^3 - i) / 6, modulo the number of bits |
| `Bloom.HasHashExact` | internal/sstable/bloom/bloom.go:19-31 | A key passes if and only if the filter is not empty and the bit at each of those positions is set, bit n being bit n % 8 of byte n / 8 |
| `Bloom.FilterBitsExact` | internal/sstable/bloom/bloom.go:112-133 | In the filter of a list of hashes a bit is set if and only if it is such a position of one of them |
| `Bloom.PassesExact` | internal/sstable/bloom/bloom.go:19-31 | A key passes the filter of a list of keys if and only if each of its positions is a position of one of them |
| `Bloom.FilterBytesExact` | internal/sstable/bloom/bloom.go:135-139 | Without overflow a filter has the least number of bytes that holds its bits |
| `Bloom.FilterLayout` | internal/sstable/bloom/bloom.go:52-91 | A stored filter is the number of probes, the high byte first, and the bits |
| `Bloom.HasKey` | internal/sstable/bloom/bloom.go:19-31 | True exactly when every probe's bit is set; an empty filter has no key; a bit count that wraps to zero panics |
| `Bloom.Build` | internal/sstable/bloom/bloom.go:112-133 | The bits set are exactly the probes of the keys; panics exactly when keys meet a zero-length filter |
| `Bloom.FilterUnique` | internal/sstable/bloom/bloom.go:112-133 | Keys, bits per key and probe count determine the filter, byte for byte |
| `Bloom.NoFalseNegatives` | internal/sstable/bloom/bloom.go:19-31 | Every key added passes, and every probe lies inside the bit array |
| `Bloom.FilterRoundTrip` | internal/sstable/bloom/bloom.go:52-91 | Decoding an encoded filter restores it |
| `SstFormat.BlocksHold` | internal/sstable/builder.go:160-183 | The division into blocks loses and reorders nothing, every block is non-empty and fits the block size |
| `SstFormat.BlocksAreFull` | internal/sstable/builder.go:160-183 | Each block but the last is ended by a row that would take its encoded body over the block size; no body of more than one row is over it |
| `SstFormat.FileLayout` | internal/sstable/builder.go:215-268 | Blocks, filter, index and info stand in this order at the offsets of the info, and the file ends in the offset of the info |
| `SstFormat.IndexTiles` | internal/sstable/builder.go:192-213 | Index offsets tile the data part: block i lies exactly between offset i and offset i + 1 |
| `SstFormat.ReadInfoBack` | internal/sstable/decode.go:24-47 | Reading the footer of a built file restores its info, if the info starts below 2^32 |
| `SstFormat.ReadIndexBack` | internal/sstable/decode.go:72-82 | Reading the index of a built file of any length restores the offset and first key of every block |
| `SstFormat.ReadFilterBack` | internal/sstable/decode.go:49-70 | Reading the filter of a built file of any length restores it, or nothing when there are too few keys |
| `SstFormat.ReadBlocks` | internal/sstable/decode.go:92-148 | Any non-empty in-range block range reads back blocks that hold exactly those blocks' entries; other ranges are errors |
| `SstBuilders.SstBuilder.Add` | internal/sstable/builder.go:160-183 | The entry is appended; the retry after a full block never fails; finished blocks, index and keys stay in step |
| `SstBuilders.SstBuilder.AddValue` | internal/sstable/builder.go:149-158 | The value is appended, an empty one as a tombstone |
| `SstBuilders.SstBuilder.NextBlock` | internal/sstable/builder.go:185-190 | Hands out the finished blocks in order, each once |
| `SstBuilders.SstBuilder.Build` | internal/sstable/builder.go:215-268 | What was drained before plus what is returned is the file of the entries, with matching info and filter; panics if and only if a wanted filter cannot be built |
| `SstBuilders.FilterThreshold` | internal/sstable/builder.go:215-240 | A filter is written if and only if there are at least as many keys, as a uint32, as configured |
| `SstBuilders.FilterFits` | internal/sstable/bloom/bloom.go:135-139 | With at least one bit per key and no overflow of the bit count a filter can be built |
| `SstBuilders.FilterFailsAt` | internal/sstable/bloom/bloom.go:135-139 | It cannot with zero bits per key, nor with 2^29 keys of eight bits, whose bit count wraps to zero |
| `SstBuilders.WriteSst` | slatedb/store/table_store.go:89-104 | The batch path uploads the file, info and filter of the entries, and panics if and only if a wanted filter cannot be built |
| `SstBuilders.SstWriter.Add` | slatedb/store/table_store.go:221-238 | The row is appended and every finished block moves to the buffer |
| `SstBuilders.SstWriter.Close` | slatedb/store/table_store.go:244-266 | The streaming path uploads the file, info and filter of the entries, and panics under the same exact condition |
| `SstBuilders.UploadUnique` | slatedb/store/table_store.go:89-104 | Entries determine the upload, so streaming and batch uploads agree byte for byte, with the same info and filter |
| `SstIterators.FirstBlockIncludingOrAfterKey` | internal/sstable/iterator.go:141-171 | The binary search finds the last block whose first key is not above the key, or the first block |
| `SstIterators.SeekBlocks` | internal/sstable/iterator.go:110-171 | Starting at that block and seeking every block yields exactly the entries at or above the key, also for keys in gaps, before the first and after the last |
| `SstIterators.SstIterator.constructor` | internal/sstable/iterator.go:29-41 | Iterating a stored SST yields its entries |
| `SstIterators.SstIterator.AtKey` | internal/sstable/iterator.go:43-57 | Iterating from a key yields exactly the entries at or above it |
| `SstIterators.SstIterator.NextBlockIter` | internal/sstable/iterator.go:110-136 | Opens the next block, sought at the key if there is one, and ends after the last |
| `SstIterators.SstIterator.NextEntry` | internal/sstable/iterator.go:77-107 | Delivers the next entry across block boundaries and ends exactly when none is left |
| `SstIterators.ReadAll` | internal/sstable/iterator.go:77-136 | Reading a stored SST to its end returns exactly the list it was built from |
| `SortedRuns.IndexOfSstWithKey` | slatedb/compaction/sortedrun.go:24-33 | The last SST whose first key is not above the key, none if the key is below all |
| `SortedRuns.SstWithKey` | slatedb/compaction/sortedrun.go:35-41 | The last SST that does not start above the key, none if there is none; a key that occurs in the run occurs in that SST |
| `SortedRuns.SeekRun` | slatedb/compaction/sortedrun.go:69-77 | Seeking only the first SST kept still yields exactly the run's entries at or above the key |
| `SortedRuns.SortedRunIterator.constructor` | slatedb/compaction/sortedrun.go:79-108 | Opens the first SST, at the key if there is one; the others follow whole |
| `SortedRuns.SortedRunIterator.NextEntry` | slatedb/compaction/sortedrun.go:127-159 | Delivers the next entry across SSTs and ends exactly when none is left |
| `SortedRuns.RunIteratorFromKey` | slatedb/compaction/sortedrun.go:69-108 | The iterator yields exactly the run's entries at or above the key |
| `Executors.LoadIterators` | slatedb/compactor.go:363-399 | The sources' entries for L0-only and run-only jobs; a panic for jobs with neither or both |
| `Executors.MergeAndWrite` | slatedb/compactor.go:401-454 | The SSTs written are the division, at the size limit, of the merged rows in key order; panics if and only if the filter of one of them cannot be built |
| `Executors.ExecuteCompaction` | slatedb/compactor.go:363-454 | From stored sources to a stored sorted run that reads back: the outputs of the sources' tables, newest first; panics if and only if the job has neither or both kinds of sources or an output's filter cannot be built |
| `Executors.WeightsAreBytes` | slatedb/compactor.go:426-432 | What is counted against the size limit is the length of all keys concatenated plus the length of all present values concatenated |
| `Executors.OutputsCompact` | slatedb/compactor.go:401-454 | The outputs hold each source key once with the newest source's row and none is empty; the keys and values of each are within the limit without its last row and, but for the last output, over it with that row; keys increase across them, and as layers they equal the sources |
| `Executors.NoFilterFails` | slatedb/compactor.go:401-454 | With at least one bit per key and no overflow over all rows no output's filter fails, so the compaction delivers |
| `Executors.DivisionHolds` | slatedb/compactor.go:426-449 | The division loses and reorders nothing and cuts exactly at the rows that exceed the limit |
| `Executors.DivisionUnique` | slatedb/compactor.go:426-449 | The rows and the size limit determine the division into SSTs |
| `Executors.SortedLayers` | slatedb/compactor.go:450-453 | SSTs with consecutive key ranges overlay to the table of their concatenation, whichever is on top |
| `Executors.UploadStored` | slatedb/store/table_store.go:106-114 | An upload of sorted, fitting rows holds exactly those rows and, below 2^32 bytes, opens with the info it was stored with |
| `KvTables.KvTable.Get` | slatedb/table/kvtable.go:38-46 | The value last put under the key, decoded from its tagged bytes |
| `KvTables.KvTable.Put` | slatedb/table/kvtable.go:48-60 | The key holds the value; order is kept and the size stays the sum over all entries |
| `KvTables.KvTable.Delete` | slatedb/table/kvtable.go:62-70 | The key holds a tombstone; order is kept and the size stays the sum over all entries |
| `KvTables.KvTable.Size` | slatedb/table/memtable.go:49-53 | The size is the length of all keys and values of the table plus one tag byte a row |
| `KvTables.KvTable.SizeIsZero` | slatedb/state/db_state.go:243-245 | The size test of FreezeWAL is true exactly when the WAL holds no entry |
| `KvTables.KvTable.Clone` | slatedb/table/kvtable.go:113-127 | A clone has the same rows, and a right size exactly when there are none |
| `KvTables.FlushWalToMemtable` | slatedb/flush.go:85-100 | The WAL's rows lie over what the memtable held, and the memtable records the WAL's id |
| `KvTables.ReplayInto` | slatedb/db.go:264-292 | Replaying a stored WAL puts its rows over what the memtable held |
| `KvTables.FlushImmTable` | slatedb/flush.go:102-131 | The SST written is the upload of the table's rows in key order with empty values as tombstones; panics if and only if its filter cannot be built |
| `TableStores.UploadedFilter` | slatedb/store/table_store.go:102-103 | For any entries and any file length the filter handed over at upload is the one its file decodes to |
| `TableStores.TableStore.Store` | slatedb/store/table_store.go:89-104 | Uploading stores the file, caches the builder's filter and keeps cache and files in agreement |
| `TableStores.TableStore.ReadFilter` | slatedb/store/table_store.go:141-157 | Cached or not, after any writes, reads and evictions, the answer is the filter in the stored file, and it is cached from then on |
| `TableStores.TableStore.Evict` | slatedb/store/table_store.go:135-139 | Dropping cached filters keeps the agreement |
| `Reads.SstMayIncludeKey` | slatedb/db.go:226-236 | Never panics on a stored SST; yes exactly when there is a first key, the key is not below it, and the filter of the SST's keys, if it has one, passes it; always yes to a key it has |
| `Reads.SrMayIncludeKey` | slatedb/db.go:238-250 | Never panics on a stored run; yes exactly when the one SST that covers the key exists and its filter passes the key; always yes to a key the run has |
| `Reads.FromHead` | slatedb/db.go:188-191 | The first entry at or above a key has that key if and only if the table has it, with the same value |
| `Reads.GetFromSst` | slatedb/db.go:180-193 | Range, filter, index, seek and comparison together are a lookup in the SST's table |
| `Reads.GetFromRun` | slatedb/db.go:195-208 | The same for a sorted run |
| `Reads.GetWithOptions` | slatedb/db.go:145-211 | On stored SSTs and runs, both read levels answer exactly what the tier search on tables answers |
| `Reads.CoreRepresents` | slatedb/db.go:180-208 | The files of a stored core, found by id, represent its L0 and runs |
| `Reads.GetInRun` | slatedb/db.go:135-211 | In every run of the machine with files whose durable writes fit the row format, a read over the bytes of the files found by id answers with the latest write as it is kept, and with the latest write itself under the exact condition |
| `StoredLsm.RunsOnTables` | slatedb/flush.go:57-247 | Every run of the machine with files is a run of the machine on tables |
| `StoredInvariant.StepKeepsStored` | slatedb/flush.go:102-131 | Every action with its upload keeps: each listed SST is stored under its id, each listed run is a sorted run of stored SSTs, each WAL is stored under its id |
| `StoredInvariant.OldestWalRows` | slatedb/flush.go:57-83 | In every run the next WAL to be uploaded holds exactly the oldest frozen group of writes, and its upload makes them durable |
| `StoredInvariant.OldestMemtableRows` | slatedb/flush.go:227-247 | In every run the next memtable to be flushed holds durable writes only |
| `StoredInvariant.WritesHaveKeys` | slatedb/db.go:123-133 | No run writes an empty key |
| `StoredInvariant.RunAccepted` | slatedb/compactor_state.go:170-230 | What the executor delivers for a job is accepted: it compacts the job's tables under fresh ids |
| `StoredInvariant.RunsAreStored` | slatedb/compactor.go:401-454 | In every run whose durable writes fit the row format, what manifests, writer and compactor list is stored; each WAL file holds its table and, below 2^32 bytes, opens with the info it was stored with |
| `Databases.Database.Create` | slatedb/db.go:331-349 | The objects take the action of the machine that creates the first version |
| `Databases.Database.OpenWriter` | slatedb/db.go:351-373 | Fencing and replaying on the objects is the machine's open, for stored WAL files below 2^32 bytes; a writer is up exactly if the replay's closing assertion holds |
| `Databases.Database.ReplayWals` | slatedb/db.go:254-302 | Listing, opening and reading the stored WAL files, each below 2^32 bytes, rebuilds exactly the state that replaying their tables gives |
| `Databases.Database.Put` | slatedb/db.go:123-133 | A put on the objects is the machine's write |
| `Databases.Database.Delete` | slatedb/db.go:217-224 | A delete on the objects is the machine's write of a tombstone |
| `Databases.Database.FreezeWal` | slatedb/state/db_state.go:239-254 | The freeze on the objects is the machine's |
| `Databases.Database.FlushWal` | slatedb/flush.go:57-78 | Writing the oldest frozen WAL as a file, popping and applying it is the machine's upload; the process dies exactly if the filter cannot be built |
| `Databases.Database.FlushImmWals` | slatedb/flush.go:57-78 | The loop empties the queue with exactly one upload of the machine for each frozen WAL, unless the process dies |
| `Databases.Database.FreezeMemtable` | slatedb/db.go:314-329 | The freeze on the objects is the machine's, and does nothing before a WAL has reached the memtable |
| `Databases.Database.FlushMemtable` | slatedb/flush.go:227-247 | Writing the oldest frozen memtable as a file and listing it in L0 is the machine's upload; the process dies exactly if the filter cannot be built |
| `Databases.Database.WriterLoad` | slatedb/flush.go:195-202 | Refreshing the client and merging the manifest on the objects is the machine's load |
| `Databases.Database.WriterWrite` | slatedb/flush.go:204-207 | Writing the manifest through the fenced client is the machine's write |
| `Databases.Database.StartCompactor` | slatedb/compactor.go:92-137 | Fencing and loading on the objects is the machine's start |
| `Databases.Database.CompactorLoad` | slatedb/compactor.go:177-201 | Refreshing the client and merging the manifest on the objects is the machine's load |
| `Databases.Database.CompactorSchedule` | slatedb/compactor.go:203-258 | Scheduling, submitting and starting on the objects is the machine's schedule |
| `Databases.Database.CompactorFinish` | slatedb/compactor.go:260-286 | Running the executor on the stored inputs and installing its run is the machine's finish; the process dies exactly if a filter cannot be built or the run id reaches the uint32 limit |
| `Databases.Database.CompactorWrite` | slatedb/compactor.go:288-303 | Writing the manifest through the fenced client is the machine's write |
| `Databases.Database.Get` | slatedb/db.go:135-211 | Whatever methods were called before, a read on the objects and files answers with the latest write, under the same exact condition, if the durable writes fit the row format |
| `WalUploads.NextId` | slatedb/state/db_state.go:239-254 | With rival writers, as long as a writer stays up its next WAL id is one past the WALs it found when it opened plus its own uploads |
| `WalUploads.ReplacesExact` | slatedb/store/table_store.go:89-104 | Its next upload replaces a stored WAL if and only if more WALs have been added since it opened than it has uploaded itself |
| `WalUploads.UploadsCount` | slatedb/store/table_store.go:89-104 | In every run the WALs stored and the uploads that replaced one add up to all uploads, so none was replaced if and only if there are as many WALs as uploads |
| `WalUploads.UploadedWalsStay` | slatedb/flush.go:57-83 | In every run in which no fenced writer uploads, a stored WAL is never replaced |
| `WalUploads.FencedWriterReplacesWal` | slatedb/flush.go:57-83 | A run in which a fenced writer's upload replaces a WAL that the new writer has uploaded |
| `Rivals.FencedStep` | slatedb/store/manifest_store.go:84-116 | Whatever a fenced writer does short of uploading a WAL, manifests, WALs and compactor stay as they are, SST ids are only used up, it stays fenced, and a load does not change its state |
| `Rivals.FencedCompactorStep` | slatedb/store/manifest_store.go:84-116 | Whatever a fenced compactor does, manifests, WALs and writer stay as they are, SST ids are only used up, it stays fenced, and a load does not change its state |
| `Rivals.FewerIds` | slatedb/flush.go:227-247 | SST ids that others have used rule a step out or change nothing else about it |
| `Rivals.OpenStep` | slatedb/db.go:351-373 | Opening the database fences the writer that was the newest and finds what that writer's crash would have left |
| `Rivals.StartStep` | slatedb/compactor.go:92-137 | Starting a compactor fences the one that was the newest and starts as after that one's crash |
| `Rivals.NewestRunsAlone` | slatedb/store/manifest_store.go:44-116 | In every run with any number of writers and compactors in which no fenced writer uploads a WAL, the newest writer, the newest compactor, manifests and WALs are in a state that a run with one of each reaches after the same writes, and all other writers and compactors are fenced |
| `Rivals.NewestReadsLatestWrites` | slatedb/db.go:145-211 | In such a run the newest writer's reads answer with the latest writes, with the exact condition of one writer |
| `Rivals.RivalWritesStay` | slatedb/flush.go:57-78 | What any writer has made durable stays among the durable writes, whoever opens the database later |
| `Rivals.FencedUploadLosesWrite` | slatedb/flush.go:57-83 | A run in which the newest writer reads its durable value, a fenced writer uploads, and after reopening the fenced writer's value is read |
| `PlainSst.StoreList` | slatedb/store/table_store.go:89-104 | With the plain formats and any filter settings, every sorted list of rows that fit is written as a stored SST, unless its filter cannot be built |

## Left out

- LoadIterators, MergeAndWrite: each source is read to its end before the merge starts; the code pulls rows from its iterators one at a time.
- GetWithOptions: filters are decoded from the file; that the cache gives the same is stated for `TableStore.ReadFilter`.
- ReplayWal, FlushWal: a table's rows are applied as one overlay; the loops over rows are `KvTables.FlushWalToMemtable` and `KvTables.ReplayInto`.
- StartCompaction: gives no job when a source is missing, where the code appends a zero handle; no run gets there (`LsmGuarantees.JobsAreComplete`).
- UploadedWalsStay: its condition is sufficient; a fenced writer's upload need not hit a taken id, for which `WalUploads.ReplacesExact` has the exact condition.
- NewestRunsAlone: its condition is sufficient, for the same reason; a fenced writer's upload breaks what it promises in `Rivals.FencedUploadLosesWrite`.
- CompactorFinish: the handles it lists carry their rows, which are read back from the files; the code's handles carry none.
- GetInRun, Get, OpenWriter, CompactorFinish: ask that the durable writes fit the row format. What becomes of a longer key or value is stated for a row and a block (`Rows.RowRoundTrip`, `Blocks.LongKeyInBlock`), not for a database in which one is durable.
- OpenWriter, ReplayWals: ask that the stored WAL files are below 2^32 bytes, the footer's limit (`SstFormat.ReadInfoBack`).
- A panic ends the process that hits it; where writer and compactor share a process the other's crash is a separate action.
- Object store, paths, listings and upload errors: an upload succeeds, a listing is complete.
- Compression codecs, CRC-32, FNV hashing, FlatBuffers, the manifest codec and the floating-point probe count are parameters; a present zero ULID, which decodes as absent, is not modelled.
- Goroutines, tickers, channels, shutdown and locks: each critical section, flush iteration or request is an atomic step, and nothing is claimed about when a step is taken; the retry loops around manifest writes are any number of load and write steps.
- Two flushers at once: the oldest frozen WAL is read and popped in separate critical sections, and two flushers share one manifest client; one flusher at a time is modelled. So is FlushMemtableToL0, which reads the last WAL id and freezes in two critical sections (`slatedb/db.go:315` and `slatedb/db.go:321`), while the WAL flusher writes into a memtable it has taken before (`slatedb/flush.go:73`): that the memtable is frozen and flushed in between is not modelled.
- Opening a database is one step; a rival between the load of the manifest, the fence and the replay is not modelled.
- The moment between popping a frozen WAL and applying it to the memtable, in which an Uncommitted read can miss it.
- Rival processes in the machine with files and in `Database.dfy`: they are modelled on tables in `Rivals.dfy`, and in `WalUploads.dfy` and `Fencing.dfy`.
- Epochs, WAL ids and versions that reach 2^64.
- Corrupt files: reads are proved on well-formed data; decoders report corruption or a panic, and recovery, warnings and pretty printers are not modelled.
- Skip list, deque, `container/heap`, `sort.Search` and the filter cache's eviction policy enter by what they promise.
- Merge rows and row sequence numbers other than zero: nothing in the store writes them.
