# A verified model of LevelDB and nanopb

The Timeline app carries two libraries that do hard work: **LevelDB** (`Timeline/Pods/leveldb-library`),
a log-structured merge store, and **nanopb** (`Timeline/Pods/nanopb`), a table-driven Protocol Buffers
codec. This project models both in Dafny and proves what they promise. `dafny verify dfyconfig.toml`
checks everything.

## How it is built

Each file is one module, named after what it models.

**The store.** The meaning of the database is a set of entries (user key, sequence number, put or
delete) and one question: the newest entry of a user key at or below a snapshot (`Entries`). A state
(`Store`) holds memtable, immutable memtable, seven levels of files, snapshots, and a ghost history of
everything ever written. `Inv` says that levels are well formed and that newer entries of a user key lie
in places searched earlier. `Faithful` says that every snapshot that may still be read sees what the
history says. The steps are write, memtable switch, flush, trivial move, compaction and snapshots
(`Store`, `StoreSteps`, `CompactionStep`, `CompactionTheorem`). `Runs` is the theorem over all runs of
them. `Choices` says which of the steps that keep the store well formed the database takes: the level of a
flush, trivial moves, and where output files are cut. `DbImpl` is the class whose methods take these steps.
`VersionSet`, `CompactionInputs`, `CompactionWork`, `OutputCuts`, `NextLevel`, `Lookup`, `Merger`,
`InternalIterator` and `DbIter` are the searches, input selection, drop loop, file cuts and the overlap that they
bound, lookup and iterators; `IterScans` and
`GrowingList` hold what is known of the scans of an iterator whose list grows meanwhile. `RankedKeys` ties the
bytes of a table to the entries of a file in the store. `ResurrectionExample`, `ResurrectionRun` and
`LostOverwriteExample` are runs that end badly.

**Durability.** `Log`, `LogReader` and `LogRoundTrip` are the write-ahead log; `LogChecks` says what the reader
makes of any file, and `LogFailures` and `LogDrift` what failed appends do to a log. `WriteBatch` (module
`WriteBatches`) is the record format, `BatchChecks` what becomes of batches that are not whole. `WriterQueue`
is group commit as a state machine, one step per section between lock releases. `Recovery` puts them
together: what of the log survives a crash; `LostSyncExample` is a run that loses a write. `CrashSafety` says
what store reopens, and `LogStore` runs the queue and the store side by side, so that the bytes a crash leaves
of the log become the memtable of the store that reopens. `VersionEdit`, `VersionBuilder`, `BuilderExact`, `Manifest`, `ManifestRules` and `Versions` are the
MANIFEST and its replay, and `StoreManifest` the edits that the store's steps write to it.

**Structures.** `SkipList`; `HandleTable` and `Cache` (the LRU cache); `Block` and `BlockIter`; `ByteKeys`,
`Bloom`, `FilterBlock`, `Table`, `TableBuilder` and `TwoLevelIterator` (tables).

**nanopb.** `Nanopb` holds descriptor tables, values and the format an encoder writes. `NanopbDecode`
says what decoding means, `NanopbRoundTrip` proves the round trip, and `NanopbEncoder` and
`NanopbDecoder` are the stream-based code, proved against those functions. `NanopbAnyInput` says what decoding gives
for any input, and `NanopbUnknown` what it does with fields that the table does not have.

## Results that are not plain promises

*Compaction can bring a deleted key back.* `SetupOtherInputs` closes the inputs of the lower-numbered
level under shared boundary user keys, but not those it picks from the next level. A deletion mark in a
picked file can then be dropped while an older put of the same key stays in a file that was not picked.
`CompactionTheorem.CompactionExact` proves when compaction preserves every readable snapshot: exactly when
no key is in that position. `ResurrectionRun.RunBringsKeyBack` gives a run, from the empty store, that ends
with a deleted key reading as present. Each of its steps is one the database takes (`Choices.Taken`): flushes
go to the level that is picked for them, a lone file is moved, not rewritten, and output files end where the
loop ends them. The compaction that parts the two entries of the key is one of the whole key range, which
reaches level 2 because a file of another key lies in level 3. `CompactionTheorem.ClosedBelowIsSafe` shows
that closing the second input set too is enough.

*A crash can bring one back that readers had not seen return.* If the key in that position was written
again, and only a log has the new value, readers notice nothing, but a crash that loses the unsynced end of
the log uncovers the old put (`LostOverwriteExample.LostOverwriteReturns`). The exact condition asks the
same of the last flushed sequence number as `CompactionExact` asks of the oldest snapshot
(`CrashSafety.CompactionDurableExact`), and with it every crash leaves the history without the lost writes
(`CrashSafety.CrashKeepsTheRest`). Closing the second input set is enough for it as well
(`CrashSafety.ClosedBelowIsCrashSafe`).

*After a failed append the log writer may be out of step with its file.* `EmitPhysicalRecord` moves the
block offset on even when the append failed, and later writers go on using it unless a sync failed. From
then on fragments may straddle block boundaries: in `LostSyncExample.SyncWriteIsLost` an acknowledged sync
write cannot be read back although every byte of the file is synced. `LogDrift.MisalignedLoses` shows that
this is so for any file whose length differs from the offset modulo the block size, and
`LogDrift.AlignedExact` that alignment is the exact condition. `Recovery.CrashRecovery` and
`Recovery.DurableWritesSurvive` therefore ask that each append found the writer aligned
(`LogFailures.NeverDrifted`), which is so in particular when no append has failed since the log was started
(`Recovery.NoFailedAppend`). The MANIFEST is such a log too and stays open after an error: the version is still
found after a failed edit (`LogFailures.LastFailureIsSilent`), but edits appended behind it need the writer
to be aligned (`Versions.RecoverFindsCurrent`).

*One builder for many edits is not always one builder for each.* `BuilderExact.BatchExact` says exactly when
they agree: no file added is one of the base whose number the builder has deleted, or one it has added
already. File numbers are never reused and a file never moves up, so the store's own edits meet this
(`StoreManifest.StepEdit`).

nanopb decodes a string field only up to its buffer with room for a terminator, while the encoder accepts
a string that fills the buffer. `NanopbRoundTrip.ScalarRoundTrip` states the exact outcome: the value comes
back when it fits with its terminator, and decoding fails otherwise.

## Model

| member | source | states |
|---|---|---|
| Entries.FirstHitIsNewest | Timeline/Pods/leveldb-library/db/version_set.cc:326-421 | If everything in one layer is newer per user key than everything below, a hit in the upper layer is the newest of both, and a miss leaves the answer to the lower one. |
| Entries.FindsExists | Timeline/Pods/leveldb-library/db/db_impl.cc:1100-1145 | Among finitely many entries every user key and snapshot has a newest visible entry or none. |
| Entries.SameReadsExtend | Timeline/Pods/leveldb-library/db/db_impl.cc:1100-1145 | Two entry sets that read alike from some snapshot on still do after both receive the same newer entries. |
| Entries.FirstAtOrAfter | Timeline/Pods/leveldb-library/db/version_set.cc:88-106 | The split point of a sorted entry list: everything before it is below the target, and its own entry is not. |
| VersionSet.FindFile | Timeline/Pods/leveldb-library/db/version_set.cc:88-106 | The binary search returns the boundary between files that end before the key and files that do not. |
| VersionSet.SomeFileOverlapsRange | Timeline/Pods/leveldb-library/db/version_set.cc:122-163 | Linear and binary search both answer: some file of the level overlaps the range, with open ends allowed. |
| VersionSet.GetOverlappingInputs | Timeline/Pods/leveldb-library/db/version_set.cc:519-559 | It terminates despite restarts. It returns the files that overlap the final range, which at level 0 is the least range containing the request and closed under overlap, and elsewhere is the request. |
| VersionSet.ExpandRange | Timeline/Pods/leveldb-library/db/version_set.cc:535-556 | Widening the range by an overlapping file keeps it inside every closed range around the request, and leaves fewer files outside, so restarts end. |
| CompactionInputs.FindLargestKey | Timeline/Pods/leveldb-library/db/version_set.cc:1326-1339 | The greatest of the files' largest keys, or none for no file. |
| CompactionInputs.GetRange | Timeline/Pods/leveldb-library/db/version_set.cc:1205-1227 | The hull of the files: least smallest key and greatest largest key. |
| CompactionInputs.FindSmallestBoundaryFile | Timeline/Pods/leveldb-library/db/version_set.cc:1344-1362 | The boundary file with the least smallest key, or the certainty that there is none. |
| CompactionInputs.AddBoundaryInputs | Timeline/Pods/leveldb-library/db/version_set.cc:1378-1401 | It terminates. The result extends the inputs by a chain of boundary files and is closed: no file of the level shares the last user key from above. |
| CompactionInputs.ChainExtendsRun | Timeline/Pods/leveldb-library/db/version_set.cc:1378-1401 | In a sorted disjoint level, adding boundary files to a contiguous run leaves a contiguous run. |
| CompactionInputs.RunIsClosed | Timeline/Pods/leveldb-library/db/version_set.cc:1364-1377 | No file outside a closed run holds an older entry of a user key in it. |
| CompactionInputs.BoundaryCloses | Timeline/Pods/leveldb-library/db/version_set.cc:1403-1408 | The inputs picked at any level are closed after the boundary step. |
| CompactionInputs.SetupOtherInputs | Timeline/Pods/leveldb-library/db/version_set.cc:1403-1462 | First inputs closed, the start files among them; second inputs exactly the next level's files overlapping their hull, also after the optional widening. A file two levels down is a grandparent exactly when it begins no later than some input of either level ends and ends no earlier than some input begins. The next compaction pointer is the greatest key of the first inputs. |
| CompactionInputs.GrandparentsAre | Timeline/Pods/leveldb-library/db/version_set.cc:1414-1453 | The same of the grandparents as a function of the inputs. |
| CompactionInputs.TryExpand | Timeline/Pods/leveldb-library/db/version_set.cc:1418-1446 | The wider inputs are all files that meet the hull of both sides, at level 0 with what these overlap, closed under boundary files. They are taken exactly when there are more of them, both sides together stay below the size limit, and they meet no more files of the next level; the inputs stay among them, and both sides stay good. |
| CompactionInputs.PickStart | Timeline/Pods/leveldb-library/db/version_set.cc:1270-1322 | The start file is the one a seek asked for, else the first that ends beyond the compaction pointer, else the first of all; at level 0 with the files of the least closed range around it. `SetupOtherInputs` may start from them. |
| CompactionInputs.RangeStart | Timeline/Pods/leveldb-library/db/version_set.cc:1464-1495 | A manual compaction starts from all files that meet the range, at level 0 the least closed one around it; above level 0 from as few of the first ones as reach the size limit, or all. There is none exactly when no file meets the range. |
| CompactionWork.Compaction.IsBaseLevelForKey | Timeline/Pods/leveldb-library/db/version_set.cc:1533-1552 | For non-decreasing user keys the advancing cursors answer the plain question whether any file two or more levels down covers the key. |
| CompactionWork.Compaction.ShouldStopBefore | Timeline/Pods/leveldb-library/db/version_set.cc:1554-1576 | The cursor stops at the first grandparent that does not end before the key. The output stops exactly when the bytes of the grandparents passed since the last stop exceed the limit, and counting then starts again. |
| CompactionWork.ShouldDrop | Timeline/Pods/leveldb-library/db/db_impl.cc:936-973 | An entry is dropped exactly when a newer entry of its user key is visible to the oldest snapshot, or when it is a deletion mark visible to it with nothing deeper. |
| CompactionWork.ProcessEntry | Timeline/Pods/leveldb-library/db/db_impl.cc:906-1000 | One turn of the merge loop appends the entry to the outputs unless the drop rules hold, and ends files where a stop or the size asks for it. |
| CompactionWork.DoCompactionWork | Timeline/Pods/leveldb-library/db/db_impl.cc:890-1006 | The output files hold the kept entries in order, with consecutive file numbers. A file ends when its table is big enough or at a stop, and goes on otherwise. |
| CompactionWork.OneWayToCut | Timeline/Pods/leveldb-library/db/db_impl.cc:920-1006 | Given the entries and the first file number, the rules for ending files leave exactly one list of output files. |
| OutputCuts.OverlapIsBounded | Timeline/Pods/leveldb-library/db/version_set.cc:1554-1576 | No output file passes more bytes of grandparents than the limit allows. |
| OutputCuts.EndsForCause | Timeline/Pods/leveldb-library/db/version_set.cc:1554-1576 | An output file that is not big enough ends only where, since some earlier key, more bytes of grandparents than the limit were passed. |
| NextLevel.MetIsCounted | Timeline/Pods/leveldb-library/db/version_set.cc:1448-1453 | Every file two levels down that an output file of a compaction meets is among the grandparents. |
| NextLevel.OutputIsBounded | Timeline/Pods/leveldb-library/db/version_set.cc:1554-1576 | So the files of that level that end within an output file have together no more bytes than the limit, whatever grandparents are. |
| NextLevel.MoveIsBounded | Timeline/Pods/leveldb-library/db/version_set.cc:1515-1523 | A lone input is moved exactly when no file of the next level meets it and those of the level after it that do are within the limit. |
| OutputCuts.CountKey | Timeline/Pods/leveldb-library/db/version_set.cc:1554-1576 | The running index and byte count tell exactly the stops that the grandparents passed since the last stop give on the plain input. |
| CompactionWork.KeptElements | Timeline/Pods/leveldb-library/db/db_impl.cc:936-973 | The loop's running rules agree with a plain set definition: an entry goes when its set holds a newer entry of its key that every readable snapshot sees, or when it is such a deletion mark. |
| CompactionMeaning.DropRulesExact | Timeline/Pods/leveldb-library/db/db_impl.cc:936-973 | Replacing the inputs by the kept entries preserves every read from the oldest snapshot on if and only if no dropped mark hides an older entry left behind in the next level. |
| CompactionMeaning.ReadUnchanged | Timeline/Pods/leveldb-library/db/db_impl.cc:936-973 | Key by key: a user key that is not resurrected reads the same at every readable snapshot. |
| CompactionMeaning.ResurrectionWitness | Timeline/Pods/leveldb-library/db/version_set.cc:1407-1411 | A resurrected key has an input entry in the next level and an older entry of the same key left behind there. |
| CompactionStep.LeftIsNewer | Timeline/Pods/leveldb-library/db/version_set.cc:1378-1401 | What closed inputs leave behind in their level is newer per user key than the inputs. |
| CompactionStep.LeftApart | Timeline/Pods/leveldb-library/db/version_set.cc:1409-1414 | A file of the next level that was not picked lies wholly to one side of all inputs. |
| CompactionStep.RearrangeOk | Timeline/Pods/leveldb-library/db/db_impl.cc:860-876 | Replacing good inputs by any sorted outputs made of their entries keeps the whole store invariant. |
| CompactionStep.RearrangeDisjoint | Timeline/Pods/leveldb-library/db/db_impl.cc:860-876 | After the edit both levels involved are still sorted and disjoint. |
| CompactionTheorem.CompactionOutputOk | Timeline/Pods/leveldb-library/db/db_impl.cc:890-1006 | What the merge loop writes are well-formed, disjoint, freshly numbered files holding exactly the kept entries. |
| CompactionTheorem.OutputsAreLean | Timeline/Pods/leveldb-library/db/db_impl.cc:936-973 | Nothing obsolete is written: of two output entries of a user key the newer is too new for the oldest snapshot, and a deletion mark that it sees stays only where a file two or more levels down reaches over its key. |
| CompactionTheorem.CompactionExact | Timeline/Pods/leveldb-library/db/db_impl.cc:878-1028 | A compaction keeps the store invariant, and keeps all readable snapshots faithful to the history if and only if it resurrects no key. |
| CompactionTheorem.ClosedBelowIsSafe | Timeline/Pods/leveldb-library/db/version_set.cc:1407-1411 | If no unpicked file of the next level shares a boundary user key with the picked ones, no key is resurrected. |
| CompactionTheorem.TrivialMoveOk | Timeline/Pods/leveldb-library/db/db_impl.cc:718-728 | Moving a lone input file down one level keeps the invariant and the stored entries. |
| ResurrectionExample.DeletedKeyReturns | Timeline/Pods/leveldb-library/db/version_set.cc:1407-1411 | A state satisfying every invariant whose compaction, with inputs and output as the code picks them, is not faithful: a deleted key reads as present. |
| ResurrectionRun.ExampleIsReachable | Timeline/Pods/leveldb-library/db/db_impl.cc:718-748 | That state is the end of a run from the empty store, every step of which is enabled, safe, and one that the database takes. |
| ResurrectionRun.RunBringsKeyBack | Timeline/Pods/leveldb-library/db/version_set.cc:1407-1411 | So a run that the database takes, continued by one compaction that it takes, makes a deleted key read as present. |
| ResurrectionRun.LastIsChosen | Timeline/Pods/leveldb-library/db/db_impl.cc:718-748 | That compaction is not a trivial move, and its one output file is cut as the loop cuts it. |
| Layers.MoveDown | Timeline/Pods/leveldb-library/db/version_set.cc:491-516 | Entries may sink past layers that are newer than them per user key; order of layers and their union stay. |
| Store.WriteOneOk | Timeline/Pods/leveldb-library/db/write_batch.cc:121-128 | Adding one entry at the next sequence number keeps the invariant and faithfulness. |
| Store.WriteOk | Timeline/Pods/leveldb-library/db/db_impl.cc:1185-1256 | So does a whole batch, which takes as many sequence numbers as it has operations. |
| Store.SwitchOk | Timeline/Pods/leveldb-library/db/db_impl.cc:1346-1366 | Making the memtable immutable keeps the invariant and faithfulness. |
| StoreSteps.FlushOk | Timeline/Pods/leveldb-library/db/db_impl.cc:491-566 | Flushing the immutable memtable to a level with no overlap on the way keeps the invariant and stores the same entries. |
| DbImpl.PickLevelForMemTableOutput | Timeline/Pods/leveldb-library/db/version_set.cc:491-516 | The level chosen for a flush is the deepest it may go to, up to the configured one: level 0 when it overlaps there, else down until the next level overlaps or the one after it has too many overlapping bytes. |
| DbImpl.FlushPassesNothing | Timeline/Pods/leveldb-library/db/version_set.cc:491-516 | No file from level 0 down to that level overlaps the new file. |
| Lookup.SearchLevelZero | Timeline/Pods/leveldb-library/db/version_set.cc:343-361 | The newest-file-first search of level 0 finds the newest visible entry of the level. |
| Lookup.SearchLevel | Timeline/Pods/leveldb-library/db/version_set.cc:362-380 | Probing the one file that the binary search names finds the newest visible entry of a sorted level. |
| Lookup.OnlyCandidate | Timeline/Pods/leveldb-library/db/version_set.cc:362-380 | Any visible entry of the user key forces the probed file to hold one at least as new. |
| Lookup.VersionGet | Timeline/Pods/leveldb-library/db/version_set.cc:326-421 | Stopping at the first hit, level by level, gives the newest visible entry of all levels. |
| Lookup.MemGet | Timeline/Pods/leveldb-library/db/db_impl.cc:1117-1126 | Memtable, then immutable memtable, gives the newest visible entry of the two. |
| Lookup.Get | Timeline/Pods/leveldb-library/db/db_impl.cc:1100-1145 | A lookup returns what a scan of everything stored would read, and what the history of all writes says when the state is faithful. |
| Runs.StepOk | Timeline/Pods/leveldb-library/db/db_impl.cc:688-750 | Every enabled step of the store keeps the invariant, and keeps faithfulness unless it is a resurrecting compaction. |
| Runs.RunsAreFaithful | Timeline/Pods/leveldb-library/db/db_impl.cc:1100-1145 | In every state of every run of writes, snapshots, switches, flushes, moves and safe compactions, each live snapshot and the present read exactly as the write history says. |
| Runs.SnapshotIsolation | Timeline/Pods/leveldb-library/db/db_impl.cc:1205-1237 | Writing any batch changes neither what the store nor what the history reads at an older sequence number. |
| Runs.SnapshotNeverChanges | Timeline/Pods/leveldb-library/db/db_impl.cc:1166-1169 | In a run, a snapshot held in two states reads the same in both, through writes, flushes, moves and compactions in between. |
| Runs.HeldUntilReleased | Timeline/Pods/leveldb-library/db/db_impl.cc:1166-1174 | In a run, a snapshot once taken is held, and reads the same, until it is given back itself. |
| Store.OthersStay | Timeline/Pods/leveldb-library/db/db_impl.cc:1171-1174 | Giving back a snapshot takes away that one alone. |
| Choices.StepIsReached | Timeline/Pods/leveldb-library/db/db_impl.cc:688-750 | A safe step that the database takes leads from a state that some run of it reaches to one that a run reaches. |
| Choices.ReachedIsGood | Timeline/Pods/leveldb-library/db/db_impl.cc:688-750 | Every state that such a run reaches meets the invariant and is faithful. |
| Runs.WritesOnlyAdd | Timeline/Pods/leveldb-library/db/db_impl.cc:1205-1237 | Writing a batch adds to what is stored, and nothing that a reader at an earlier sequence number may see. |
| Runs.WriteIsSeen | Timeline/Pods/leveldb-library/db/db_impl.cc:1185-1256 | After a put or delete a read at the newest sequence number sees it. |
| DbImpl.DB.Write | Timeline/Pods/leveldb-library/db/db_impl.cc:1205-1250 | Writing a batch takes the abstract write step and stays faithful. |
| DbImpl.DB.Get | Timeline/Pods/leveldb-library/db/db_impl.cc:1100-1145 | The class's lookup returns what the history says at any readable snapshot. |
| DbImpl.DB.GetSnapshot | Timeline/Pods/leveldb-library/db/db_impl.cc:1166-1169 | A snapshot is the current last sequence, registered as live. |
| DbImpl.DB.ReleaseSnapshot | Timeline/Pods/leveldb-library/db/db_impl.cc:1171-1174 | The snapshot given back is no longer held, the others are, and nothing else changes. |
| DbImpl.DB.NewIterator | Timeline/Pods/leveldb-library/db/db_impl.cc:1147-1157 | The iterator over all memtables and files, at a held snapshot or at the present, has to show what the write history holds there, whatever entries others add after its snapshot while it lives; its five moves are proved to. |
| DbImpl.DB.SwitchMemTable | Timeline/Pods/leveldb-library/db/db_impl.cc:1346-1366 | The switch is the abstract switch step. |
| DbImpl.DB.CompactMemTable | Timeline/Pods/leveldb-library/db/db_impl.cc:535-566 | A memtable compaction is an enabled flush step at the level that is picked for it, and stays faithful. |
| DbImpl.DB.BackgroundCompaction | Timeline/Pods/leveldb-library/db/db_impl.cc:688-750 | Whatever start files are picked, a background compaction is an enabled move or compaction step of that level with those files among its inputs, and one of those the database takes: a trivial move when it is automatic and may be one, and a compaction with outputs cut as told otherwise. It stays faithful when that step resurrects nothing. |
| DbImpl.DB.DoCompaction | Timeline/Pods/leveldb-library/db/db_impl.cc:878-1028 | Merging, dropping and installing is one enabled compaction step. Its output files are cut by the grandparents and the size limit as on the plain input, and none reaches over more bytes of the level after the next than the limit. |
| DbImpl.DB.MakeInput | Timeline/Pods/leveldb-library/db/version_set.cc:1237-1268 | The merged input is sorted and is exactly the entries of both input sets. |
| InternalIterator.NewInternalIterator | Timeline/Pods/leveldb-library/db/db_impl.cc:1062-1087 | The sources collected from the memtables and the version are sorted, share no key, and together hold everything stored. |
| InternalIterator.AddIterators | Timeline/Pods/leveldb-library/db/version_set.cc:230-246 | One source per level-0 file and one per deeper level add exactly the files, if the sources before hold exactly the memtables. |
| InternalIterator.JoinSources | Timeline/Pods/leveldb-library/db/version_set.cc:230-246 | Sources whose entries are newer per user key than all others share no key with them, so both may be merged. |
| Merger.MergingIterator.SeekToFirst | Timeline/Pods/leveldb-library/table/merger.cc:31-37 | Lands on the least entry of the union. |
| Merger.MergingIterator.SeekToLast | Timeline/Pods/leveldb-library/table/merger.cc:39-45 | Lands on the greatest entry of the union. |
| Merger.MergingIterator.Seek | Timeline/Pods/leveldb-library/table/merger.cc:47-53 | Lands on the least entry of the union at or after the target. |
| Merger.MergingIterator.Next | Timeline/Pods/leveldb-library/table/merger.cc:55-79 | From any position, reached in either direction, lands on the least entry after the current one. |
| Merger.MergingIterator.Prev | Timeline/Pods/leveldb-library/table/merger.cc:81-108 | From any position, reached in either direction, lands on the greatest entry before the current one. |
| Merger.MergeAll | Timeline/Pods/leveldb-library/table/merger.cc:31-79 | Walking the iterator once yields the sorted union of its children. |
| Merger.StepsAreNeighbours | Timeline/Pods/leveldb-library/table/merger.cc:55-108 | Where the merging iterator goes from an entry of the sorted union is the next or the previous entry of that list. |
| Merger.SeekIsSearch | Timeline/Pods/leveldb-library/table/merger.cc:47-53 | Where it lands when sought is where a search of that list lands. |
| DbIter.DBIter.Seek | Timeline/Pods/leveldb-library/db/db_iter.cc:269-281 | Shows the first key at or after the target that has a value at the sequence in what it is to show, be it the entries it walks or the write history, or nothing. As in all five moves, the list may grow before every move of the internal iterator. |
| DbIter.DBIter.SeekToFirst | Timeline/Pods/leveldb-library/db/db_iter.cc:283-292 | Shows the first such key. |
| DbIter.DBIter.SeekToLast | Timeline/Pods/leveldb-library/db/db_iter.cc:294-299 | Shows the last such key. |
| DbIter.DBIter.Next | Timeline/Pods/leveldb-library/db/db_iter.cc:141-166 | From any valid position, reached in either direction, shows the next such key. |
| DbIter.DBIter.Prev | Timeline/Pods/leveldb-library/db/db_iter.cc:200-225 | From any valid position, reached in either direction, shows the previous such key. |
| DbIter.DBIter.FindNextUserEntry | Timeline/Pods/leveldb-library/db/db_iter.cc:168-198 | The forward scan stops at the first live entry beyond the skipped key. |
| DbIter.DBIter.FindPrevUserEntry | Timeline/Pods/leveldb-library/db/db_iter.cc:227-267 | The backward scan stops past the greatest live entry at or before its start and has saved its key and value. |
| IterScans.LeastIsFirst | Timeline/Pods/leveldb-library/db/db_iter.cc:168-198 | The live entry with the least position is the least key of the map that a snapshot read defines. |
| IterScans.GreatestIsLast | Timeline/Pods/leveldb-library/db/db_iter.cc:227-267 | The live entry with the greatest position is the greatest key of that map. |
| DbIter.DBIter.Tick | Timeline/Pods/leveldb-library/db/skiplist.h:8-26 | When the list has grown, the internal iterator is still on its entry, with at least as many entries on either side. |
| IterScans.LiveMoves | Timeline/Pods/leveldb-library/db/db_iter.cc:168-198 | An entry is what its key reads as at the sequence, or is not, just as before the list grew. |
| IterScans.ScanMoves | Timeline/Pods/leveldb-library/db/db_iter.cc:168-198 | A forward scan under way is one of the grown list, from its start to where it stands. |
| IterScans.BackMoves | Timeline/Pods/leveldb-library/db/db_iter.cc:227-267 | So is a backward scan, with the entry it has saved. |
| GrowingList.GrownReads | Timeline/Pods/leveldb-library/db/skiplist.h:8-26 | Entries too new for a reader do not change what it reads. |
| GrowingList.OrderKept | Timeline/Pods/leveldb-library/db/skiplist.h:8-26 | The entries that were there keep their order. |
| Coding.FixedRoundTrip | Timeline/Pods/leveldb-library/util/coding.cc:9-33 | Fixed-width little-endian integers decode to what was encoded. |
| Coding.EncodeVarint32 | Timeline/Pods/leveldb-library/util/coding.cc:47-73 | The unrolled encoder writes the base-128 form of the number. |
| Coding.EncodeVarint64 | Timeline/Pods/leveldb-library/util/coding.cc:81-90 | The looping encoder writes the same form. |
| Coding.DecodeVarint | Timeline/Pods/leveldb-library/util/coding.cc:113-157 | The shifting decode loop computes the recursive reading of at most the given number of bytes. |
| Coding.VarintRoundTrip | Timeline/Pods/leveldb-library/util/coding.cc:113-157 | A varint is read back with nothing else consumed, at any width that can hold it. |
| Coding.PrefixedRoundTrip | Timeline/Pods/leveldb-library/util/coding.cc:98-101 | A length-prefixed slice is read back, leaving the rest of the input. |
| Log.Writer.AddRecord | Timeline/Pods/leveldb-library/db/log_writer.cc:34-81 | Appends the record cut into fragments over 32 KB blocks, zero-filled trailers included. When an append fails, the file keeps the fragments before it and part of that one, and the block offset moves on as if it were whole. |
| Log.Writer.EmitPhysicalRecord | Timeline/Pods/leveldb-library/db/log_writer.cc:83-108 | Appends checksum, length, type and payload of one fragment, or a part of them when flushing fails; the block offset moves on in both cases. |
| Log.Writer.Flush | Timeline/Pods/leveldb-library/util/env_posix.cc:319-337 | The buffer reaches the file, or a part of it does; afterwards it is empty. |
| LogReader.Reader.ReadPhysicalRecord | Timeline/Pods/leveldb-library/db/log_reader.cc:189-271 | Block buffering gives the same fragments and drop reports as parsing the file directly. |
| LogReader.Reader.ReadRecord | Timeline/Pods/leveldb-library/db/log_reader.cc:56-172 | The reassembly loop returns the next logical record, or the end, with the same reports as the recursive reading. |
| LogRoundTrip.PhysicalChunk | Timeline/Pods/leveldb-library/db/log_reader.cc:189-271 | A fragment after any trailer is read back whole, and a cut one reads as end of file without a report. |
| LogRoundTrip.LogicalRecord | Timeline/Pods/leveldb-library/db/log_reader.cc:56-172 | A record written at any block offset is read back if all its bytes are there, and otherwise ends the log silently. |
| LogRoundTrip.LogRoundTrip | Timeline/Pods/leveldb-library/db/log_reader.cc:56-172 | Reading any truncated prefix of a log returns exactly its whole records and reports no corruption. |
| LogRoundTrip.FullLogRoundTrip | Timeline/Pods/leveldb-library/db/log_writer.cc:34-108 | Reading a complete log returns the records written. |
| LogRoundTrip.EncodeLogSnoc | Timeline/Pods/leveldb-library/db/log_writer.cc:34-81 | Appending a record appends its bytes at the offset where the log ended. |
| LogRoundTrip.LastMayBeLost | Timeline/Pods/leveldb-library/db/log_reader.cc:56-172 | A log cut anywhere in its last record reads as all records or as all but the last, without a report. |
| LogChecks.EveryRecordIsThere | Timeline/Pods/leveldb-library/db/log_reader.cc:56-271 | Whatever the file holds, each record read from it is there whole: its parts lie in order, each with its type, its length and a matching checksum in front. |
| LogChecks.BadChecksumIsReported | Timeline/Pods/leveldb-library/db/log_reader.cc:233-251 | A fragment whose checksum does not match is reported, and the rest of its block is passed over. |
| LogChecks.NoReportNoLoss | Timeline/Pods/leveldb-library/db/log_reader.cc:56-172 | When reading a file reports nothing, nothing in it was dropped: the records, and what is left of an unfinished one, are all that its fragments hold. |
| LogFailures.TornReads | Timeline/Pods/leveldb-library/db/log_reader.cc:56-172 | A record whose append failed part-way, and left its writer aligned, is not read; what follows it is, with at most one report. |
| LogFailures.ReadsWritten | Timeline/Pods/leveldb-library/db/log_reader.cc:56-172 | If every append found the writer aligned with its file, any prefix of the file reads as a prefix of the records written whole, with at most one report for each unfinished one. |
| LogFailures.NoFailureNeverDrifted | Timeline/Pods/leveldb-library/db/log_writer.cc:83-108 | A writer no append of which has failed is always aligned. |
| LogFailures.NoFailureReady | Timeline/Pods/leveldb-library/db/log_writer.cc:83-108 | Such a writer may append: what it writes next will be read, and nothing before it is reported. |
| LogFailures.LastAppendIsAtomic | Timeline/Pods/leveldb-library/db/log_reader.cc:56-172 | Wherever the next append stops, the records before it are read, with the new one or without it, and nothing is reported. |
| LogFailures.LastFailureIsSilent | Timeline/Pods/leveldb-library/db/log_reader.cc:56-172 | A failed append adds no record, and no report as long as nothing follows it. |
| LogFailures.TornAligned | Timeline/Pods/leveldb-library/db/log_writer.cc:83-108 | A failed append leaves the writer aligned exactly when the bytes that did not reach the file fill one block. |
| LogDrift.MisalignedLoses | Timeline/Pods/leveldb-library/db/log_writer.cc:83-108 | Whatever the file holds and whatever the checksum: if the block offset is not the file length modulo the block size, some record appended whole is not read back. |
| LogDrift.AlignedExact | Timeline/Pods/leveldb-library/db/log_writer.cc:83-108 | After attempts that each found the writer aligned, every record that may be appended next is read back if and only if the writer is still aligned. |
| WriteBatches.BatchRoundTrip | Timeline/Pods/leveldb-library/db/write_batch.cc:42-80 | A batch's bytes read back as its sequence number and operations with a good status. |
| BatchChecks.CutBatch | Timeline/Pods/leveldb-library/db/write_batch.cc:42-80 | A batch cut short anywhere is refused, and hands on only first operations. |
| BatchChecks.CountIsChecked | Timeline/Pods/leveldb-library/db/write_batch.cc:75-79 | A batch of well-formed operations is accepted exactly when its count is theirs. |
| WriteBatches.OpRoundTrip | Timeline/Pods/leveldb-library/db/write_batch.cc:42-80 | One operation is read back, leaving what follows. |
| WriteBatches.WriteBatch.Put | Timeline/Pods/leveldb-library/db/write_batch.cc:98-103 | A batch holding some operations holds one more put, count included. |
| WriteBatches.WriteBatch.Delete | Timeline/Pods/leveldb-library/db/write_batch.cc:105-109 | A batch holding some operations holds one more delete. |
| WriteBatches.WriteBatch.Append | Timeline/Pods/leveldb-library/db/write_batch.cc:144-149 | A batch followed by another holds the operations of both, with the first one's sequence number. |
| WriteBatches.WriteBatch.SetSequence | Timeline/Pods/leveldb-library/db/write_batch.cc:94-96 | A batch holding some operations holds them under the new sequence number. |
| WriteBatches.WriteBatch.Iterate | Timeline/Pods/leveldb-library/db/write_batch.cc:42-80 | The handler sees the readable operations in order, and the status tells malformed records and wrong counts. |
| WriteBatches.WriteBatch.InsertInto | Timeline/Pods/leveldb-library/db/write_batch.cc:132-137 | The memtable receives the operations with consecutive sequence numbers from the batch's own. |
| WriterQueue.BuildBatchGroup | Timeline/Pods/leveldb-library/db/db_impl.cc:1260-1306 | The leader takes a prefix of the queue within the size limit, never a sync writer into a non-sync group, and the group's operations are those of its members in order. |
| WriterQueue.GroupIsBounded | Timeline/Pods/leveldb-library/db/db_impl.cc:1266-1300 | A group stays within 1 MB, and within 128 KB more than a small first write; the next writer was left out because it would not fit, or wants a sync that the leader does not. |
| WriterQueue.GroupRecord | Timeline/Pods/leveldb-library/db/db_impl.cc:1206-1213 | The bytes logged are those of one batch with the operations of all members in order, stamped with the group's first sequence number; a group of one is stamped in place. |
| WriterQueue.SyncJoinsSync | Timeline/Pods/leveldb-library/db/db_impl.cc:1280-1283 | A sync writer is only ever in a group led by a sync writer. |
| WriterQueue.CompleteGroup | Timeline/Pods/leveldb-library/db/db_impl.cc:1239-1256 | Writers are released in queue order up to the last of the group, each with the group's status. |
| WriterQueue.StepOk | Timeline/Pods/leveldb-library/db/db_impl.cc:1185-1256 | Every step of the protocol keeps its invariant and only extends completions and groups. |
| WriterQueue.StartOk | Timeline/Pods/leveldb-library/db/db_impl.cc:1185-1256 | The empty queue with its log meets the invariant. |
| WriterQueue.RunOk | Timeline/Pods/leveldb-library/db/db_impl.cc:1185-1256 | So does every run. |
| WriterQueue.StopsForFailedSync | Timeline/Pods/leveldb-library/db/db_impl.cc:1214-1233 | After any run, once no group is being served, writing is stopped if and only if a sync of the log has failed; a failed append stops no later group, and while it is stopped no group is led. |
| WriterQueue.SequencesNeverReused | Timeline/Pods/leveldb-library/db/db_impl.cc:1206-1237 | Groups own disjoint, ascending ranges of sequence numbers, even when logging failed. |
| WriterQueue.ServedOnce | Timeline/Pods/leveldb-library/db/db_impl.cc:1239-1256 | Each completed writer was served by exactly one group and got that group's status. |
| WriterQueue.OkMeansApplied | Timeline/Pods/leveldb-library/db/db_impl.cc:1205-1237 | A writer completed with success has its operations in the memtable, contiguous and consecutively numbered within its group's range. |
| WriterQueue.SyncMeansDurable | Timeline/Pods/leveldb-library/db/db_impl.cc:1216-1222 | A sync writer completed with success has its group's record in the synced part of the log. |
| WriterQueue.RecordReads | Timeline/Pods/leveldb-library/db/write_batch.cc:42-80 | The log record of a group reads back as the group's operations and first sequence number. |
| Recovery.LogRecovery.RecoverLogFile | Timeline/Pods/leveldb-library/db/db_impl.cc:371-489 | Replaying a log file rebuilds the entries of its readable records and the highest sequence number, however often the memtable is flushed. |
| Recovery.ReplayGroups | Timeline/Pods/leveldb-library/db/db_impl.cc:412-458 | Replaying the records of commit groups gives exactly their entries with the original numbers. |
| Recovery.CrashRecovery | Timeline/Pods/leveldb-library/db/db_impl.cc:371-489 | From any surviving byte prefix that includes the synced part, recovery rebuilds exactly the entries of a prefix of the logged groups that contains every synced one, if every append found the log writer aligned with its file. At most one corruption is reported for each append that failed. |
| Recovery.RecoveredBelowMax | Timeline/Pods/leveldb-library/db/db_impl.cc:437-441 | No recovered entry is numbered above the sequence number that recovery resumes from. |
| Recovery.MaxIsGreatest | Timeline/Pods/leveldb-library/db/db_impl.cc:425-436 | Recovery resumes from the greatest number that any record uses up, or the one it began with. |
| Recovery.DurableWritesSurvive | Timeline/Pods/leveldb-library/db/db_impl.cc:1216-1222 | Under the same condition a sync write that was reported successful is recovered whole, with its sequence numbers. |
| Recovery.NoFailedAppend | Timeline/Pods/leveldb-library/db/db_impl.cc:1205-1237 | When no append to the log has failed, that condition holds, the file is the log of the records, and nothing is reported. |
| Recovery.LogRecovery.RecoverLogs | Timeline/Pods/leveldb-library/db/db_impl.cc:348-363 | Replaying several log files from the oldest on replays their records in a row. |
| LostSyncExample.SyncWriteIsLost | Timeline/Pods/leveldb-library/db/db_impl.cc:1205-1237 | A run in which a 1000-byte append fails and a 40000-byte sync write is then acknowledged; the fully synced file reads as no records. |
| CrashSafety.StepDurable | Timeline/Pods/leveldb-library/db/db_impl.cc:688-750 | Every step keeps the store fit for a crash: whatever the logs lose, readers of the files would see the history. A compaction does if it resurrects no key for a reader at the last flushed sequence number. |
| CrashSafety.CompactionDurableExact | Timeline/Pods/leveldb-library/db/db_impl.cc:936-973 | For a compaction that condition is exact. |
| CrashSafety.ClosedBelowIsCrashSafe | Timeline/Pods/leveldb-library/db/version_set.cc:1407-1411 | If no unpicked file of the next level shares a boundary user key with the picked ones, a compaction meets it. |
| CrashSafety.ReopenedOk | Timeline/Pods/leveldb-library/db/db_impl.cc:280-369 | A store fit for a crash reopens, with any part of what its memtables held, to a store that is well formed, faithful to the history without the lost writes, and fit for a crash again. |
| CrashSafety.CrashKeepsTheRest | Timeline/Pods/leveldb-library/db/db_impl.cc:280-369 | The state after any run whose compactions meet the condition reopens so, whatever part of the logs is lost. |
| CrashSafety.CrashKeepsPrefix | Timeline/Pods/leveldb-library/db/db_impl.cc:280-369 | If everything after some write is lost, the reopened store reads as the history did after that write. |
| LogStore.StepTied | Timeline/Pods/leveldb-library/db/db_impl.cc:1185-1256 | Run side by side, queue and store keep in step: what a finished group means for the store is an enabled step of it, and memtable, log records, sequence numbers and what is flushed still belong together. |
| LogStore.RunTied | Timeline/Pods/leveldb-library/db/db_impl.cc:1185-1256 | So they do after any run of both, from the empty store and queue. |
| LogStore.LoggedIsApplied | Timeline/Pods/leveldb-library/db/db_impl.cc:1205-1237 | What the log records of the current file say is what was applied to the memtable, save for a last group whose sync failed. |
| LogStore.SettledOk | Timeline/Pods/leveldb-library/db/db_impl.cc:1205-1237 | The store that also has a group logged but not applied yet is well formed and fit for a crash, and its memtables hold exactly what the log says. |
| LogStore.CrashReopens | Timeline/Pods/leveldb-library/db/db_impl.cc:280-489 | Replaying any surviving bytes of the log, the synced part among them, gives memtable entries with which the store reopens well formed and faithful to the history without the lost writes. |
| LogStore.SyncedWriteIsThere | Timeline/Pods/leveldb-library/db/db_impl.cc:1205-1237 | The entries of a sync write that was reported successful are among them. |
| LostOverwriteExample.LostOverwriteReturns | Timeline/Pods/leveldb-library/db/version_set.cc:1407-1411 | A run of safe steps and a compaction no reader notices, after which a crash that loses only the last, unflushed write brings back a key that had been deleted before it. |
| VersionEdits.DecodeFrom | Timeline/Pods/leveldb-library/db/version_edit.cc:107-205 | The decode loop clears the edit, compaction pointers excepted, and absorbs fields until the input ends or is malformed. |
| VersionEdits.FieldsRoundTrip | Timeline/Pods/leveldb-library/db/version_edit.cc:41-205 | Any list of fitting fields is decoded as absorbed one by one. |
| VersionEdits.EditRoundTrip | Timeline/Pods/leveldb-library/db/version_edit.cc:41-205 | An encoded edit decodes to the same edit. |
| VersionEdits.MetaRoundTrip | Timeline/Pods/leveldb-library/db/version_edit.cc:77-84 | A new-file entry is read back with number, size and both bounds. |
| VersionBuilder.SortedUnique | Timeline/Pods/leveldb-library/db/version_set.cc:590-604 | Two lists in the builder's order with the same files are the same list. |
| VersionBuilder.SaveMembers | Timeline/Pods/leveldb-library/db/version_set.cc:695-754 | Saving a level leaves exactly the base and added files that are not deleted. |
| VersionBuilder.SaveSorted | Timeline/Pods/leveldb-library/db/version_set.cc:695-754 | The merged level is in order. |
| VersionBuilder.BatchStep | Timeline/Pods/leveldb-library/db/version_set.cc:650-754 | Gathering one more edit and saving equals saving first and then applying the edit, for files never added before. |
| BuilderExact.BatchExact | Timeline/Pods/leveldb-library/db/version_set.cc:650-754 | Gathering a further edit in one builder gives what saving first and building that edit on the result gives, if and only if each file the edit adds is not one of the base, when its number was deleted before, and was not added before, when it was not. |
| BuilderExact.DeletedThenAddedIsDoubled | Timeline/Pods/leveldb-library/db/version_set.cc:650-754 | A base file deleted by one edit and added by the next is listed twice by one builder and once by two. |
| Manifest.Builder.Apply | Timeline/Pods/leveldb-library/db/version_set.cc:650-693 | Gathers an edit's deletions, additions and compaction pointers level by level. |
| Manifest.Builder.SaveTo | Timeline/Pods/leveldb-library/db/version_set.cc:695-739 | Produces each level as the merge of base and added files without the deleted ones. |
| Manifest.Builder.MaybeAddFile | Timeline/Pods/leveldb-library/db/version_set.cc:741-753 | A file is appended unless its number is deleted. |
| Manifest.GatherDescribes | Timeline/Pods/leveldb-library/db/version_set.cc:911-944 | Replaying one more edit of fresh files describes the edited levels. |
| Manifest.SnapshotDescribes | Timeline/Pods/leveldb-library/db/version_set.cc:1088-1116 | The snapshot record that starts a MANIFEST replays to the current levels. |
| Manifest.AppendDescribes | Timeline/Pods/leveldb-library/db/version_set.cc:801-884 | Appending an edit's record makes the MANIFEST describe the edited levels and the edit's counters. |
| Manifest.ManifestReplay | Timeline/Pods/leveldb-library/db/version_set.cc:886-1011 | Replay of a snapshot and any run of edits rebuilds the levels of applying them one by one, and the log numbers and last sequence of the last edit. |
| StoreManifest.EditIsStep | Timeline/Pods/leveldb-library/db/db_impl.cc:860-876 | The edit of a flush, a move or a compaction changes the levels as the step does. |
| StoreManifest.StepEdit | Timeline/Pods/leveldb-library/db/version_set.cc:801-830 | It adds no file to a level that had one of its number since the MANIFEST began, so that it may be applied, and the next ones too. |
| StoreManifest.EditsFollow | Timeline/Pods/leveldb-library/db/version_set.cc:801-830 | Applying the edits of a run one by one gives the levels of the store after each step. |
| StoreManifest.RunReplays | Timeline/Pods/leveldb-library/db/version_set.cc:886-1011 | Replaying the MANIFEST that any run of the store has written finds the levels the store has. |
| Versions.EditKeepsLevels | Timeline/Pods/leveldb-library/db/version_set.cc:801-830 | A version built from one edit is the edited current version, sorted and known. |
| Versions.SnapshotEncodable | Timeline/Pods/leveldb-library/db/version_set.cc:1088-1116 | A snapshot of any valid state can be encoded. |
| Versions.VersionState.LogAndApply | Timeline/Pods/leveldb-library/db/version_set.cc:801-884 | On success the current version is the edited one, the MANIFEST describes it, and its counters are those of the edit or else of the database. On failure the version, the log numbers and the counters on file are unchanged; a new MANIFEST is gone, and an open one has the record or the part of it that reached the file. Each compaction pointer is the last one the edit gives, or what it was. |
| Versions.VersionState.KeepFailure | Timeline/Pods/leveldb-library/db/version_set.cc:844-852 | A record that did not reach the MANIFEST whole leaves it describing the current version. |
| Versions.VersionState.Recover | Timeline/Pods/leveldb-library/db/version_set.cc:886-1011 | Succeeds exactly when nothing is reported, every record decodes and names no other comparator, and some record gives the log number, the next file number and the last sequence. Of each number the last one given counts, and of each level's compaction pointer; the version is what the builder saves. |
| ManifestRules.ReplayIs | Timeline/Pods/leveldb-library/db/version_set.cc:928-970 | A replay goes through exactly when no record is refused, and finds the last of each number. |
| ManifestRules.LastPointerIs | Timeline/Pods/leveldb-library/db/version_set.cc:650-656 | A level's pointer is the last one given for it, or what it was. |
| Versions.PointersSurvive | Timeline/Pods/leveldb-library/db/version_set.cc:1095-1102 | The pointers in a snapshot restore every level's. |
| Versions.RecoverFindsCurrent | Timeline/Pods/leveldb-library/db/version_set.cc:886-1011 | After any calls of `LogAndApply`, failed ones among them, reading the MANIFEST's bytes finds the current version and the counters of the last edit applied, if no edit reached the file whole and was then refused, every append found the writer aligned with its file, and no failed one but the last left whole fragments behind. |
| Versions.EditIsAtomic | Timeline/Pods/leveldb-library/db/version_set.cc:839-858 | Where an append stops, by a crash or by an error, wherever it cuts the record, the MANIFEST reads as the version before the edit or the version after it. |
| SkipLists.SkipList.FindGreaterOrEqual | Timeline/Pods/leveldb-library/db/skiplist.h:259-281 | The search returns the node a scan of the bottom list would, and the predecessors at every level. |
| SkipLists.SkipList.FindLessThan | Timeline/Pods/leveldb-library/db/skiplist.h:283-302 | Returns the last node before the key. |
| SkipLists.SkipList.FindLast | Timeline/Pods/leveldb-library/db/skiplist.h:304-322 | Returns the last node. |
| SkipLists.SkipList.Contains | Timeline/Pods/leveldb-library/db/skiplist.h:370-378 | Membership in the list of keys. |
| SkipLists.SkipList.Insert | Timeline/Pods/leveldb-library/db/skiplist.h:336-368 | For any height up to 12 the key enters the sorted key list, and all links are valid. |
| SkipLists.SkipList.LinkBottom | Timeline/Pods/leveldb-library/db/skiplist.h:358-366 | After the first link store the list is already valid, with the new node at height one. |
| SkipLists.SkipList.LinkHigher | Timeline/Pods/leveldb-library/db/skiplist.h:358-366 | After each further link store the list is valid, with the node one level higher. |
| SkipLists.SuccAfterInsert | Timeline/Pods/leveldb-library/db/skiplist.h:358-366 | Inserting at the bottom leaves every successor above the bottom as it was. |
| SkipLists.SuccAfterRaise | Timeline/Pods/leveldb-library/db/skiplist.h:358-366 | Raising a node changes only its predecessor's successor at that level. |
| SkipLists.Iterator.Prev | Timeline/Pods/leveldb-library/db/skiplist.h:212-221 | From any position moves to the one before, and off the front becomes invalid. |
| SkipLists.Iterator.Seek | Timeline/Pods/leveldb-library/db/skiplist.h:223-226 | Moves to the first key at or after the target. |
| SkipLists.SearchSurvivesBottom | Timeline/Pods/leveldb-library/db/skiplist.h:259-281 | A search under way stays correct when another thread links a node at the bottom. |
| SkipLists.SearchSurvivesInsert | Timeline/Pods/leveldb-library/db/skiplist.h:336-368 | It stays correct through all link stores of an insert, whatever the height. |
| SkipLists.Search.Step | Timeline/Pods/leveldb-library/db/skiplist.h:259-281 | A search taken one link at a time, with inserts between its steps, ends at the right node of the list as it then is. |
| HandleTables.HandleTable.FindPointer | Timeline/Pods/leveldb-library/util/cache.cc:114-120 | Finds the slot of the key's entry, or the end of its chain. |
| HandleTables.HandleTable.Insert | Timeline/Pods/leveldb-library/util/cache.cc:78-92 | The table as a map gains or replaces the key and returns the old entry. |
| HandleTables.HandleTable.Remove | Timeline/Pods/leveldb-library/util/cache.cc:94-102 | The table as a map loses the key and returns its entry. |
| HandleTables.HandleTable.Resize | Timeline/Pods/leveldb-library/util/cache.cc:122-142 | Rehashing keeps the map and leaves at least as many buckets as entries, and fewer than twice as many beyond the first four. |
| HandleTables.PushOk | Timeline/Pods/leveldb-library/util/cache.cc:122-142 | A new entry at either end of its bucket's chain keeps table and map in agreement. |
| HandleTables.TakeOutOk | Timeline/Pods/leveldb-library/util/cache.cc:94-102 | So does removing an entry from its chain. |
| Cache.LruRemove | Timeline/Pods/leveldb-library/util/cache.cc:239-242 | Unlinking a node leaves the ring of the others. |
| Cache.LruAppend | Timeline/Pods/leveldb-library/util/cache.cc:244-250 | Linking a node before the dummy makes it the newest of the ring. |
| Cache.LRUCache.Ref | Timeline/Pods/leveldb-library/util/cache.cc:217-223 | One more reference; an idle entry moves to the end of the in-use list. |
| Cache.LRUCache.Unref | Timeline/Pods/leveldb-library/util/cache.cc:225-237 | One reference less; the entry is freed at zero, and becomes the newest idle entry when only the cache still refers to it. |
| Cache.LRUCache.Lookup | Timeline/Pods/leveldb-library/util/cache.cc:252-259 | Returns the cached entry of the key with one more reference, or null and no change. |
| Cache.LRUCache.Release | Timeline/Pods/leveldb-library/util/cache.cc:261-264 | Gives back one reference: freed, idle or still in use, as the counts decide. |
| Cache.LRUCache.Insert | Timeline/Pods/leveldb-library/util/cache.cc:266-303 | A new entry replaces an older one of its key. Evicted are the least number of oldest idle entries that brings usage within capacity, or all of them, and none when it is within already; every entry a client holds is still there. |
| Cache.LRUCache.EvictExcess | Timeline/Pods/leveldb-library/util/cache.cc:292-300 | Evicts the least number of oldest idle entries that brings usage within capacity, or all of them; none when it is. |
| Cache.EvictsLeast | Timeline/Pods/leveldb-library/util/cache.cc:292-300 | Evicting one by one while the rest does not fit evicts that least number. |
| Cache.LRUCache.FinishErase | Timeline/Pods/leveldb-library/util/cache.cc:307-316 | An entry taken out of the table leaves its list and the usage, and is freed if no client holds it. |
| Cache.LRUCache.Erase | Timeline/Pods/leveldb-library/util/cache.cc:318-321 | The key leaves the cache; its entry is freed at once exactly when no client holds it. |
| Cache.LRUCache.Prune | Timeline/Pods/leveldb-library/util/cache.cc:323-333 | All idle entries go, entries in use stay. |
| Cache.LRUCache.Oldest | Timeline/Pods/leveldb-library/util/cache.cc:292-293 | The dummy's next node is the oldest idle entry. |
| Cache.ChargesRemove | Timeline/Pods/leveldb-library/util/cache.cc:307-316 | Taking an entry off a list lowers the sum of charges by its charge. |
| Block.BlockBuilder.Add | Timeline/Pods/leveldb-library/table/block_builder.cc:72-106 | The buffer, restart array, counter and last key stay those of the items added so far, prefix-compressed between restarts. |
| Block.BlockBuilder.Finish | Timeline/Pods/leveldb-library/table/block_builder.cc:62-70 | The finished bytes are the items, the restart offsets and their count. |
| Coding.CommonPrefix | Timeline/Pods/leveldb-library/table/block_builder.cc:78-84 | The longest common prefix of two keys. |
| Block.OffsetsAscend | Timeline/Pods/leveldb-library/table/block_builder.cc:72-106 | Later items start at larger offsets. |
| Block.AddRestart | Timeline/Pods/leveldb-library/table/block_builder.cc:85-88 | A restart offset is recorded before every interval-th item but the first. |
| BlockIter.DecodeEntry | Timeline/Pods/leveldb-library/table/block.cc:54-74 | The one-byte fast path and the varint path agree, and a header that promises more than the block holds is refused. |
| BlockIter.HeaderRoundTrip | Timeline/Pods/leveldb-library/table/block.cc:54-74 | An item header is read back. |
| BlockIter.Iter.ParseNextKey | Timeline/Pods/leveldb-library/table/block.cc:224-251 | Rebuilds the next key from the previous one, or ends, or stops at corrupt bytes. |
| BlockIter.Iter.Next | Timeline/Pods/leveldb-library/table/block.cc:137-140 | Moves to the next item. |
| BlockIter.Iter.Prev | Timeline/Pods/leveldb-library/table/block.cc:142-161 | From any item moves to its predecessor, and from the first becomes invalid. |
| BlockIter.Iter.Seek | Timeline/Pods/leveldb-library/table/block.cc:163-201 | Binary search over restarts and the scan after it land on the first key not below the target. |
| BlockIter.Iter.FindRegion | Timeline/Pods/leveldb-library/table/block.cc:165-191 | The binary search ends at a restart whose key is below the target, or at the first. |
| BlockIter.Iter.SeekToFirst | Timeline/Pods/leveldb-library/table/block.cc:203-206 | Moves to the first item. |
| BlockIter.Iter.SeekToLast | Timeline/Pods/leveldb-library/table/block.cc:208-213 | Moves to the last item. |
| BlockIter.OpenFinished | Timeline/Pods/leveldb-library/table/block.cc:24-39 | A finished block opens with its restart array in place. |
| BlockIter.ReadBlock | Timeline/Pods/leveldb-library/table/block.cc:137-251 | Iterating a finished block gives back the items added, for any keys and any restart interval. |
| ByteKeys.FindShortestSeparator | Timeline/Pods/leveldb-library/util/comparator.cc:29-50 | The in-place shortening computes the separator. |
| ByteKeys.SeparatorSeparates | Timeline/Pods/leveldb-library/util/comparator.cc:29-50 | It lies at or after the start and before the limit, and is no longer than the start. |
| ByteKeys.SeparatorExact | Timeline/Pods/leveldb-library/util/comparator.cc:29-50 | It is the common part with the first differing byte raised by one, when that is still below the limit's byte, and else the start. |
| ByteKeys.NoSeparator | Timeline/Pods/leveldb-library/util/comparator.cc:39-41 | When one key begins with the other nothing is shortened. |
| ByteKeys.FindShortSuccessor | Timeline/Pods/leveldb-library/util/comparator.cc:52-64 | The in-place shortening computes the successor. |
| ByteKeys.SuccessorIsAfter | Timeline/Pods/leveldb-library/util/comparator.cc:52-64 | It is at or after the key and no longer. |
| ByteKeys.SuccessorExact | Timeline/Pods/leveldb-library/util/comparator.cc:52-64 | It is the key up to the first byte that can be raised, with that byte raised; the key itself when none can. |
| ByteKeys.RankIsMonotone | Timeline/Pods/leveldb-library/util/comparator.cc:25-27 | Ranking byte-string keys by integers keeps their order, so the integer user keys of the store lose nothing. |
| RankedKeys.KeyOrder | Timeline/Pods/leveldb-library/db/dbformat.cc:51-67 | For the keys of a run, and lookup keys, ranks and byte strings order internal keys alike, and share user keys alike. |
| Bloom.CreateFilter | Timeline/Pods/leveldb-library/util/bloom.cc:28-54 | The filter appended has exactly the bits that its keys probe, and the number of probes, and so admits every key, whatever the hash function. |
| Bloom.FilterExact | Timeline/Pods/leveldb-library/util/bloom.cc:28-80 | A filter admits a key exactly when each of its probes is one of some key the filter was built from. |
| Bloom.KeyMayMatch | Timeline/Pods/leveldb-library/util/bloom.cc:56-80 | The probing loop computes whether all probed bits are set, with its escapes for short filters and reserved encodings. |
| FilterBlock.FilterBlockBuilder.StartBlock | Timeline/Pods/leveldb-library/table/filter_block.cc:21-27 | Filters of passed 2 KB ranges are finished, and new keys go to the range of the block. |
| FilterBlock.FilterBlockBuilder.GenerateFilter | Timeline/Pods/leveldb-library/table/filter_block.cc:51-75 | The keys gathered become one more filter that admits them all. |
| FilterBlock.FilterKeyMayMatch | Timeline/Pods/leveldb-library/table/filter_block.cc:90-104 | The reader's answer, with errors counted as potential matches. |
| FilterBlock.NoFalseNegatives | Timeline/Pods/leveldb-library/table/filter_block.cc:90-104 | A key added for a block is never reported absent from it. |
| FilterBlock.AnswersExact | Timeline/Pods/leveldb-library/table/filter_block.cc:90-104 | A key is reported absent from a block exactly when one of its probes is no probe of the keys added for that range. |
| Table.SeparatorHides | Timeline/Pods/leveldb-library/db/dbformat.cc:69-86 | A shortened index key lies between two blocks, and a key it hides cannot have the next block's user key. |
| Table.SuccessorCovers | Timeline/Pods/leveldb-library/db/dbformat.cc:88-100 | The last index key is at or after the last entry. |
| Table.Found | Timeline/Pods/leveldb-library/table/table.cc:216-244 | The entry where index and block seeks end is the first of the whole table at or after the target. |
| Table.InGap | Timeline/Pods/leveldb-library/table/table.cc:216-244 | When the block seek runs off its block, the first entry at or after the target has another user key. |
| Table.Filtered | Timeline/Pods/leveldb-library/table/table.cc:223-229 | A block that the filter rules out does not hold the first entry with the looked-up user key. |
| Table.InternalGet | Timeline/Pods/leveldb-library/table/table.cc:216-244 | Delivers the first entry at or after the target whenever it has the target's user key, in spite of shortened keys and filters. |
| RankedKeys.NamedFileOk | Timeline/Pods/leveldb-library/db/builder.cc:31-37 | The entries of a table, with ranks for keys, are a well-formed file of the store. |
| RankedKeys.TableGet | Timeline/Pods/leveldb-library/table/table.cc:216-244 | Looking a user key up in the bytes of a table gives what the store's lookup finds among the entries of that file. |
| TableBuilders.TableBuilder.Add | Timeline/Pods/leveldb-library/table/table_builder.cc:94-123 | Any increasing entries may be added; index, filter and blocks stay consistent across flushes. The block is written out exactly when it has reached its size with the new entry. |
| TableBuilders.TableBuilder.Flush | Timeline/Pods/leveldb-library/table/table_builder.cc:125-139 | The block being filled becomes the last block of the file, its index entry pending, and filtering moves to the new offset. |
| TableBuilders.TableBuilder.Finish | Timeline/Pods/leveldb-library/table/table_builder.cc:198-253 | The finished table holds exactly the entries added, in the blocks cut so far and one for the rest, and meets all that lookups rely on. |
| TableBuilders.FindInternalSeparator | Timeline/Pods/leveldb-library/db/dbformat.cc:69-86 | The key lies at or after the start and before the limit, its user key is no longer than the start, and no key it hides has the limit's user key. |
| TwoLevelIterators.TwoLevelIterator.Seek | Timeline/Pods/leveldb-library/table/two_level_iterator.cc:82-87 | Splits the concatenation of all blocks at the target. |
| TwoLevelIterators.TwoLevelIterator.Next | Timeline/Pods/leveldb-library/table/two_level_iterator.cc:103-107 | Moves one place on in the concatenation, over any empty blocks. |
| TwoLevelIterators.TwoLevelIterator.Prev | Timeline/Pods/leveldb-library/table/two_level_iterator.cc:109-113 | Moves one place back, and off the front becomes invalid. |
| TwoLevelIterators.TwoLevelIterator.SkipEmptyDataBlocksBackward | Timeline/Pods/leveldb-library/table/two_level_iterator.cc:128-139 | From before a block goes to the entry that precedes it, however many empty blocks lie between. |
| TwoLevelIterators.SeekSplits | Timeline/Pods/leveldb-library/table/two_level_iterator.cc:82-87 | Seeking in an index that separates its blocks and then in a block splits the whole list. |
| TwoLevelIterators.WalksTheTable | Timeline/Pods/leveldb-library/table/table.cc:210-214 | Over a finished table the iterator's list is the entries added, and seeks are right. |
| TwoLevelIterators.ScanFindsFirst | Timeline/Pods/leveldb-library/table/table.cc:216-244 | The entry that a scan of the table's list finds is the one that lookups through the index deliver. |
| Nanopb.ZigZag | Timeline/Pods/nanopb/pb_encode.c:596-605 | Signed numbers of 64 bits map to unsigned ones of 64 bits. |
| Nanopb.ScalarDefaults | Timeline/Pods/nanopb/pb_encode.c:222-304 | The only number left out as a default is zero, the only bytes or string the empty one. |
| Nanopb.DefaultIsNormal | Timeline/Pods/nanopb/pb_encode.c:222-304 | A value left out as a default is the default, at any nesting depth. |
| Nanopb.EmptyIsDefault | Timeline/Pods/nanopb/pb_encode.c:257-272 | A submessage is left out exactly when it would be written without any bytes. |
| NanopbEncoder.OStream.Write | Timeline/Pods/nanopb/pb_encode.c:101-124 | Writes all bytes when there is room and fails otherwise; a sizing stream only counts, and always has room. |
| NanopbEncoder.EncodeVarint | Timeline/Pods/nanopb/pb_encode.c:574-594 | Writes the base-128 form, if there is room. |
| NanopbEncoder.EncodeSubmessage | Timeline/Pods/nanopb/pb_encode.c:682-730 | Size pass and write pass agree: the submessage goes out with its exact length in front, at every nesting depth, if it is in bounds and fits. |
| NanopbEncoder.EncodePacked | Timeline/Pods/nanopb/pb_encode.c:126-180 | Packed arrays are written with the size that the sizing pass or the fixed width gives. |
| NanopbEncoder.EncodeField | Timeline/Pods/nanopb/pb_encode.c:307-394 | Absent optional, one-of and default singular fields write nothing; the others write tag and value. |
| NanopbEncoder.PbEncode | Timeline/Pods/nanopb/pb_encode.c:494-516 | Encoding succeeds exactly when the message is in bounds and the stream has room, and then writes the specified bytes. |
| NanopbEncoder.PbGetEncodedSize | Timeline/Pods/nanopb/pb_encode.c:533-542 | The sizing run returns the length of the bytes that encoding writes. |
| NanopbDecode.FieldIndex | Timeline/Pods/nanopb/pb_common.c:78-95 | The first field of the table with a tag, or none. |
| NanopbDecoder.FieldIter.Next | Timeline/Pods/nanopb/pb_common.c:20-76 | Moves through the table with wrap-around, keeping the running number of required fields passed. |
| NanopbDecoder.FieldIter.Find | Timeline/Pods/nanopb/pb_common.c:78-95 | The wrapping search finds the field with the tag from any start, if the table has one. |
| NanopbDecoder.SeenIsBits | Timeline/Pods/nanopb/pb_decode.c:988-1046 | The bits of the first 64 required fields agree with the plain set of fields seen. |
| NanopbDecoder.RequiredFieldsOccur | Timeline/Pods/nanopb/pb_decode.c:988-1046 | For any table with distinct tags and any input, decoding succeeds if and only if the fields decode and the tag of each of the first 64 required fields occurs in the input. |
| NanopbDecoder.SeenAreTags | Timeline/Pods/nanopb/pb_decode.c:918-996 | The set of fields seen is the set of fields whose tags the loop read. |
| NanopbDecoder.MarkSeen | Timeline/Pods/nanopb/pb_decode.c:988-996 | Setting a bit in its 32-bit word sets exactly that entry of the bit vector. |
| NanopbDecoder.CheckWords | Timeline/Pods/nanopb/pb_decode.c:1010-1046 | The final comparison of whole words and the masked remainder holds exactly when all counted bits are set. |
| NanopbDecoder.WordTells | Timeline/Pods/nanopb/pb_decode.c:1030-1046 | A word equals its mask exactly when the bits under the mask are set. |
| NanopbDecoder.CheckRequired | Timeline/Pods/nanopb/pb_decode.c:1010-1046 | The check passes exactly when each of the first 64 required fields was seen. |
| NanopbDecoder.PbDecodeNoinit | Timeline/Pods/nanopb/pb_decode.c:901-1049 | For any input the decoding loop, entered again for each nested message, gives the specified result, required-field failures included. |
| NanopbRoundTrip.MoreRoundTrip | Timeline/Pods/nanopb/pb_decode.c:182-242 | Every 32-bit number the encoder writes is read back, from any group of seven bits on. |
| NanopbRoundTrip.ZigZagRoundTrip | Timeline/Pods/nanopb/pb_decode.c:1240-1252 | Undoing the ZigZag mapping gives back every integer. |
| NanopbRoundTrip.ScalarRoundTrip | Timeline/Pods/nanopb/pb_decode.c:1240-1461 | Any scalar, bytes or string value is read back exactly when it fits its decoder's bounds; otherwise decoding fails. |
| NanopbRoundTrip.SignedExact | Timeline/Pods/nanopb/pb_decode.c:1287-1325 | Of any number on the wire a signed field takes the low 32 bits, or all 64 when it is that wide, as a signed number, and refuses one that its storage cannot hold. |
| NanopbRoundTrip.PackedRoundTrip | Timeline/Pods/nanopb/pb_decode.c:418-448 | A packed array is read back item by item within its capacity. |
| NanopbRoundTrip.ValueRoundTrip | Timeline/Pods/nanopb/pb_decode.c:1463-1485 | A value of any type, nested messages included, is read back up to absent fields. |
| NanopbRoundTrip.SlotStep | Timeline/Pods/nanopb/pb_decode.c:401-475 | Decoding the bytes of one field advances the message by that field and no other. |
| NanopbRoundTrip.MessageRoundTrip | Timeline/Pods/nanopb/pb_decode.c:901-1049 | Decoding an encoded message gives it back, for any nested table of static fields: singular and required fields as they were, also those not written, and absent optional and oneof fields as defaults. |
| NanopbAnyInput.AnyMessage | Timeline/Pods/nanopb/pb_decode.c:401-475 | Whatever the input, a decoded message fits its table, with at most one member of each oneof chosen, and its storage, if the message did that it was decoded into. |
| NanopbAnyInput.LastMemberIsChosen | Timeline/Pods/nanopb/pb_decode.c:461-472 | The member of a oneof that is chosen is the one whose tag was read last; when none was read nothing changes. |
| NanopbAnyInput.UnreadStays | Timeline/Pods/nanopb/pb_decode.c:388-475 | A field outside a oneof whose tag is not read stays as it was, and an optional one is there exactly when it was or its tag is read. |
| NanopbAnyInput.DecodedRoundTrip | Timeline/Pods/nanopb/pb_decode.c:901-1049 | What was decoded from any input can be encoded and decodes to the same message again, absent fields as defaults. |
| NanopbUnknown.UnknownSlot | Timeline/Pods/nanopb/pb_decode.c:316-335 | A field that the table does not have is passed over, whatever its type holds. |
| NanopbUnknown.OlderTableReads | Timeline/Pods/nanopb/pb_decode.c:940-965 | A message written with a longer table reads with the shorter one as the part that this one knows. |
| Bits.SetBitSets | Timeline/Pods/nanopb/pb_decode.c:988-996 | Setting a bit of a word is setting an entry of the sequence it stands for. |
| Bits.MaskTells | Timeline/Pods/nanopb/pb_decode.c:1030-1046 | A word equals an all-ones mask exactly when the low bits are set and no others. |

## Left out

- User keys in the store, iterators and skip list are integers, the ranks of byte strings; `ByteKeys.RankIsMonotone` and `RankedKeys.KeyOrder` justify it. Files, logs, blocks, tables and nanopb work on bytes; `RankedKeys` and `LogStore` tie tables and logs to the store for any list of user keys, value strings being named by any function.
- Sequence numbers stay below 2^56 - 1: `DbImpl.DB.Write` requires room for the batch, as the code silently does.
- Flush, move and compaction are single steps. The flush in the middle of a compaction, shutdown, deletion of obsolete files and background-error states other than the writer queue's are not modelled.
- Entries of files stand for their tables in the store; lookups in them are `Entries.FirstAtOrAfter`, which is what `RankedKeys.TableGet` is proved to compute on the table. File sizes and memory usage are parameters.
- Corrupted keys and files, I/O errors outside logging and MANIFEST writing, seek statistics, compaction scores, manual-compaction bookkeeping, `repair.cc`, `table_cache.cc`, `filename.cc` and `snapshot.h` are not modelled.
- memtable.cc: its entry encoding is a length-prefixed internal key and a length-prefixed value over the skip list, all three proved separately; the arena is not modelled.
- CompactionTheorem.ClosedBelowIsSafe: one direction only; the exact condition is that of `CompactionExact`.
- CrashSafety.ClosedBelowIsCrashSafe: one direction only; the exact condition is that of `CompactionDurableExact`.
- DbIter: the random read sampling in `ParseKey` and unparsable keys are not modelled. The iterator walks the sorted union of its sources as one list; `Merger.StepsAreNeighbours` and `Merger.SeekIsSearch` say that the merging iterator moves the same way. While it lives the list grows by entries too new for it, between any two moves, as a schedule says that is given when it is made and does not grow beyond a bound.
- Merger.MergingIterator.Next: needs keys to differ between children, which unique sequence numbers give; iterator errors are not modelled.
- Log and recovery: the checksum is any function of type and payload; reading starts at offset 0; one fragment is flushed at a time, so that a failed append keeps fewer bytes than its fragment; `paranoid_checks` is off, its default, so that malformed batches and reported drops are passed over.
- CrashSafety: what replay rebuilds is any part of what the memtables held; `LogStore` ties the newer memtable to the bytes of its log.
- LogStore.CrashReopens: the entries of the immutable memtable, whose own log was started before, are any part of it; the run is one in which each compaction meets the condition of `CompactionDurableExact`.
- StoreManifest.RunReplays: for file numbers and counters that fit their fields, and tables that the catalog knows.
- WriterQueue: writers are values and each lock section is one step. Waiting for room in the memtable is a step that may switch logs; the delays of `MakeRoomForWrite` and progress under starvation are not modelled. Batches hold fewer than 2^31 operations.
- Manifest.ManifestReplay: for runs in which no (level, file number) pair is added twice, which `StoreManifest.StepEdit` shows of the store's own edits. A catalog function stands for the table behind a file's metadata.
- Compaction pointers: `CompactionInputs` picks by them and says where they move, and `Versions.VersionState` keeps, writes and replays them; the class `DbImpl.DB` is given its start files instead of keeping pointers.
- Versions.VersionState.LogAndApply: the writes to a new MANIFEST, and setting CURRENT, are one step that may fail. Nothing is claimed about replay after a record that reached an open MANIFEST whole and whose sync failed, or about edits appended out of step with the file, some of which are lost (`LogDrift.AlignedExact`). `ReuseManifest` is not modelled.
- SkipLists: memory ordering is one atomic step per link store; the random height is a parameter; keys are never removed, as in the code.
- SkipLists.SkipList.Insert: requires a key that is not in the list, as the code's assertion does.
- Cache: hash chains are sequences; sharding and the mutex are not modelled. An unlinked entry points to itself. The count of client references is ghost state.
- Cache.LRUCache.Release: requires that the caller holds a reference.
- BlockIter.DecodeEntry: the 32-bit wrap of the sum in the header's length check, which corrupt lengths can cause, is not modelled.
- Block, BlockIter: blocks are smaller than 4 GB; `Iter.Seek` on corrupt blocks is only shown safe and terminating.
- Bloom, FilterBlock: the hash is any function; the statements hold for filter data below 4 GB. The rate of false positives is not stated.
- Table: compression, the block cache, footer and metaindex are not modelled. Seeks inside a table are linear there; the binary search is in `BlockIter`.
- TableBuilders.TableBuilder.Finish: the size of a finished block is a parameter, so block cuts are arbitrary.
- nanopb: static fields only. Pointer fields, callbacks, extensions, fixed-count arrays and custom default values are not modelled; struct memory is a sequence of field values. The position of the bit read by the varint decoder does not wrap.
- NanopbRoundTrip.MessageRoundTrip: for messages below 4 GB whose values fit their decoders' bounds, strings with room for the terminator; up to `Normal`, which forgets values under an unset presence flag or choice.
- NanopbDecode: what the 32-bit varint decoder does with over-long encodings follows the code, but nothing is claimed about it beyond decoding what the encoder writes.
- The app itself (`Timeline/Timeline`) and the other pods are interface code.
