# LevelDB and nanopb, verified in Dafny

A model of the LevelDB storage engine that the application vendors under `ios/Pods/leveldb-library`, with proofs of
what it is for: every read sees exactly the newest write at or below its snapshot, whatever the engine flushes, moves
or compacts in between, and what is on disk can be read back. The second part is the Protocol Buffers codec under
`ios/Pods/nanopb`: a message comes back as it was sent.

A database is a memtable, perhaps an immutable memtable, and seven levels of files; all of them together stand for one
set of entries, each a user key, a sequence number, a kind and a value. `ReadSpec.dfy` says in one line what a read
means. Everything else is proved against it.

## The engine

* `InternalKeys`, `ReadSpec`, `Versions`: keys, what a read means, and point lookup through the levels.
* `Overlap`, `CompactionInputs`, `InputExpansion`: which files a compaction takes, as fixed points of the loops that choose them; the
  files it starts from determine them.
* `VersionEdits`, `ManifestReplay`: applying edits through the builder, replaying them.
* `ManifestFile`: the manifest as a file. Whatever part of it a crash leaves, recovery finds what was in memory behind the last
  edit whose record is whole.
* `Compactions`, `SnapshotReads`, `Install`: the rules that drop entries, what they do to reads, and the tree invariant.
* `Database`, `MapRefinement`, `ManifestRuns`: the whole as a state machine. Every run of writes, memtable switches,
  flushes, compactions, trivial moves, snapshots and releases keeps the invariant; every run of safe steps reads like a
  plain map with saved copies; at the end of every run the manifest recovers the version that was reached.
* `RunRecovery`, `CrashConsistency`, `CrashRecovery`, `Reopening`: a crash at any moment of any run of crash-safe steps. From the
  bytes that are left of the manifest and the logs, the database opens with files and memtables that read like the map after a
  front part of the writes; the memtables become files of level 0, and the state behind that, with its new manifest, is one the
  next run can start from.
* `Durability`: the database object with its log and manifest files. Every operation leaves the files with what recovery asks for, so
  that objects whose compactions are crash-safe can crash and restart any number of times, and always read like the map after the
  writes that were left.
* `FlushInCompaction`, `SpannedTable`: a memtable that is flushed while a compaction runs. The tree stays sound if and only if no
  output spans the new table. The inputs PickCompaction chooses leave no room for that; a requested compaction can.
* `Merger`, `TwoLevel`, `DbIter`, `SnapshotList`, `DbImpl`, `DbScan`: the iterators, the list of snapshots, and the database class, whose
  methods take exactly the steps of `Database`, and whose iterator lists exactly the map.

The heart of it is the rule by which a compaction drops a deletion marker. `SnapshotReads.CompactionPreservesReads` gives
the exact condition under which a compaction changes no read at any live snapshot: no deletion it drops from the lower
inputs uncovers an older value of the same user key that stays behind in the output level. The code adds boundary files to the upper
inputs only, so the condition does not always hold. `Resurrection.UnsafeRun` is a run of fifteen steps from an empty database, as
the code decides them, after which a deleted key reads as its old value. `SnapshotReads.NoBoundaryNoResurrection` gives a check on
the chosen files, made before the compaction, that rules it out. As long as steps do not interrupt each other, the tree invariant, the
manifest and the files on disk are right whatever is compacted; the run theorem `MapRefinement.RunRefinesMap` asks every step to be safe in this sense.

A crash asks for something else. A newer write may keep a compaction safe by hiding the old value, and be lost: the run of
`Resurrection.SafeRunCrashes` has safe steps only. `CrashConsistency.CrashSafe` is the condition on a compaction for readers behind a
crash, and the crash theorems ask every step to meet it; `CrashConsistency.CrashSafeIsExact` shows that it is exact. Readers at
snapshots are gone then, so it is a condition of its own. `CrashConsistency.AlwaysSafe` implies both conditions and is exact for both
kinds of readers together, and the check on the chosen files implies it.

## Threads

* `WriteQueue`: group commit under any interleaving of any number of writer threads. One writer at a time is in the unlocked
  section; each group is a front segment of the queue; every call is answered once, in the order of arrival; the batches get
  consecutive sequence numbers and no snapshot splits one; the front of the queue is never left asleep; a caller that asked for
  sync and is told OK has its whole batch in a synced record, and behind a failed sync nobody is told OK.
* `GroupCommit`: the writer queue against the state machine. In every reachable state of every interleaving,
  every snapshot reads like the map after some of the batches, in the order of the answers, without those whose log write failed.
* `ObsoleteFiles`: which files are deleted. Nothing that a reader, the background work or a recovery still needs is
  ever deleted, and what is not needed goes. `ObsoleteFiles.OnlyOneWorkerIsSafe` shows why there has to be a single
  background worker.
* `SkipList`: one writer and any number of readers without locks. After every single pointer store the list is sound, and a search that runs
  beside an insertion returns the right successor.

## Bytes

* `Options`: a value that may be missing.
* `Coding`, `Crc32c`, `Comparator`, `Bloom`: integers, checksums, byte order and separators, filters.
* `Log`: a log cut off anywhere gives back exactly the records that are wholly there.
* `Block`, `FilterBlock`, `Tables`, `TableLookup`: a table file is built byte by byte, opened, and looked up in; the lookup agrees
  with a linear scan, with a filter or without.
* `WriteBatches`, `MemTables`, `Recovery`: batches and memtable entries as bytes. A log of batches that a crash cut off anywhere gives
  back every batch that is wholly there, and nothing of any other.
* `VersionEditCodec`: every edit is read back as it was written.
* `FileFormats`: what the bytes of all these are, with the numbers of the formats written out.
* `Rings`, `HandleTable`, `LruCache`: the block cache.

## nanopb

* `PbFields`: descriptors, message structures, defaults, and the field iterator.
* `PbWire`: encoded messages as trees of records, their bytes, and what receiving them one by one does to a structure.
* `PbEncode`: the encoder, against the records of a message. Both passes over a submessage agree on its size.
* `PbStreams`, `PbDecode`: the decoder, against receiving records one by one.
* `PbRoundTrip`: what comes back, and that unknown fields make no difference.
* `PbFormat`: the bytes of one field of each kind, with the numbers of the wire format written out.

A descriptor is a tree here, and a structure a list of members, in place of offsets into memory. The parts of a structure that
are not in use, such as an array behind its count, are not kept. The size of an encoded message is taken to be below 2^64.

## Conventions

A user key in the engine part is an integer: a run compares finitely many keys, and a finite total order embeds in the
integers. In the byte part keys are byte strings under the bytewise comparator. The engine part takes a table as its sorted
list of entries; the byte part shows that a table file answers as that list does.
Where the two meet, in `ManifestFile` and `CrashRecovery`, any naming of the keys by byte strings will do that tells apart the
keys in use, and in `Reopening` one that keeps their order; a table is found by its number.

Methods whose contract depends on bytes being well formed say so as an implication, so that they are total on any
bytes. Ghost parameters of such methods name the value that the bytes are supposed to hold.

In `DbIter`, going backward, the underlying iterator is documented to stand just before the entries of the current user key.
The code keeps less than that: entries that are too new for the snapshot may lie in between. The invariant proved here is
the weaker one, and it is enough.

`VersionEdit::Clear` keeps the compaction pointers, so decoding into an edit that was used before accumulates them;
recovery always decodes into a new edit. A write without a batch, which only asks for a memtable switch, is answered
without one if it is taken into the group of another writer.

## Model

| member | source | states |
|---|---|---|
| InternalKeys.CompareIsLexicographic | ios/Pods/leveldb-library/db/dbformat.cc:15-63 | comparing the packed 64-bit trailers is comparing (sequence, type) in descending order, and a seek key (u, s) sorts before exactly the entries of u with sequence at most s |
| ReadSpec.LookupIs | ios/Pods/leveldb-library/db/db_impl.cc:1110-1155 | the meaning of a read: the newest entry at or below the snapshot is unique and decides the answer, a deletion meaning absence |
| Versions.SearchIsLookup | ios/Pods/leveldb-library/db/memtable.cc:101-135 | seek then compare the user key, in one sorted entry list, answers exactly the newest visible entry |
| Versions.FindFile | ios/Pods/leveldb-library/db/version_set.cc:87-105 | the binary search finds the first file whose largest key is at or after the key: all files before it end before the key, all from it on do not |
| Versions.SomeFileOverlapsRange | ios/Pods/leveldb-library/db/version_set.cc:121-156 | true if and only if some file meets the user-key range, with either bound possibly missing, for disjoint and for overlapping file lists |
| Versions.SortNewestFirst | ios/Pods/leveldb-library/db/version_set.cc:277-298 | the level-0 candidates, newest file number first, and no others |
| Versions.SearchLevel0 | ios/Pods/leveldb-library/db/version_set.cc:281-303 | stopping at the first level-0 file that answers gives the newest visible entry of level 0, because a higher file number means newer |
| Versions.SearchLevel | ios/Pods/leveldb-library/db/version_set.cc:305-321 | looking into the one file FindFile names gives the newest visible entry of a level above 0, even when the versions of the user key straddle two files |
| Versions.Get | ios/Pods/leveldb-library/db/version_set.cc:324-400 | level by level lookup with early stop answers as if all entries of all files were one set: the newest one with sequence at most s |
| DbImpl.LayersDecide | ios/Pods/leveldb-library/db/db_impl.cc:1134-1146 | memtable, then immutable memtable, then files, each only if the one before has no entry: the same answer as one lookup in everything |
| DbImpl.DBImpl.Get | ios/Pods/leveldb-library/db/db_impl.cc:1110-1155 | a read returns the newest visible value over the whole database at the snapshot, or at the last sequence number |
| Overlap.GetOverlappingInputs | ios/Pods/leveldb-library/db/version_set.cc:498-538 | the restart loop ends and returns, in list order, exactly the level-0 files that meet the least range that contains the request and every file it touches; above level 0 exactly the files that meet the request |
| CompactionInputs.GetRange | ios/Pods/leveldb-library/db/version_set.cc:1182-1202 | the hull of the input files |
| CompactionInputs.FindSmallestBoundaryFile | ios/Pods/leveldb-library/db/version_set.cc:1322-1341 | the file with the smallest first key among those that start after the given key with the same user key |
| CompactionInputs.AddBoundaryInputs | ios/Pods/leveldb-library/db/version_set.cc:1356-1378 | appends boundary files one after the other until none follows the largest key, and ends |
| CompactionInputs.BoundarySevers | ios/Pods/leveldb-library/db/version_set.cc:1343-1378 | on a level above 0 the files with their boundary files are a run of neighbours that no later file shares a user key with |
| CompactionInputs.IsolatedNeedsNoBoundary | ios/Pods/leveldb-library/db/version_set.cc:1356-1378 | a level-0 input set that no other file overlaps needs no boundary files |
| CompactionInputs.SetupOtherInputs | ios/Pods/leveldb-library/db/version_set.cc:1380-1439 | the upper inputs are the given files with their boundary files, or, exactly if there are lower inputs, the wider choice has more upper files, its bytes with those of the lower inputs are below 25 file sizes, and it meets as many lower files, all that the range of the compaction asks for; the lower inputs are exactly the files of the next level that meet their range, the grandparents exactly those of the level after that, and the next compaction of the level starts behind the largest upper key |
| CompactionInputs.ChoiceIsUnique | ios/Pods/leveldb-library/db/version_set.cc:1380-1439 | the given files determine the inputs |
| InputExpansion.NeighbourIsTaken | ios/Pods/leveldb-library/db/version_set.cc:1394-1424 | on two neighbours of any sizes: the second is taken along exactly if all three files have less than 25 file sizes and it brings no second lower file with it |
| CompactionInputs.PickFile | ios/Pods/leveldb-library/db/version_set.cc:1257-1272 | the first file that ends after the compaction pointer, wrapping around to the first of all |
| CompactionInputs.PickCompaction | ios/Pods/leveldb-library/db/version_set.cc:1247-1301 | picks something exactly if a level is too full or a file had too many fruitless reads; the shallowest of the fullest levels goes first, from the file whose turn it is; the inputs are exactly what that file, in level 0 with all that it overlaps, leads to, they are legal and leave no gap between them |
| CompactionInputs.Finalize | ios/Pods/leveldb-library/db/version_set.cc:1026-1062 | the fullest level that has a level below it, by the number of its files or by their bytes, and the shallowest of several |
| CompactionInputs.IsDue | ios/Pods/leveldb-library/db/version_set.cc:1026-1062 | a level is due from four files on in level 0, from 10 MB on in level 1, and from ten times as much in each level below |
| CompactionInputs.CompactRange | ios/Pods/leveldb-library/db/version_set.cc:1441-1472 | a manual compaction finds inputs if and only if some file meets the range; above level 0 it is cut behind the first file with which it has a whole file size, and the inputs are exactly what those files lead to; what meets the range and is not taken lies behind the last file taken |
| VersionEdits.Builder.Apply | ios/Pods/leveldb-library/db/version_set.cc:641-668 | the builder collects deletions and additions of an edit, an addition cancelling an earlier deletion of that number |
| VersionEdits.Builder.SaveTo | ios/Pods/leveldb-library/db/version_set.cc:671-715 | merging the old files with the added ones and leaving out the deleted ones, level by level |
| VersionEdits.SavedIs | ios/Pods/leveldb-library/db/version_set.cc:671-730 | the saved level is sorted by smallest key and holds exactly the old and added files that are not deleted |
| VersionEdits.OrderedIsUnique | ios/Pods/leveldb-library/db/version_set.cc:561-580 | the order of files in a level is determined by which files are in it |
| ManifestReplay.ApplyThenSave | ios/Pods/leveldb-library/db/version_set.cc:629-730 | applying one more edit to a builder and saving is saving first and applying the edit to the result |
| ManifestReplay.ReplayIsHistory | ios/Pods/leveldb-library/db/version_set.cc:902-962 | replaying any list of edits through one builder gives the version that applying them one LogAndApply at a time gave, if no level adds a file number twice |
| ManifestReplay.ReAddingBreaksReplay | ios/Pods/leveldb-library/db/version_set.cc:629-669 | without that condition replay and history differ: a concrete list of edits |
| ManifestReplay.WriteSnapshot | ios/Pods/leveldb-library/db/version_set.cc:1080-1087 | the snapshot lists every file of every level, in order |
| ManifestReplay.LogKeepsManifest | ios/Pods/leveldb-library/db/version_set.cc:792-846 | one more edit with fresh additions keeps the list of edits a faithful account of the current version |
| ManifestReplay.RecoveryIsCurrent | ios/Pods/leveldb-library/db/version_set.cc:930-976 | a faithful list of edits, replayed, gives the current version, and the last recorded counters |
| ManifestReplay.VersionSet.LogAndApply | ios/Pods/leveldb-library/db/version_set.cc:777-801 | in memory: the new version is installed, and the records logged, one more, or two the first time, lead to exactly the new version and counters |
| ManifestReplay.VersionSet.NewFileNumber | ios/Pods/leveldb-library/db/version_set.h:193-194 | every file number is handed out once |
| ManifestReplay.VersionSet.Reopened | ios/Pods/leveldb-library/db/version_set.cc:966-978 | a version set made from a recovered manifest goes on from one past the recorded next file number |
| ManifestReplay.VersionSet.MarkFileNumberUsed | ios/Pods/leveldb-library/db/version_set.cc:1020-1024 | numbers up to the marked one are not handed out any more |
| ManifestFile.RecordBack | ios/Pods/leveldb-library/db/version_edit.cc:41-203 | an edit with its files, keys, counters, comparator and compaction pointers is decoded from its bytes as it was, its deletions in order |
| ManifestFile.ListingApplies | ios/Pods/leveldb-library/db/version_set.cc:641-668 | the order in which an edit lists its deletions makes no difference to what it does |
| ManifestFile.DecodedBelow | ios/Pods/leveldb-library/db/version_edit.cc:87-97 | whatever bytes are decoded, the builder is never handed a level that does not exist |
| ManifestFile.Encode | ios/Pods/leveldb-library/db/version_edit.cc:41-85 | the bytes of an edit filled by DeleteFile and AddFile |
| ManifestFile.ReplayRecords | ios/Pods/leveldb-library/db/version_set.cc:902-976 | on any records: the first one that does not decode, or names another comparator, decides the status; otherwise every edit goes through one builder, the last value of every counter and the last pointer of every level count, and log number, next file number and last sequence must have been seen |
| ManifestFile.WrittenScans | ios/Pods/leveldb-library/db/version_set.cc:914-936 | the records that were written are scanned as what they said, and refused exactly if one of them names another comparator |
| ManifestFile.Recover | ios/Pods/leveldb-library/db/version_set.cc:862-1002 | on a manifest file that a crash cut off anywhere, exactly the records wholly in the file count, and recovery finds the version, the counters and the compaction pointers that replaying them gives |
| ManifestFile.DescriptorLog.WriteSnapshotTo | ios/Pods/leveldb-library/db/version_set.cc:1064-1092 | a manifest starts with one record: the comparator, the compaction pointers that are set, and every file of every level |
| ManifestFile.DescriptorLog.LogAndApply | ios/Pods/leveldb-library/db/version_set.cc:777-860 | the edit is encoded and goes to the end of the manifest file, behind a snapshot if the file is new, and the new version is installed; what is in the file leads to what is in memory |
| ManifestFile.DescriptorLog.Reopen | ios/Pods/leveldb-library/db/version_set.cc:862-1002 | whatever part of the manifest file is left, recovery finds what was in memory behind the last LogAndApply whose record is wholly there, and the present if nothing is missing |
| Compactions.Compaction.IsBaseLevelForKey | ios/Pods/leveldb-library/db/version_set.cc:1510-1529 | with pointers that only move forward, true if and only if no level from level + 2 on has a file whose range holds the user key |
| Compactions.Compaction.ShouldStopBefore | ios/Pods/leveldb-library/db/version_set.cc:1531-1553 | scans to the first grandparent that ends at or after the key and asks for a new output once more than ten file sizes were passed |
| Compactions.DoCompactionWork | ios/Pods/leveldb-library/db/db_impl.cc:899-1016 | the outputs hold exactly the input entries that neither rule drops, in order; none is empty, and each new one starts exactly where the one before is full or ShouldStopBefore asks for it |
| Compactions.SurvivorsAre | ios/Pods/leveldb-library/db/db_impl.cc:938-982 | an entry survives if and only if neither a newer entry all live snapshots see hides it nor it is an obsolete deletion |
| SnapshotReads.DroppedNewestIsObsolete | ios/Pods/leveldb-library/db/db_impl.cc:954-971 | a dropped entry that some live snapshot reads is a deletion dropped by the second rule |
| SnapshotReads.ReadUnchanged | ios/Pods/leveldb-library/db/db_impl.cc:887-1050 | a compaction that resurrects nothing changes no read of any user key at any live snapshot |
| SnapshotReads.ResurrectionShows | ios/Pods/leveldb-library/db/db_impl.cc:959-969 | if the condition fails, a deleted user key reads as its old value at the oldest live snapshot |
| SnapshotReads.CompactionPreservesReads | ios/Pods/leveldb-library/db/db_impl.cc:887-1050 | a compaction preserves every read at every live snapshot if and only if no dropped deletion uncovers a value left behind in the output level |
| SnapshotReads.NoBoundaryNoResurrection | ios/Pods/leveldb-library/db/version_set.cc:1380-1399 | a check on the chosen files, that AddBoundaryInputs would add nothing to the lower inputs, rules resurrection out |
| SnapshotReads.NothingSurvivesAtMax | ios/Pods/leveldb-library/db/db_impl.cc:915-956 | at the largest sequence number the first rule drops every entry, so snapshots have to stay below it |
| Resurrection.DeletedKeyComesBack | ios/Pods/leveldb-library/db/version_set.cc:1380-1399 | in front of the last compaction of that run a key is deleted at the only sequence number anybody reads at, and behind it the key reads as its old value |
| Resurrection.UnsafeRun | ios/Pods/leveldb-library/db/version_set.cc:1380-1399 | a run of fifteen steps from the empty database, in which the code would pick every flush level, make the move and compact what a request for all keys asks for, taking exactly those inputs and cutting the outputs there, with every output full but the last of a compaction, whose last state does not read like the map after its writes |
| Resurrection.SafeRunCrashes | ios/Pods/leveldb-library/db/db_impl.cc:289-378 | a run of safe steps of the same kind behind which a crash that takes the last write lets a deleted key read as its old value |
| Install.OutputLevelIsDisjoint | ios/Pods/leveldb-library/db/version_set.cc:1380-1439 | the output level stays sorted and disjoint when outputs replace the lower inputs |
| Install.CompactedIsNewer | ios/Pods/leveldb-library/db/version_set.cc:1380-1439 | after a compaction shallower levels are still newer for every user key |
| Install.CompactionKeepsVersion | ios/Pods/leveldb-library/db/db_impl.cc:869-885 | installing a compaction keeps the whole tree invariant |
| Install.PickLevelForMemTableOutput | ios/Pods/leveldb-library/db/version_set.cc:470-495 | the level is the one at which the search stops: level 0 if a file there overlaps the memtable, else the first level at most 2 below which a file overlaps it or more than ten file sizes two levels further down do; and no file from level 0 down to it overlaps the memtable |
| Install.FlushKeepsVersion | ios/Pods/leveldb-library/db/db_impl.cc:505-542 | adding a flushed table at the picked level keeps the whole tree invariant |
| Database.MemInsertIs | ios/Pods/leveldb-library/db/memtable.cc:76-99 | adding an entry with a new largest sequence number keeps the memtable sorted and adds exactly that entry |
| Database.InstalledIsCompacted | ios/Pods/leveldb-library/db/db_impl.cc:869-885 | the edit a compaction logs, run through the builder, deletes exactly the inputs and adds exactly the outputs one level down |
| Database.MoveKeepsInv | ios/Pods/leveldb-library/db/db_impl.cc:727-743 | a trivial move keeps the invariant and all entries |
| Database.FlushKeepsInv | ios/Pods/leveldb-library/db/db_impl.cc:544-575 | a flush keeps the invariant and all entries |
| Database.CompactKeepsInv | ios/Pods/leveldb-library/db/db_impl.cc:887-1050 | a compaction keeps the invariant, whatever it drops |
| Database.StepKeepsInv | ios/Pods/leveldb-library/db/db_impl.cc:697-776 | every write, memtable switch, flush, compaction, trivial move, snapshot and release keeps the invariant |
| Database.NoBoundaryIsSafe | ios/Pods/leveldb-library/db/version_set.cc:1380-1399 | a compaction whose lower inputs have no boundary file is safe |
| MapRefinement.WriteOneRefines | ios/Pods/leveldb-library/db/memtable.cc:76-99 | one write changes the current contents at its key and no snapshot |
| MapRefinement.CompactReadsSame | ios/Pods/leveldb-library/db/db_impl.cc:887-1050 | a safe compaction changes no read at any live snapshot |
| MapRefinement.UnsafeCompactionShows | ios/Pods/leveldb-library/db/db_impl.cc:959-969 | an unsafe one changes the read of some key at the oldest live snapshot |
| MapRefinement.StepRefines | ios/Pods/leveldb-library/db/db_impl.cc:697-776 | every safe step is a step of a plain map with saved copies, or no step at all |
| MapRefinement.RunKeepsInv | ios/Pods/leveldb-library/db/db_impl.cc:697-776 | the invariant holds in every state of every run |
| MapRefinement.RunRefinesMap | ios/Pods/leveldb-library/db/db_impl.cc:1110-1155 | over every run of safe steps the database reads like the map after the same writes, now and at every live snapshot |
| MapRefinement.StartRefinesEmpty | ios/Pods/leveldb-library/db/db_impl.cc:181-211 | a new database satisfies the invariant and reads like the empty map |
| ManifestRuns.StepEditIsFresh | ios/Pods/leveldb-library/db/version_set.cc:777-860 | the edit of every step adds only file numbers its level never had, and the version it installs is the one the step reaches |
| ManifestRuns.RunTracks | ios/Pods/leveldb-library/db/version_set.cc:777-860 | at the end of every run the edits it logged, replayed, give the version the run reached |
| RunRecovery.NewDbOpens | ios/Pods/leveldb-library/db/db_impl.cc:181-211 | the record a new database starts its manifest with leads to the empty version and its counters |
| RunRecovery.PartIsMoment | ios/Pods/leveldb-library/db/version_set.cc:914-962 | every front part of the manifest of a run is the manifest as it was behind some step that logged |
| RunRecovery.MomentRecovers | ios/Pods/leveldb-library/db/version_set.cc:902-976 | the manifest behind such a step leads to the files, the next file number and the last sequence number of the state then |
| RunRecovery.TablesExist | ios/Pods/leveldb-library/db/version_set.cc:777-860 | over a whole run a file number never stands for two tables, so the files of the manifest can be looked up by number |
| RunRecovery.RecoverRun | ios/Pods/leveldb-library/db/version_set.cc:862-1002 | opening the manifest file of a run that was cut off anywhere behind its first records finds the files, the recorded next file number and the last sequence number of the run behind the last step whose record is left, and the files of the last state if nothing is missing |
| CrashConsistency.BelowReads | ios/Pods/leveldb-library/db/db_impl.cc:1110-1155 | losing everything newer than s changes no read at s, and a read at a later number finds the same |
| CrashConsistency.RunIsLayered | ios/Pods/leveldb-library/db/db_impl.cc:544-575 | over every run the files hold nothing written after the switch of the memtable that was flushed last |
| CrashConsistency.CompactReadsBelow | ios/Pods/leveldb-library/db/db_impl.cc:887-1050 | a crash-safe compaction changes no read of what a crash can leave, also below the oldest snapshot |
| CrashConsistency.UncoveredShows | ios/Pods/leveldb-library/db/db_impl.cc:959-969 | if the condition fails for a crash at s, a reader at s finds a deleted key with its old value |
| CrashConsistency.CrashSafeIsExact | ios/Pods/leveldb-library/db/db_impl.cc:959-969 | a compaction is crash-safe if and only if, whatever later writes a crash takes, every later read of every key is what it would have been without the compaction |
| CrashConsistency.AlwaysSafeIsExact | ios/Pods/leveldb-library/db/db_impl.cc:959-969 | the condition for readers at live snapshots too: it holds if and only if, whatever a crash takes, no read from the smaller of s and the oldest snapshot on is changed |
| CrashConsistency.AlwaysIsBoth | ios/Pods/leveldb-library/db/db_impl.cc:887-1050 | under that condition a compaction is safe and crash-safe |
| CrashConsistency.NoBoundaryIsAlwaysSafe | ios/Pods/leveldb-library/db/version_set.cc:1380-1399 | a check on the chosen files, that the lower inputs have no boundary file, makes it hold |
| CrashConsistency.OlderMomentReads | ios/Pods/leveldb-library/db/db_impl.cc:697-776 | over every run of crash-safe steps, every moment that is not flushed yet can still be read: at its last sequence number the database reads like the map then |
| CrashConsistency.CrashReadsLike | ios/Pods/leveldb-library/db/db_impl.cc:289-378 | over every run of crash-safe steps, what is left when a crash takes every write behind some moment that is not wholly flushed reads like the map at that moment |
| CrashRecovery.MemtablesHold | ios/Pods/leveldb-library/db/db_impl.cc:1356-1377 | over every run the memtable holds exactly what was written since the last switch, the immutable one what was written before it and is not flushed |
| CrashRecovery.ReadLog | ios/Pods/leveldb-library/db/db_impl.cc:380-463 | a log of the run, cut off anywhere, gives back exactly what was written up to some step |
| CrashRecovery.Open | ios/Pods/leveldb-library/db/db_impl.cc:289-378 | end to end, from bytes: after a crash behind any step of any run of crash-safe steps, with the manifest perhaps torn behind its last record and the logs cut off, the recovered files and memtables read like the map after a front part of the writes; it holds every write wholly in the older log, and every one wholly in the newer log if the older is whole |
| Reopening.TableKeepsInv | ios/Pods/leveldb-library/db/db_impl.cc:500-542 | a recovered memtable written to level 0 keeps the invariant and adds exactly its entries, an empty one only takes a number |
| Reopening.OneEdit | ios/Pods/leveldb-library/db/version_set.cc:777-860 | installing one edit that adds all the tables is installing them one after the other |
| Reopening.ReadTable | ios/Pods/leveldb-library/db/builder.cc:17-45 | reading a memtable from its first entry to its last, from bytes, gives its entries in order |
| Reopening.BackIsSorted | ios/Pods/leveldb-library/db/builder.cc:17-45 | under names in the order of the keys, a recovered memtable is a sorted run of entries of the engine |
| Reopening.WriteTables | ios/Pods/leveldb-library/db/db_impl.cc:380-498 | the memtables of the logs, oldest log first, become level-0 files under new numbers, and a log number is marked used behind its tables |
| Reopening.Reopen | ios/Pods/leveldb-library/db/db_impl.cc:1478-1519 | run, crash and run compose: after a crash behind any step of a run of crash-safe steps, opening leaves a state that satisfies the invariant, reads like the map after the front part of the writes that was left, and is what the new manifest recovers; the new log is newer than the old ones |
| Durability.Create | ios/Pods/leveldb-library/db/db_impl.cc:1478-1519 | a new database object with its files stands for the empty map |
| Durability.DurableDb.constructor | ios/Pods/leveldb-library/db/db_impl.cc:1478-1519 | opening starts an empty log and a manifest file that holds the records the new manifest has in memory |
| Durability.DurableDb.Write | ios/Pods/leveldb-library/db/db_impl.cc:1222-1236 | the batch goes to the end of the log as its bytes, then into the memtable; the files still hold what recovery from the run asks for |
| Durability.DurableDb.SwitchMemTable | ios/Pods/leveldb-library/db/db_impl.cc:1356-1377 | a new log with a new number; the one before holds exactly what the immutable memtable holds |
| Durability.DurableDb.BackgroundCompaction | ios/Pods/leveldb-library/db/db_impl.cc:544-575 | the record of what was done goes to the end of the manifest, and behind a flush the older log is not needed; what is done is what PickCompaction or the request asks for |
| Durability.DurableDb.LogsFound | ios/Pods/leveldb-library/db/db_impl.cc:333-361 | the log number that the manifest file leads to is that of the oldest log whose writes are in no table: of whatever logs are still there recovery replays exactly the log of the waiting memtable, if one waits, and then that of the memtable |
| CrashRecovery.LogsToReplay | ios/Pods/leveldb-library/db/db_impl.cc:333-361 | of the logs in the directory those from the recovered number on, and the previous one, oldest first |
| Durability.DurableDb.Get | ios/Pods/leveldb-library/db/db_impl.cc:1110-1155 | if every compaction so far was crash-safe, a read finds what the map holds behind all writes since the start |
| Durability.DurableDb.Recover | ios/Pods/leveldb-library/db/db_impl.cc:289-378 | the files of a database object, its logs cut off anywhere, satisfy all that recovery asks for; it finds a state that reads like the map behind a front part of the run, which holds every write wholly in a log if the older log is whole |
| Durability.DurableDb.Restart | ios/Pods/leveldb-library/db/db_impl.cc:1478-1519 | the next object stands for that map, so that writes, compactions, crashes and restarts follow one another without end; its log is newer than those that were recovered |
| Durability.LogsStayKept | ios/Pods/leveldb-library/db/db_impl.cc:1222-1236 | every step of the state machine leaves the two logs with exactly the writes of the two memtables |
| Durability.ManifestGrows | ios/Pods/leveldb-library/db/version_set.cc:826-843 | a step that changes the files leaves the manifest file with its record behind the others |
| Durability.StepIsStored | ios/Pods/leveldb-library/db/version_edit.cc:47-86 | what a step logs fits its encoding, if every key has a name and numbers and sizes have 64 bits |
| DbImpl.DBImpl.constructor | ios/Pods/leveldb-library/db/db_impl.cc:1478-1519 | a new database object stands for the empty map, and its manifest says that its log is needed |
| DbImpl.DBImpl.Opened | ios/Pods/leveldb-library/db/db_impl.cc:1478-1519 | an object made of a version set that was recovered or created has its files and counters, and nothing in memory |
| DbImpl.DBImpl.Write | ios/Pods/leveldb-library/db/db_impl.cc:1195-1240 | a write batch is the step that gives its records consecutive sequence numbers in order |
| DbImpl.DBImpl.SwitchMemTable | ios/Pods/leveldb-library/db/db_impl.cc:1356-1377 | the full memtable becomes the immutable one, with a new log number; the log that is needed stays the one before |
| DbImpl.DBImpl.CompactMemTable | ios/Pods/leveldb-library/db/db_impl.cc:544-575 | builds the table, picks its level, logs and installs the edit: the flush step; the record says that logs older than that of the memtable are not needed |
| DbImpl.DBImpl.MoveFile | ios/Pods/leveldb-library/db/db_impl.cc:727-743 | the trivial move step |
| DbImpl.DBImpl.Compact | ios/Pods/leveldb-library/db/db_impl.cc:887-1050 | merge, drop, number the outputs, log and install: the compaction step for exactly the given inputs, each output cut exactly where the one before is full or more than ten file sizes of grandparents were passed |
| DbImpl.DBImpl.InstallCompactionResults | ios/Pods/leveldb-library/db/db_impl.cc:869-885 | the edit of the compaction is logged with the counters and installed, which completes the step |
| DbImpl.DBImpl.BackgroundCompaction | ios/Pods/leveldb-library/db/db_impl.cc:697-776 | a waiting memtable is flushed first; else a manual request is served until no file meets what is left of it; else the fullest level, or the file with too many fruitless reads, is moved or compacted; the object takes exactly that step, with exactly the inputs the choice leads to, outputs cut by their grandparents, and a record that names the oldest log still needed |
| DbImpl.DBImpl.CompactManually | ios/Pods/leveldb-library/db/db_impl.cc:705-718 | a manual request does nothing exactly if no file meets it; else the inputs are what it leads to, the outputs cut by their grandparents, and every file of the level that still meets it afterwards meets what is left of it |
| DbImpl.DBImpl.CompactPicked | ios/Pods/leveldb-library/db/version_set.cc:1247-1301 | takes what the file whose turn it is in the fullest level leads to, or the file with too many fruitless reads; that is moved exactly if it is one file, meets no file of the next level and not more than ten file sizes of the level after that; the next compaction of the level starts behind what was taken |
| CompactionInputs.ChoiceIsGapless | ios/Pods/leveldb-library/db/version_set.cc:1386-1439 | inputs that start from files without a gap have none: boundary files and lower inputs touch what is there |
| CompactionInputs.ExpansionIsGapless | ios/Pods/leveldb-library/db/version_set.cc:1396-1424 | taking more upper files opens no gap either |
| CompactionInputs.ClosureLeavesNoGap | ios/Pods/leveldb-library/db/version_set.cc:498-547 | nor does the search through level 0, which only comes to files that are connected with the request |
| FlushInCompaction.FlushInBetween | ios/Pods/leveldb-library/db/db_impl.cc:916-928 | a flush inside a compaction keeps the invariant if and only if no output of the level of the new table spans it, and either way nothing is lost: all entries are those the compaction alone would have left |
| FlushInCompaction.GaplessIsNotSpanned | ios/Pods/leveldb-library/db/db_impl.cc:916-928 | no output spans a table that is flushed inside a compaction whose inputs have no gap, as those PickCompaction chooses |
| SpannedTable.RequestCanSpan | ios/Pods/leveldb-library/db/db_impl.cc:577-592 | a run from the empty database, in which the code picks every flush level, and a compaction of exactly the inputs that a request for all keys of level 1 leads to, during which a memtable is flushed into a gap of its inputs at level 2: afterwards level 2 is not disjoint |
| DbImpl.DBImpl.GetSnapshot | ios/Pods/leveldb-library/db/db_impl.cc:1176-1179 | a snapshot is the last sequence number, kept in order |
| DbImpl.DBImpl.ReleaseSnapshot | ios/Pods/leveldb-library/db/db_impl.cc:1181-1185 | releasing takes one snapshot off the list |
| DbImpl.InputRuns | ios/Pods/leveldb-library/db/version_set.cc:1214-1245 | one child for every level-0 input and one for the inputs of any other level: sorted runs without a common key that together hold exactly the entries of the inputs |
| Merger.MergingIterator.SeekToFirst | ios/Pods/leveldb-library/table/merger.cc:31-37 | the first entry of the sorted union of the children |
| Merger.MergingIterator.SeekToLast | ios/Pods/leveldb-library/table/merger.cc:39-45 | the last entry of the sorted union |
| Merger.MergingIterator.Seek | ios/Pods/leveldb-library/table/merger.cc:47-53 | the first entry of the union at or after the target |
| Merger.MergingIterator.Next | ios/Pods/leveldb-library/table/merger.cc:55-79 | one position forward in the union, also after moving backward |
| Merger.MergingIterator.Prev | ios/Pods/leveldb-library/table/merger.cc:81-108 | one position back in the union, also after moving forward |
| Merger.MergingIterator.FindSmallest | ios/Pods/leveldb-library/table/merger.cc:148-161 | the child with the least current key |
| Merger.MergingIterator.FindLargest | ios/Pods/leveldb-library/table/merger.cc:163-176 | the child with the greatest current key |
| Merger.MergeAllIsUnion | ios/Pods/leveldb-library/table/merger.cc:179-190 | the sorted union exists and has every entry of every child once |
| Merger.MergeRuns | ios/Pods/leveldb-library/db/db_impl.cc:907-992 | draining the iterator gives the sorted union of its children |
| DbIter.ShownIsVisible | ios/Pods/leveldb-library/db/db_iter.cc:177-207 | the entries the iterator may show are, for each live user key, exactly its newest visible value |
| DbIter.ShownOnce | ios/Pods/leveldb-library/db/db_iter.cc:177-207 | no user key is shown at two positions |
| DbIter.DBIter.FindNextUserEntry | ios/Pods/leveldb-library/db/db_iter.cc:177-207 | the next entry to show at or after the current position, past hidden entries and deletions |
| DbIter.DBIter.FindPrevUserEntry | ios/Pods/leveldb-library/db/db_iter.cc:236-276 | the last entry to show before the current position, with its key and value saved |
| DbIter.DBIter.Seek | ios/Pods/leveldb-library/db/db_iter.cc:278-290 | the first shown user key at or after the target |
| DbIter.DBIter.SeekToFirst | ios/Pods/leveldb-library/db/db_iter.cc:292-301 | the first shown user key |
| DbIter.DBIter.SeekToLast | ios/Pods/leveldb-library/db/db_iter.cc:303-308 | the last shown user key |
| DbIter.DBIter.Next | ios/Pods/leveldb-library/db/db_iter.cc:141-175 | the next shown user key, in either direction before |
| DbIter.DBIter.Prev | ios/Pods/leveldb-library/db/db_iter.cc:209-234 | the previous shown user key, in either direction before |
| WriteQueue.BuildBatchGroup | ios/Pods/leveldb-library/db/db_impl.cc:1270-1316 | the longest front segment of the queue that the size limit and the sync rule allow, and its batches joined in order: nobody asks for sync in a group whose leader does not, a small first batch has at most 128 KB of company and any other group at most 1 MB, and the next writer would break one of the two rules |
| WriteQueue.StepKeepsInv | ios/Pods/leveldb-library/db/db_impl.cc:1195-1268 | every action of every thread keeps: first come first served, one leader, no lost wake-up, consecutive sequence ranges, memtable contents equal to the answered batches, log ahead of memtable, and every batch that was answered OK whole in a record of the log, which is synced if its caller asked for that |
| WriteQueue.RunKeepsInv | ios/Pods/leveldb-library/db/db_impl.cc:1195-1268 | the invariant holds in every state of every interleaving |
| WriteQueue.FinishKeepsInv | ios/Pods/leveldb-library/db/db_impl.cc:1234-1266 | committing a group answers exactly its members, once, in order |
| WriteQueue.StepKeepsSync | ios/Pods/leveldb-library/db/db_impl.cc:1222-1245 | a caller that asked for sync and is told OK has its whole batch in a record that was synced, whoever led its group |
| WriteQueue.SyncedSurvives | ios/Pods/leveldb-library/db/db_impl.cc:1227-1232 | whatever records a crash takes, as long as it leaves those that were synced, the whole batch of such a caller is left |
| WriteQueue.StoppedForGood | ios/Pods/leveldb-library/db/db_impl.cc:1228-1245 | behind a failed sync nothing more is logged or inserted, and nobody is told OK any more |
| WriteQueue.OutcomesAppend | ios/Pods/leveldb-library/db/write_batch.cc:116-147 | the batches of a group get disjoint consecutive ranges and are inserted as one |
| WriteQueue.SnapshotSeesWholeBatches | ios/Pods/leveldb-library/db/db_impl.cc:1176-1179 | no snapshot taken from the last sequence number splits a batch |
| WriteQueue.ReadsAreSettled | ios/Pods/leveldb-library/db/db_impl.cc:1220-1246 | everything inserted later is newer than the last sequence number, so reads at it are settled |
| WriteQueue.SequencesIncrease | ios/Pods/leveldb-library/db/write_batch.cc:118-137 | sequence numbers in the memtables strictly increase in insertion order |
| GroupCommit.AloneRuns | ios/Pods/leveldb-library/db/db_impl.cc:1195-1263 | if no log write failed, the batches, in the order of the answers, are writes of the database state machine, one after the other |
| GroupCommit.AloneHolds | ios/Pods/leveldb-library/db/db_impl.cc:1227-1236 | one writer taking these steps ends with exactly what the group commits left in the memtables |
| GroupCommit.GroupCommitReads | ios/Pods/leveldb-library/db/db_impl.cc:1195-1263 | in every reachable state, whatever the threads are doing and whatever log writes failed, a read at the boundary behind the first k batches reads like the map after those of the k whose log write succeeded |
| GroupCommit.SnapshotReadsMap | ios/Pods/leveldb-library/db/db_impl.cc:1176-1179 | so does every snapshot any thread has taken |
| GroupCommit.HandledReads | ios/Pods/leveldb-library/db/db_impl.cc:1227-1236 | what the answered batches left in the memtables reads like the map, with the sequence numbers of failed batches used up and unused |
| WriteQueue.FrontCanStep | ios/Pods/leveldb-library/db/db_impl.cc:1202-1208 | the writer at the front of the queue can always go on; giving up is the only way behind a failed sync |
| ObsoleteFiles.StepKeepsInv | ios/Pods/leveldb-library/db/db_impl.cc:222-287 | every step of readers, writers and the background worker keeps the file invariant |
| ObsoleteFiles.RunKeepsInv | ios/Pods/leveldb-library/db/db_impl.cc:222-287 | the file invariant holds in every state of every run |
| ObsoleteFiles.NothingNeededIsDeleted | ios/Pods/leveldb-library/db/db_impl.cc:222-287 | in every reachable state every table of a live version, of a running flush or compaction and of the manifest is on disk, and so is every log a recovery needs |
| ObsoleteFiles.CollectIsExact | ios/Pods/leveldb-library/db/db_impl.cc:231-281 | a collection removes exactly the tables and logs that nobody needs, outputs being written excepted |
| ObsoleteFiles.NeededIsKept | ios/Pods/leveldb-library/db/version_set.cc:1144-1154 | between jobs, whatever is needed is live |
| ObsoleteFiles.OnlyOneWorkerIsSafe | ios/Pods/leveldb-library/db/db_impl.cc:505-542 | a reachable state in which a table about to be installed is neither in a version nor pending, so that a collection at that moment, which only a second worker could run, would not keep it |
| ObsoleteFiles.InstallFlushKeepsInv | ios/Pods/leveldb-library/db/db_impl.cc:559-570 | installing a flush lets go of the old log only when its table is durable |
| ObsoleteFiles.CleanupKeepsInv | ios/Pods/leveldb-library/db/db_impl.cc:778-793 | taking outputs off the pending list endangers none that is in use |
| Log.Writer.AddRecord | ios/Pods/leveldb-library/db/log_writer.cc:34-80 | appends exactly the fragments of the record, padding a block that has no room for a header; an empty record still gets one fragment |
| Log.Writer.EmitPhysicalRecord | ios/Pods/leveldb-library/db/log_writer.cc:82-108 | checksum over type and payload, 16-bit length, type, payload |
| Log.AddRecords | ios/Pods/leveldb-library/db/log_writer.cc:23-30 | a fresh or a reopened writer leaves the log of all the records |
| Log.Reader.ReadPhysicalRecord | ios/Pods/leveldb-library/db/log_reader.cc:189-271 | the buffered parser agrees with parsing the file at the next header position, torn tails and damage included |
| Log.Reader.ReadRecord | ios/Pods/leveldb-library/db/log_reader.cc:56-174 | puts the fragments of a written record together, or reports the end of the file without a complaint if the record is torn |
| Log.FragmentParses | ios/Pods/leveldb-library/db/log_reader.cc:212-269 | a written fragment parses as itself, and a torn one as the end of the file |
| Log.ReadLog | ios/Pods/leveldb-library/db/db_impl.cc:427-465 | for every list of records and every place to cut the file, exactly the records wholly before the cut come back, in order, with nothing reported |
| Log.WhollyKeptIsUnique | ios/Pods/leveldb-library/db/log_reader.cc:56-174 | how many records are wholly kept is determined by the cut |
| Coding.FixedRoundTrip | ios/Pods/leveldb-library/util/coding.h:54-101 | fixed-width integers are read back |
| Coding.EncodeFixed32 | ios/Pods/leveldb-library/util/coding.h:54-62 | the four bytes of the value, least significant first |
| Coding.DecodeFixed32 | ios/Pods/leveldb-library/util/coding.h:81-89 | the value of four bytes |
| Coding.EncodeVarint32 | ios/Pods/leveldb-library/util/coding.cc:21-47 | the five branches all produce the base-128 encoding |
| Coding.EncodeVarint64 | ios/Pods/leveldb-library/util/coding.cc:55-64 | the loop produces the base-128 encoding |
| Coding.GetVarintPtr | ios/Pods/leveldb-library/util/coding.cc:86-131 | the shift loops, with the one-byte fast path, read at most 5 or 10 bytes, truncate to the width, and fail on a missing end |
| Coding.VarintRoundTrip | ios/Pods/leveldb-library/util/coding.cc:21-131 | every 32-bit or 64-bit value is read back wherever it stands |
| Coding.VarintFits | ios/Pods/leveldb-library/util/coding.cc:77-84 | a 32-bit value takes at most 5 bytes and a 64-bit value at most 10 |
| Coding.PrefixedRoundTrip | ios/Pods/leveldb-library/util/coding.cc:72-75 | length-prefixed strings are read back |
| VersionEditCodec.VersionEdit.EncodeTo | ios/Pods/leveldb-library/db/version_edit.cc:41-84 | writes the tagged fields in a fixed order |
| VersionEditCodec.VersionEdit.DecodeFrom | ios/Pods/leveldb-library/db/version_edit.cc:105-203 | reads tagged fields to the end and fails on an unknown tag, a bad level, an empty key or a cut-off field; compaction pointers of an earlier use are kept |
| VersionEditCodec.VersionEdit.Clear | ios/Pods/leveldb-library/db/version_edit.cc:26-39 | forgets everything but the compaction pointers |
| VersionEditCodec.ItemsDecode | ios/Pods/leveldb-library/db/version_edit.cc:105-203 | a string of encoded fields decodes as those fields in order |
| VersionEditCodec.EditRoundTrip | ios/Pods/leveldb-library/db/version_edit.cc:41-203 | every edit that can be stored is read back unchanged |
| Block.DecodeEntry | ios/Pods/leveldb-library/table/block.cc:55-75 | the fast path agrees with reading three varints, and lengths beyond the limit are refused |
| Block.EntryDecodes | ios/Pods/leveldb-library/table/block.cc:55-75 | a written entry is read back |
| Block.BlockBuilder.Add | ios/Pods/leveldb-library/table/block_builder.cc:71-105 | appends the pair; it shares the longest prefix with the key before, or nothing at every interval-th pair |
| Block.BlockBuilder.Finish | ios/Pods/leveldb-library/table/block_builder.cc:61-69 | the block ends with the restart offsets and their number |
| Block.Open | ios/Pods/leveldb-library/table/block.cc:25-40 | finds the restart array of every block that was built, and refuses contents exactly if they are too small for the number of restarts at their end |
| Block.Iter.ParseNextKey | ios/Pods/leveldb-library/table/block.cc:225-251 | moves to the next pair with its whole key, or off the end |
| Block.Iter.AdvanceRestart | ios/Pods/leveldb-library/table/block.cc:245-248 | keeps the loose restart index at or before the current entry, and the next restart at or after it |
| Block.Iter.Next | ios/Pods/leveldb-library/table/block.cc:138-141 | from pair i to pair i + 1, or off the end |
| Block.Iter.Prev | ios/Pods/leveldb-library/table/block.cc:143-162 | from pair i to pair i - 1, or off the block: the exact inverse of Next |
| Block.Iter.Seek | ios/Pods/leveldb-library/table/block.cc:164-202 | the first pair whose key is not below the target, or off the end |
| Block.Iter.SeekToFirst | ios/Pods/leveldb-library/table/block.cc:204-207 | the first pair |
| Block.Iter.SeekToLast | ios/Pods/leveldb-library/table/block.cc:209-214 | the last pair |
| Block.ReadAll | ios/Pods/leveldb-library/table/block.cc:204-251 | iterating over a built block gives its pairs back in order |
| Block.Build | ios/Pods/leveldb-library/table/block_builder.cc:61-105 | any pairs can be built into a block with any restart interval from 1 on |
| Comparator.LessIsTransitive | ios/Pods/leveldb-library/util/comparator.cc:27-29 | byte order is transitive |
| Comparator.LessIsTotal | ios/Pods/leveldb-library/util/comparator.cc:27-29 | byte order is total |
| Comparator.FindShortestSeparator | ios/Pods/leveldb-library/util/comparator.cc:31-52 | the key is cut off behind the first byte in which it differs from the limit, and that byte goes up by one, exactly if it is less than the byte of the limit by two or more; the result is no longer, above the key and below the limit |
| Comparator.FindShortSuccessor | ios/Pods/leveldb-library/util/comparator.cc:54-66 | the key is cut off behind its first byte that is not 0xff, and that byte goes up by one; it is left alone exactly if there is none |
| Comparator.InternalShortestSeparator | ios/Pods/leveldb-library/db/dbformat.cc:65-82 | the key itself, or a shorter user key strictly above its own with the largest trailer, and below the limit; it is shortened exactly if there is such a byte in front of the last of the user key |
| Comparator.InternalShortSuccessor | ios/Pods/leveldb-library/db/dbformat.cc:84-97 | the key itself, or a shorter user key strictly above its own with the largest trailer; it is shortened exactly if a byte in front of the last of the user key is not 0xff |
| Bloom.CreateFilter | ios/Pods/leveldb-library/util/bloom.cc:28-54 | the bits that are set are exactly the probed ones, and the number of probes is stored behind them |
| Bloom.KeyMayMatch | ios/Pods/leveldb-library/util/bloom.cc:56-80 | true if and only if every probe hits a set bit; more than 30 probes always match |
| Bloom.NoFalseNegatives | ios/Pods/leveldb-library/util/bloom.cc:28-80 | a filter matches every key it was made for |
| Bloom.FilterMatches | ios/Pods/leveldb-library/util/bloom.cc:28-80 | a filter matches a key if and only if each of its probes hits a bit that some key it was made for probed, or it has more than 30 probes |
| FilterBlock.FilterBlockBuilder.StartBlock | ios/Pods/leveldb-library/table/filter_block.cc:21-27 | moves the pending keys into the filter of the offsets they were added under, with empty filters for offsets that were skipped |
| FilterBlock.FilterBlockBuilder.GenerateFilter | ios/Pods/leveldb-library/table/filter_block.cc:51-75 | turns the pending keys into the next filter, or into an empty one |
| FilterBlock.FilterBlockBuilder.Finish | ios/Pods/leveldb-library/table/filter_block.cc:35-49 | a block that holds one filter for every group of keys |
| FilterBlock.FilterBlockReader.KeyMayMatch | ios/Pods/leveldb-library/table/filter_block.cc:90-104 | past the last filter every key matches, an empty filter matches none, and any other matches a key if and only if each of its probes hits where a probe of some key of that group did; so a key that was added is never ruled out |
| Tables.HandleRoundTrip | ios/Pods/leveldb-library/table/format.cc:15-29 | block handles are read back |
| Tables.FooterRoundTrip | ios/Pods/leveldb-library/table/format.cc:31-64 | the padded 48-byte footer with its magic number is read back |
| Tables.TableBuilder.Add | ios/Pods/leveldb-library/table/table_builder.cc:94-123 | appends the pair, after the index entry of the block before with a separator below the new key; the data block is written exactly if it has reached the block size |
| Tables.TableBuilder.Flush | ios/Pods/leveldb-library/table/table_builder.cc:125-139 | writes the data block and leaves its index entry pending |
| Tables.TableBuilder.Finish | ios/Pods/leveldb-library/table/table_builder.cc:198-253 | a table file: data blocks, filter, metaindex, index and footer, with exactly the added pairs |
| TableLookup.Open | ios/Pods/leveldb-library/table/table.cc:38-132 | opens a file exactly if its footer has the magic number and points to an index block that stands, and every table that was built with its filter or without |
| TableLookup.ReadMeta | ios/Pods/leveldb-library/table/table.cc:82-132 | finds the filter through the metaindex block exactly if there is one |
| TableLookup.Table.InternalGet | ios/Pods/leveldb-library/table/table.cc:214-242 | index, filter and data block together hand back what a linear scan from the key would, as far as the user key asked for is concerned, and nothing at all if the filter rules the user key out |
| TableLookup.ScanFindsNewest | ios/Pods/leveldb-library/table/table.cc:214-242 | that scan finds the newest stored entry of the user key with sequence at most s whenever there is one |
| TableLookup.LaterDiffers | ios/Pods/leveldb-library/db/dbformat.cc:65-97 | if the separator was shortened past the block, no later entry has the user key |
| SkipList.SkipList.FindGreaterOrEqual | ios/Pods/leveldb-library/db/skiplist.h:260-281 | the first node at or behind the key, and its predecessor on every level |
| SkipList.SkipList.FindLessThan | ios/Pods/leveldb-library/db/skiplist.h:283-302 | the last node in front of the key |
| SkipList.SkipList.FindLast | ios/Pods/leveldb-library/db/skiplist.h:304-322 | the last node |
| SkipList.SkipList.Insert | ios/Pods/leveldb-library/db/skiplist.h:336-368 | puts the key into the levels below its height and no other |
| SkipList.PublishKeepsChain | ios/Pods/leveldb-library/db/skiplist.h:362-367 | publishing a prepared node behind its predecessor puts its key in its place |
| SkipList.StepKeepsInv | ios/Pods/leveldb-library/db/skiplist.h:336-368 | after every single pointer load and store each level is a sorted chain and a sublist of the one below |
| SkipList.RunKeepsInv | ios/Pods/leveldb-library/db/skiplist.h:336-368 | and so in every state of every interleaving of one writer and any readers |
| SkipList.ReadIsRight | ios/Pods/leveldb-library/db/skiplist.h:260-281 | a search between the stores of an insertion returns the successor of its target among the keys published at its last load |
| SkipList.SuccessorIsLeast | ios/Pods/leveldb-library/db/skiplist.h:260-281 | the successor is the least key at or behind the target |
| SkipList.KeysStay | ios/Pods/leveldb-library/db/skiplist.h:336-368 | a published key stays |
| SkipList.ReaderCanLoad | ios/Pods/leveldb-library/db/skiplist.h:260-281 | a search never meets a missing pointer, even with a stale height |
| Crc32c.Extend | ios/Pods/leveldb-library/util/crc32c.cc:276-377 | the four-stride form equals one byte at a time, for every string, start value and address |
| Crc32c.CrcConcat | ios/Pods/leveldb-library/util/crc32c.h:15-18 | extending piece by piece equals extending at once |
| Crc32c.ShiftIsLinear | ios/Pods/leveldb-library/util/crc32c.cc:286-306 | shifting is linear over GF(2) |
| Crc32c.WordIsFourBytes | ios/Pods/leveldb-library/util/crc32c.cc:312-322 | a word step is four byte steps |
| Crc32c.Step4 | ios/Pods/leveldb-library/util/crc32c.cc:293-301 | four table look-ups carry a stride sixteen bytes on |
| Crc32c.AdvancedIs | ios/Pods/leveldb-library/util/crc32c.cc:345-363 | one word more in the stride whose turn it is |
| Crc32c.MaskRoundTrip | ios/Pods/leveldb-library/util/crc32c.h:29-40 | masking is undone by unmasking |
| FileFormats.ByteTable | ios/Pods/leveldb-library/util/crc32c.cc:20-63 | shifting a single bit by a byte gives the entry of the byte table with that index |
| FileFormats.MaskOfZero | ios/Pods/leveldb-library/util/crc32c.h:22-32 | what masking does to zero and to single bits |
| FileFormats.WholeRecord | ios/Pods/leveldb-library/db/log_format.h:15-32 | a record that fits its block: checksum of type and payload, two bytes of length, type 1, payload |
| FileFormats.RecordOfTwoBlocks | ios/Pods/leveldb-library/db/log_format.h:15-32 | a record that needs two blocks of 32768 bytes fills the first with type 2 and ends in the second with type 4 |
| FileFormats.RecordOfThreeBlocks | ios/Pods/leveldb-library/db/log_format.h:15-32 | and has type 3 in between if it needs three |
| FileFormats.TrailerIsZero | ios/Pods/leveldb-library/db/log_writer.cc:44-58 | six bytes or fewer at the end of a block are zero |
| FileFormats.BatchRecord | ios/Pods/leveldb-library/db/write_batch.cc:98-109 | a put is tag 1 with key and value, a deletion tag 0 with its key |
| FileFormats.SmallBatch | ios/Pods/leveldb-library/db/write_batch.cc:27-40 | the bytes of a batch of a put and a deletion, header included |
| FileFormats.EditTags | ios/Pods/leveldb-library/db/version_edit.cc:12-24 | the tags of the fields of a version edit |
| FileFormats.EditNumbers | ios/Pods/leveldb-library/db/version_edit.cc:41-63 | its four numbers with their tags, in the order in which they are written |
| FileFormats.MemTableEntry | ios/Pods/leveldb-library/db/memtable.cc:76-97 | length of the internal key, user key, type, sequence number, length of the value, value |
| FileFormats.SmallBlock | ios/Pods/leveldb-library/table/block_builder.cc:61-107 | the bytes of a block of two keys with a common first byte |
| FileFormats.FilterBlockEnd | ios/Pods/leveldb-library/table/filter_block.cc:35-49 | a filter block ends with where its offsets start, and 11, for one filter every 2048 bytes |
| FileFormats.Footer | ios/Pods/leveldb-library/table/format.cc:31-41 | a footer has 48 bytes, the last eight the magic number |
| HandleTable.HandleTable.Lookup | ios/Pods/leveldb-library/util/cache.cc:75-77 | finds the handle of that key and hash, if any |
| HandleTable.HandleTable.Insert | ios/Pods/leveldb-library/util/cache.cc:79-93 | maps the name to the new handle and returns the one it replaces |
| HandleTable.HandleTable.Remove | ios/Pods/leveldb-library/util/cache.cc:95-103 | takes the name out and returns its handle |
| HandleTable.HandleTable.Resize | ios/Pods/leveldb-library/util/cache.cc:123-147 | the larger table holds the same map |
| Rings.RemoveKeepsRing | ios/Pods/leveldb-library/util/cache.cc:240-243 | unlinking a member leaves a circle of the others in order |
| Rings.AppendKeepsRing | ios/Pods/leveldb-library/util/cache.cc:245-251 | linking before the head makes the newest member |
| LruCache.LRUCache.Ref | ios/Pods/leveldb-library/util/cache.cc:218-224 | a cached handle nobody held moves to the in-use list |
| LruCache.LRUCache.Unref | ios/Pods/leveldb-library/util/cache.cc:226-238 | the last reference runs the deleter once; a cached handle nobody holds any more becomes the newest evictable one |
| LruCache.LRUCache.FinishErase | ios/Pods/leveldb-library/util/cache.cc:308-317 | leaves its list, gives back its charge and the reference of the cache |
| LruCache.LRUCache.Lookup | ios/Pods/leveldb-library/util/cache.cc:253-260 | hands out the handle the table maps the name to |
| LruCache.LRUCache.Release | ios/Pods/leveldb-library/util/cache.cc:262-265 | a client gives up its reference |
| LruCache.LRUCache.Insert | ios/Pods/leveldb-library/util/cache.cc:267-304 | the caller gets the new handle, which is in the cache if there is capacity; the deleter of the handle it replaces runs if nobody else holds that one, then those of the least recently released handles, oldest first; afterwards the charges fit the capacity or nothing evictable is left |
| LruCache.LRUCache.Evict | ios/Pods/leveldb-library/util/cache.cc:294-301 | evicts the least recently released handles first, and no more of them than needed |
| LruCache.LRUCache.Erase | ios/Pods/leveldb-library/util/cache.cc:319-322 | the name is gone from the table, its handle from its list, and its charge is given back; its deleter runs now exactly if nobody else holds it |
| LruCache.LRUCache.Prune | ios/Pods/leveldb-library/util/cache.cc:324-334 | runs the deleter of every handle nobody holds, oldest first |
| SnapshotList.SnapshotList.New | ios/Pods/leveldb-library/db/snapshot.h:56-71 | the new snapshot goes to the end of the circle, which stays in order of sequence numbers |
| SnapshotList.SnapshotList.Delete | ios/Pods/leveldb-library/db/snapshot.h:73-88 | unlinks one snapshot and leaves the others in order |
| SnapshotList.SnapshotList.Oldest | ios/Pods/leveldb-library/db/snapshot.h:47-50 | the first member has the smallest sequence number of all live snapshots |
| WriteBatches.RecordsComeBack | ios/Pods/leveldb-library/db/write_batch.cc:42-80 | reading the bytes of any puts and deletions gives the same records, with nothing wrong |
| WriteBatches.WriteBatch.Add | ios/Pods/leveldb-library/db/write_batch.cc:98-109 | one more record and one more in the count |
| WriteBatches.WriteBatch.Append | ios/Pods/leveldb-library/db/write_batch.cc:144-148 | the records of both batches in order, with the sum of their counts and the sequence number of the first |
| WriteBatches.WriteBatch.SetSequence | ios/Pods/leveldb-library/db/write_batch.cc:94-96 | the batch gets the sequence number and keeps its records |
| WriteBatches.WriteBatch.Iterate | ios/Pods/leveldb-library/db/write_batch.cc:42-80 | on any bytes the records up to the first bad one and what is wrong with it, or that the count differs; on a batch that was built all records and no error |
| WriteBatches.WriteBatch.InsertInto | ios/Pods/leveldb-library/db/write_batch.cc:116-137 | the records enter the memtable with consecutive sequence numbers from that of the batch, and nothing else changes |
| MemTables.OrderIs | ios/Pods/leveldb-library/db/memtable.cc:28-35 | comparing the encoded keys is comparing user key, then sequence number and type descending |
| MemTables.KeyReads | ios/Pods/leveldb-library/db/memtable.cc:14-19 | key and value are read back from the bytes of an entry |
| MemTables.MemTable.Add | ios/Pods/leveldb-library/db/memtable.cc:76-99 | the encoded entry goes in its place in the order |
| MemTables.MemTable.Get | ios/Pods/leveldb-library/db/memtable.cc:101-135 | the value of the newest entry of the user key at or below the sequence number, or that it is deleted, or nothing exactly if there is none |
| Recovery.RecoverLogFile | ios/Pods/leveldb-library/db/db_impl.cc:425-490 | after a crash that cut the log anywhere, the memtables hold the entries of exactly the batches that are wholly in the file, each batch whole or not at all, older tables first, each up to the batch with which it is full and the last one the rest, and the sequence number to go on from is the last one used |
| Recovery.ReplayBatch | ios/Pods/leveldb-library/db/db_impl.cc:427-453 | one record of the log puts the entries of its batch into the memtable with their numbers |
| Recovery.LastIsLast | ios/Pods/leveldb-library/db/db_impl.cc:447-451 | nothing that was recovered is newer than that sequence number |
| Recovery.BatchIsRep | ios/Pods/leveldb-library/db/write_batch.cc:5-14 | the bytes of every batch that can be made are those that recovery reads |
| TwoLevel.SeekInBlock | ios/Pods/leveldb-library/table/two_level_iterator.cc:82-87 | seeking in the block the index names, and on from its end, is seeking in all blocks one after the other |
| TwoLevel.TwoLevelIterator.Seek | ios/Pods/leveldb-library/table/two_level_iterator.cc:82-87 | the first entry of all blocks at or after the target |
| TwoLevel.TwoLevelIterator.SeekToFirst | ios/Pods/leveldb-library/table/two_level_iterator.cc:89-94 | the first entry, past empty blocks |
| TwoLevel.TwoLevelIterator.SeekToLast | ios/Pods/leveldb-library/table/two_level_iterator.cc:96-101 | the last entry, back over empty blocks |
| TwoLevel.TwoLevelIterator.Next | ios/Pods/leveldb-library/table/two_level_iterator.cc:103-107 | one position forward in the concatenation |
| TwoLevel.TwoLevelIterator.Prev | ios/Pods/leveldb-library/table/two_level_iterator.cc:109-113 | one position back, from any position Next or Seek can reach |
| TwoLevel.TwoLevelIterator.SkipEmptyDataBlocksForward | ios/Pods/leveldb-library/table/two_level_iterator.cc:115-126 | keeps the position while it passes exhausted and empty blocks |
| TwoLevel.TwoLevelIterator.SkipEmptyDataBlocksBackward | ios/Pods/leveldb-library/table/two_level_iterator.cc:128-139 | the same going backward |
| TwoLevel.TwoLevelIterator.InitDataBlock | ios/Pods/leveldb-library/table/two_level_iterator.cc:146-162 | the data iterator reads the block of the current index entry, and is kept if it does already |
| TwoLevel.LevelIsSeparated | ios/Pods/leveldb-library/db/version_set.cc:163-217 | the largest keys of the files of a level separate its files |
| TwoLevel.LevelIsOneRun | ios/Pods/leveldb-library/db/version_set.cc:222-227 | files that do not overlap, one after the other, are one sorted run with exactly the entries of the files |
| TwoLevel.ConcatIsRun | ios/Pods/leveldb-library/db/version_set.cc:210-227 | opening the files by number and reading them one after the other is reading that run |
| TwoLevel.NewConcatenatingIterator | ios/Pods/leveldb-library/db/version_set.cc:222-227 | the iterator over a level is a cursor on that run |
| DbScan.AddIterators | ios/Pods/leveldb-library/db/version_set.cc:229-245 | a child for every level-0 file and one for every other level that has files: with the memtables, sorted runs without a common key that hold everything in the database |
| DbScan.NewInternalIterator | ios/Pods/leveldb-library/db/db_impl.cc:1072-1097 | the merging iterator over memtables, level-0 files and levels goes through exactly the entries of the database |
| DbScan.NewIterator | ios/Pods/leveldb-library/db/db_impl.cc:1157-1167 | the user iterator over it, at a snapshot or at the last sequence number |
| DbScan.Scan | ios/Pods/leveldb-library/db/db_impl.cc:1157-1167 | a scan from the first key to the last lists exactly the map the database reads like at that snapshot, in the order of the keys |
| PbFields.FieldIter.Next | ios/Pods/nanopb/pb_common.c:29-85 | the next field with its member and its number among the required ones; fields of one union share a member |
| PbFields.FieldIter.Find | ios/Pods/nanopb/pb_common.c:87-104 | the cyclic search finds the field with the tag if there is one, from wherever it starts, and is back at its start if not |
| PbFields.SharedIsUnion | ios/Pods/nanopb/pb_common.c:49-55 | two fields share a member of the structure only inside one union |
| PbWire.NumberRoundTrip | ios/Pods/nanopb/pb_encode.c:769-833 | every number a field can hold is received as it was sent, in every width and signedness |
| PbWire.ZigZagRoundTrip | ios/Pods/nanopb/pb_encode.c:630-639 | zigzag is undone by its inverse and takes 64 bits |
| PbWire.ZigZagStarts | ios/Pods/nanopb/pb_encode.c:630-639 | 0, -1, 1 and -2 are sent as 0, 1, 2 and 3 |
| PbWire.RefusedIff | ios/Pods/nanopb/pb_decode.c:1345-1440 | a number is refused if and only if it does not fit the width of its field, signed fields of less than eight bytes looking at the lower 32 bits only |
| PbEncode.OStream.EncodeVarint | ios/Pods/nanopb/pb_encode.c:608-628 | the loop writes the base-128 form |
| PbEncode.OStream.EncodeSVarint | ios/Pods/nanopb/pb_encode.c:630-639 | the shifts and the complement compute zigzag |
| PbEncode.OStream.Write | ios/Pods/nanopb/pb_encode.c:103-125 | succeeds if and only if there is room, or if the stream only counts |
| PbEncode.OStream.EncodeArray | ios/Pods/nanopb/pb_encode.c:147-236 | a packed array with its size in front, or one record for every element; an array that is too long is an error |
| PbEncode.CheckProto3DefaultValue | ios/Pods/nanopb/pb_encode.c:240-337 | true exactly for a field that is at its default: a has_ flag, a count or a union tag of zero, or a zero value, a message recursively |
| PbEncode.SentUnlessDefault | ios/Pods/nanopb/pb_encode.c:240-426 | nothing is sent of such a field; the only others of which nothing is sent belong to a union set to another of its fields, or are arrays of fixed count 0 |
| PbEncode.OStream.EncodeField | ios/Pods/nanopb/pb_encode.c:341-426 | the records of one field by its rule: required, optional, without has_ flag, repeated, fixed count, union |
| PbEncode.OStream.EncodeSubmessage | ios/Pods/nanopb/pb_encode.c:717-765 | the first pass counts exactly the bytes the second one writes, so that the error for a changed size never comes |
| PbEncode.OStream.Encode | ios/Pods/nanopb/pb_encode.c:528-550 | succeeds if and only if the message can be encoded and there is room, and then writes, or counts, exactly its records in order |
| PbFormat.VarintField | ios/Pods/nanopb/pb_encode.c:669-700 | a bool, enum or plain integer with field number t is sent as the varints of 8 t and of the number in 64 bits |
| PbFormat.ZigZagField | ios/Pods/nanopb/pb_encode.c:669-700 | a zigzag integer with field number t is sent as the varints of 8 t and of twice its distance from zero, less one if it is negative |
| PbFormat.WordField | ios/Pods/nanopb/pb_encode.c:641-651 | a four-byte number is sent as the varint of 8 t + 5 and four bytes, least significant first |
| PbFormat.LongWordField | ios/Pods/nanopb/pb_encode.c:653-667 | an eight-byte number is sent as the varint of 8 t + 1 and eight bytes, least significant first |
| PbFormat.BytesField | ios/Pods/nanopb/pb_encode.c:852-871 | bytes are sent as the varint of 8 t + 2, their number and themselves |
| PbFormat.TextField | ios/Pods/nanopb/pb_encode.c:873-897 | a text is sent so up to its first zero byte |
| PbFormat.MessageField | ios/Pods/nanopb/pb_encode.c:717-765 | and a submessage as its own encoding with its length in front |
| PbFormat.PackedField | ios/Pods/nanopb/pb_encode.c:147-208 | a repeated field of numbers is one record with the length of all of them, and nothing if there are none |
| PbFormat.OneAsFixed64 | ios/Pods/nanopb/pb_encode.c:653-667 | the bytes of a message of one fixed64 field |
| PbRoundTrip.GetEncodedSize | ios/Pods/nanopb/pb_encode.c:567-577 | the exact size |
| PbStreams.IStream.DecodeVarint32 | ios/Pods/nanopb/pb_decode.c:187-247 | reads every 32-bit number back |
| PbStreams.IStream.DecodeVarint | ios/Pods/nanopb/pb_decode.c:255-276 | on any bytes: what at most ten of them stand for, cut to 64 bits, and refused exactly if no last byte comes; so every 64-bit number is read back |
| PbStreams.IStream.SkipField | ios/Pods/nanopb/pb_decode.c:278-334 | skips exactly one unknown value of any wire type: for type 0 a varint of any length, for 1 eight bytes, for 2 a length and as many bytes, for 5 four bytes; no other type is accepted, nor a varint without an end or fewer bytes than that |
| PbStreams.IStream.MakeStringSubstream | ios/Pods/nanopb/pb_decode.c:372-385 | lends exactly the bytes of a string, and what follows them is next when the substream is closed |
| PbDecode.SetToDefaults | ios/Pods/nanopb/pb_decode.c:845-928 | every member at its default, submessages too |
| PbDecode.DecodeNumber | ios/Pods/nanopb/pb_decode.c:1334-1441 | a number that does not fit its field is refused, every other one stored |
| PbDecode.DecodeString | ios/Pods/nanopb/pb_decode.c:1447-1523 | a string is refused exactly if its field has no room for it |
| PbDecode.DecodePacked | ios/Pods/nanopb/pb_decode.c:423-449 | as many numbers as there is room for; more of them, or one that does not fit, are an error |
| PbDecode.DecodeStaticField | ios/Pods/nanopb/pb_decode.c:406-483 | one value goes where the rule of its field says; an element more than an array has room for is refused |
| PbDecode.EnterField | ios/Pods/nanopb/pb_decode.c:995-1027 | a fixed-count array starts from nothing, and only when the one before is full; a required field is marked in the bitmap |
| PbDecode.CheckRequired | ios/Pods/nanopb/pb_decode.c:1037-1079 | the word-by-word test of the bitmap succeeds if and only if the first 64 required fields, or all if fewer, are marked |
| PbDecode.DecodeNoInit | ios/Pods/nanopb/pb_decode.c:934-1082 | on the bytes of any well-formed records, known and unknown, nested to any depth: accepts exactly when receiving them one by one refuses none and leaves nothing missing, and stores exactly what that stores |
| PbDecode.Decode | ios/Pods/nanopb/pb_decode.c:1084-1096 | the same from a structure at its defaults |
| PbRoundTrip.UnknownsChangeNothing | ios/Pods/nanopb/pb_decode.c:960-990 | records with unknown tags, added anywhere and in submessages too, change neither what is stored nor what is refused |
| PbRoundTrip.MessageBack | ios/Pods/nanopb/pb_decode.c:934-1096 | every message that can be sent is accepted, and comes back with what was not sent at its default |
| PbRoundTrip.PaddedMessageBack | ios/Pods/nanopb/pb_decode.c:934-1096 | so it does with unknown fields added |
| PbRoundTrip.SendAndReceive | ios/Pods/nanopb/pb_encode.c:528-550 | through the bytes: encoding succeeds exactly if the buffer is large enough, and decoding what was written gives the message back |
| PbRoundTrip.ReceivePadded | ios/Pods/nanopb/pb_decode.c:1084-1096 | through the bytes with unknown fields added |
| PbRoundTrip.UnterminatedIsRefused | ios/Pods/nanopb/pb_decode.c:1487-1523 | a text comes back if and only if its buffer has room for the terminator |
| PbRoundTrip.SeenIffCame | ios/Pods/nanopb/pb_decode.c:1021-1027 | a required field among the first 64 is marked if and only if a record for it came |
| PbRoundTrip.MissingRequiredIsRefused | ios/Pods/nanopb/pb_decode.c:1037-1079 | a message that lacks one of them is refused |

## Left out

- I/O errors in the engine part: a failed write or install ends in an error state that this model does not describe; `ObsoleteFiles` and `WriteQueue` do model failing log and manifest writes.
- VersionEdits.Builder.Apply: allowed_seeks, which only the seek statistics use; the compaction pointers of an edit are moved by `ManifestFile.MovePointers`.
- ManifestReplay.VersionSet.LogAndApply: the half that writes the manifest file is `ManifestFile.DescriptorLog.LogAndApply`; the database object of the engine part uses the half in memory, and `Durability.DurableDb` writes the records; compaction pointers are kept by the object.
- ManifestFile.DescriptorLog.LogAndApply: a write that fails, and the file CURRENT, which is moved to a new manifest once that is whole.
- ManifestFile.Recover: the counters it ends with are the recorded ones, `ManifestReplay.VersionSet.Reopened` goes on from there; what is read of a manifest with damaged bytes; a key too short to be one.
- RunRecovery.RecoverRun: log numbers, which the states of the engine part do not have.
- CrashRecovery.Open: the two logs are given as bytes, `Durability.DurableDb.LogsFound` says which files they are and `ObsoleteFiles` proves that these are on disk; a crash of the machine that keeps a newer log and loses the end of an older one.
- FlushInCompaction.FlushInBetween: one flush per compaction; in the state machine a flush and a compaction are separate steps, and there a flush takes its number behind those of the outputs.
- Reopening.Reopen: log numbers of the directory are inputs; reuse of the last log.
- Recovery.RecoverLogFile: how full a memtable is, is an input; a record too short for a batch cannot occur in such a log and is left out.
- CompactionInputs.PickCompaction: which file had too many fruitless reads is an input, seek statistics and read sampling are left out; scores are real numbers and not doubles.
- Sequence numbers beyond the 56-bit limit: the code does not check the limit either; the steps here require it.
- Keys that cannot be parsed, corrupted bytes and checksum collisions: the log reader, the block iterator and the edit decoder are total on them, but only the log parser and the edit decoder say what is reported.
- Log reading from an offset other than 0, reuse of logs and manifests, repair, dumping, the C interface.
- Snappy compression and the optional checksum test when a table block is read.
- TableLookup.Open: the optional checksum test of the index block.
- DbScan.NewInternalIterator: a child of the merging iterator is a cursor on a sorted run; `TwoLevel` shows that the iterator over a level is one, on the same run, but its objects are not plugged in.
- The table and block caches as callers of the LRU cache, and the 16-way sharding.
- The memtable in the engine part is the sorted list of its entries, and in `MemTables` the list of their bytes; `SkipList` treats its nodes and pointers, without the arena.
- Memory order: loads and stores of the skip list and of the queue are sequentially consistent steps.
- Widths: block offsets are 32 bits wide, so the table theorems speak of files below 4 GB; entry lengths in a block below 4 GB.
- The hash function, the literal checksum tables and the hardware checksum instruction: a hash is any function, a table any that satisfies its defining relation.
- nanopb: pointer and callback fields, extensions, builds without 64-bit integers, streams that are not buffers, error texts.
- DbImpl.DBImpl.Write: the log record is in `Durability.DurableDb.Write`, its failure in `WriteQueue`.
- Durability.DurableDb.BackgroundCompaction: the compaction pointers in the manifest, which `ManifestFile.DescriptorLog` writes; failed writes; file numbers beyond 64 bits.
- Durability.DurableDb.Restart: which writes of the log the operating system kept is an input; the tables are taken to be on disk.
- DbImpl.DBImpl.Compact: writes that fail; the memtable compaction inside the loop is in `FlushInCompaction`.
- DbImpl.DBImpl.BackgroundCompaction: error states; the flag that a manual request is done is that nothing is left of it.
- ObsoleteFiles.OnlyOneWorkerIsSafe: the second worker itself is not a step of the machine.
- Log.Reader.ReadRecord: which records come back from damaged bytes; it only has to end.
- PbDecode.Decode: as PbDecode.DecodeNoInit.
- PbDecode.DecodeStaticField: nothing is claimed when the wire type does not fit the field.
- PbStreams.IStream.SkipField: that a string with a malformed length is refused.
- PbDecode.DecodeNoInit: a known field whose wire type does not fit it, and a message that ends in a zero byte, are handled as in the code, but nothing is claimed of them; the structure is passed and returned by value.
- PbStreams.IStream.DecodeVarint32: varints of more than 36 bytes, whose bit counter wraps around in the code, and how sign-extended ones are cut.
- PbEncode.OStream.EncodeField: the records are of the shape the C types guarantee; a bool that is neither 0 nor 1 in memory is not.
- BoringSSL, the application itself.
- SnapshotReads.CompactionPreservesReads: the condition is on the state, not on the code's own choice of files, because the code does not ensure it.
- Database.StepKeepsInv: a write whose log record fails uses up sequence numbers without entries; only `WriteQueue` has that step.
- SkipList.SkipList.Insert: the height is an input, the random generator is not modelled.
- Bloom.CreateFilter: the number of probes is an input from 1 to 30; its floating-point rounding is not modelled.
- LruCache.LRUCache.Insert: the deleter is modelled as a record that it ran, values are not.
- WriteQueue.StepKeepsInv: when MakeRoomForWrite delays a writer, waits or switches the memtable is left open; so is any other error of the background work, behind which writers may give up.
